/**
Exit records: the fields a supervising goroutine writes one by one are read
only through the closed done channel, so a wait never sees a half-written
record (cmd/capbroker/runlaunch_linux.go:75-87, 194-263 and
sidecarlaunch_linux.go:152-162).
*/
module BrokerRecords {
  import opened Wrappers
  import opened BrokerRegistry
  import opened BrokerProtocol

  /** The one thread that may still write a child's entry: its launcher, then its supervisor or reaper. */
  function Keeps(th: Thread): Option<ChildId> {
    match th
    case Launch(_, LRegister(_, c)) => Some(c)
    case Launch(_, LSpawn(_, c)) => Some(c)
    case Supervise(c, _, _) => Some(c)
    case Sidecar(_, XInsert(c)) => Some(c)
    case Sidecar(_, XSpawn(c)) => Some(c)
    case Sidecar(_, XKill(c)) => Some(c)
    case Sidecar(_, XReap(c)) => Some(c)
    case SuperviseSide(c, _) => Some(c)
    case ReapLoser(c) => Some(c)
    case _ => None
  }

  /** A sidecar's entry has no actuals and no stderr tail. */
  predicate Bare(child: Child) {
    !child.jailed && child.actuals == Actuals(None, None) && child.stderrTail == ""
  }

  /** What the keeper at this statement has already written. */
  predicate WrittenSoFar(th: Thread, child: Child) {
    match th
    case Launch(_, _) => child.jailed
    case Supervise(_, _, stage) => WrittenBySupervisor(stage, child)
    case SuperviseSide(_, stage) => Bare(child) && WrittenBySideSupervisor(stage, child)
    case _ => Bare(child)
  }

  predicate WrittenBySupervisor(stage: SupStage, child: Child) {
    && child.jailed
    && (stage.AwaitExit? || (
          && child.exit.Some? && child.reaped
          && (stage.WriteOom? || child.oom == child.exit.value.oom)
          && (stage.WriteTail? || stage.WriteErr? || !NeedsExit(stage) ==> child.actuals == child.exit.value.actuals)
          && (stage.WriteErr? || !NeedsExit(stage) ==> child.stderrTail == child.exit.value.stderrTail)
          && (!NeedsExit(stage) ==> child.waitErr == child.exit.value.waitErr)))
  }

  predicate WrittenBySideSupervisor(stage: SideStage, child: Child) {
    stage.AwaitSide? || (
      && child.exit.Some? && child.reaped
      && (stage.WriteSideOom? || child.oom == child.exit.value.oom)
      && (stage.CloseSide? ==> child.waitErr == child.exit.value.waitErr))
  }

  /** Everything a wait would report is what the process ended with. */
  predicate Complete(child: Child) {
    child.exit.Some? && child.reaped && ReadEntry(child) == FullReport(child.jailed, child.exit.value)
  }

  predicate Keeping(children: map<ChildId, Child>, th: Thread) {
    Keeps(th).Some? ==>
      var c := Keeps(th).value;
      c in children && !children[c].done && WrittenSoFar(th, children[c])
  }

  ghost predicate OneKeeper(threads: map<Tid, Thread>) {
    forall t, u :: t in threads && u in threads && Keeps(threads[t]).Some? && Keeps(threads[t]) == Keeps(threads[u]) ==> t == u
  }

  ghost predicate Kept(s: State) {
    && (forall t :: t in s.threads ==> Keeping(s.children, s.threads[t]))
    && OneKeeper(s.threads)
    && (forall c :: c in s.children && s.children[c].done ==> Complete(s.children[c]))
  }

  // ------------------------------------------------------------------
  // One statement
  // ------------------------------------------------------------------

  /** The children as the statement leaves them. */
  function ChildrenAfter(children: map<ChildId, Child>, th: Thread, e: Effect, newId: nat): map<ChildId, Child> {
    if e.stored.Some? then children[Target(th, newId) := e.stored.value] else children
  }

  /** A statement creates a child it then keeps, signals any child, or writes the child it keeps; nothing else. */
  predicate Disciplined(children: map<ChildId, Child>, th: Thread, e: Effect, newId: nat) {
    var c := Target(th, newId);
    var after := ChildrenAfter(children, th, e, newId);
    && Keeping(after, e.next)
    && (e.spawned.Some? ==> e.stored.None? && Keeps(e.next).None? && Keeps(e.spawned.value) == Keeps(th) && Keeping(after, e.spawned.value))
    && (e.spawned.None? && e.stored.None? ==> Keeps(e.next) == Keeps(th))
    && (e.stored.Some? && c !in children ==> Keeps(th).None? && Keeps(e.next) == Some(c) && !e.stored.value.done)
    && (e.stored.Some? && c in children ==>
          && e.stored.value.cid == children[c].cid && e.stored.value.jailed == children[c].jailed
          && (Keeps(th) == Some(c) || e.stored.value == children[c].(killed := true))
          && (Keeps(e.next) == Keeps(th) || Keeps(e.next).None?)
          && (e.stored.value.done ==> Complete(e.stored.value)))
  }

  lemma SupervisionDisciplined(children: map<ChildId, Child>, c: ChildId, b: BundleId, stage: SupStage, newId: nat)
    requires Keeping(children, Supervise(c, b, stage))
    requires NeedsExit(stage) ==> children[c].exit.Some?
    ensures Disciplined(children, Supervise(c, b, stage), Supervision(children[c], c, b, stage), newId)
  {
  }

  lemma SideSupervisionDisciplined(children: map<ChildId, Child>, c: ChildId, stage: SideStage, newId: nat)
    requires Keeping(children, SuperviseSide(c, stage))
    requires stage.CloseSide? || children[c].exit.Some?
    ensures Disciplined(children, SuperviseSide(c, stage), SideSupervision(children[c], c, stage), newId)
  {
  }

  lemma LaunchDisciplined(s: State, cid: ContainerId, pc: LaunchPc, ok: bool, newId: nat)
    requires Keeping(s.children, Launch(cid, pc)) && CanLaunch(s, pc, ok, newId)
    ensures Disciplined(s.children, Launch(cid, pc), LaunchRun(cid, pc, ok, newId), newId)
  {
  }

  lemma SidecarDisciplined(s: State, cid: ContainerId, pc: SidecarPc, ok: bool, newId: nat)
    requires Keeping(s.children, Sidecar(cid, pc)) && CanLaunchSidecar(s, cid, pc, ok, newId)
    ensures Disciplined(s.children, Sidecar(cid, pc), LaunchSidecar(s, cid, pc, ok, newId), newId)
  {
  }

  lemma KillDisciplined(s: State, pc: KillPc, newId: nat)
    requires pc.KSignal? ==> pc.child in s.children
    requires forall c :: c in s.children && s.children[c].done ==> Complete(s.children[c])
    ensures Disciplined(s.children, Kill(pc), KillRun(s, pc), newId)
  {
  }

  /** A statement that touches no child obeys trivially. */
  lemma PlainDisciplined(children: map<ChildId, Child>, th: Thread, e: Effect, newId: nat)
    requires e.stored.None? && e.spawned.None? && Keeps(th).None? && Keeps(e.next).None?
    ensures Disciplined(children, th, e, newId)
  {
  }

  lemma ReapDisciplined(children: map<ChildId, Child>, c: ChildId, newId: nat)
    requires Keeping(children, ReapLoser(c))
    ensures Disciplined(children, ReapLoser(c), To(Gone).(stored := Some(children[c].(reaped := true))), newId)
  {
  }

  lemma StatementDisciplined(s: State, th: Thread, ok: bool, newId: nat)
    requires CanAdvance(s, th, ok, newId) && Keeping(s.children, th)
    requires forall c :: c in s.children && s.children[c].done ==> Complete(s.children[c])
    ensures Disciplined(s.children, th, Statement(s, th, ok, newId), newId)
    ensures Statement(s, th, ok, newId).spawned.Some? ==> newId !in s.threads
  {
    match th
    case Supervise(c, b, stage) => SupervisionDisciplined(s.children, c, b, stage, newId);
    case SuperviseSide(c, stage) => SideSupervisionDisciplined(s.children, c, stage, newId);
    case Launch(cid, pc) => LaunchDisciplined(s, cid, pc, ok, newId);
    case Sidecar(cid, pc) => SidecarDisciplined(s, cid, pc, ok, newId);
    case Kill(pc) => KillDisciplined(s, pc, newId);
    case Wait(cid, pc) => PlainDisciplined(s.children, th, WaitRun(s, cid, pc, ok), newId);
    case Capture(pc) => PlainDisciplined(s.children, th, CaptureRunTree(pc, ok), newId);
    case ReapLoser(c) => ReapDisciplined(s.children, c, newId);
  }

  // ------------------------------------------------------------------
  // The other threads
  // ------------------------------------------------------------------

  lemma SignalLeavesKeeping(children: map<ChildId, Child>, th: Thread, c: ChildId)
    requires Keeping(children, th) && c in children
    ensures Keeping(children[c := children[c].(killed := true)], th)
  {
  }

  lemma ExitLeavesKeeping(children: map<ChildId, Child>, th: Thread, c: ChildId, x: Exit)
    requires Keeping(children, th) && c in children && children[c].exit.None?
    ensures Keeping(children[c := children[c].(exit := Some(x))], th)
  {
  }

  lemma DisciplineKeepsOneKeeper(threads: map<Tid, Thread>, children: map<ChildId, Child>, t: Tid, e: Effect, newId: nat)
    requires OneKeeper(threads) && t in threads && Disciplined(children, threads[t], e, newId)
    requires e.spawned.Some? ==> newId !in threads
    requires forall u :: u in threads ==> Keeping(children, threads[u])
    ensures OneKeeper((if e.spawned.Some? then threads[newId := e.spawned.value] else threads)[t := e.next])
  {
  }

  lemma DisciplineKeepsRecords(s: State, t: Tid, e: Effect, newId: nat)
    requires Kept(s) && t in s.threads && Disciplined(s.children, s.threads[t], e, newId)
    requires e.spawned.Some? ==> newId !in s.threads
    ensures Kept(Perform(s, t, e, newId))
  {
    var s' := Perform(s, t, e, newId);
    var c := Target(s.threads[t], newId);
    forall u | u in s'.threads
      ensures Keeping(s'.children, s'.threads[u])
    {
      if u in s.threads && u != t && Keeps(s.threads[u]) == Some(c) && e.stored.Some? {
        SignalLeavesKeeping(s.children, s.threads[u], c);
      }
    }
    DisciplineKeepsOneKeeper(s.threads, s.children, t, e, newId);
  }

  lemma KeptByStep(s: State, a: Action)
    requires Kept(s) && Enabled(s, a)
    ensures Kept(Apply(s, a))
  {
    var s' := Apply(s, a);
    match a
    case Arrive(t, call) =>
    case Advance(t, ok, newId) =>
      StatementDisciplined(s, s.threads[t], ok, newId);
      DisciplineKeepsRecords(s, t, Statement(s, s.threads[t], ok, newId), newId);
    case ChildExits(c, x) =>
      forall t | t in s.threads
        ensures Keeping(s'.children, s.threads[t])
      {
        ExitLeavesKeeping(s.children, s.threads[t], c, x);
      }
    case Shutdown =>
    case ShutdownKills(c) =>
      forall t | t in s.threads
        ensures Keeping(s'.children, s.threads[t])
      {
        SignalLeavesKeeping(s.children, s.threads[t], c);
      }
  }

  // ------------------------------------------------------------------
  // Closing done is final
  // ------------------------------------------------------------------

  /** c is still there under the same id, and if its done channel was closed nothing in its record changed. */
  predicate Settled(s: State, s': State, c: ChildId)
    requires c in s.children
  {
    && c in s'.children && s'.children[c].cid == s.children[c].cid && s'.children[c].jailed == s.children[c].jailed
    && (s.children[c].exit.Some? ==> s'.children[c].exit == s.children[c].exit)
    && (s.children[c].done ==> s'.children[c].done && ReadEntry(s'.children[c]) == ReadEntry(s.children[c]))
  }

  lemma DoneIsFinal(s: State, a: Action, c: ChildId)
    requires Kept(s) && Enabled(s, a) && c in s.children
    ensures Settled(s, Apply(s, a), c)
  {
    if a.Advance? {
      var th := s.threads[a.t];
      var e := Statement(s, th, a.ok, a.newId);
      StatementDisciplined(s, th, a.ok, a.newId);
      if e.stored.Some? && Target(th, a.newId) == c {
        ExitIsKept(s, th, a.ok, a.newId);
        if s.children[c].done {
          assert Keeps(th) != Some(c);
        }
      }
    }
  }

  /** No statement changes how a process ended. */
  lemma ExitIsKept(s: State, th: Thread, ok: bool, newId: nat)
    requires CanAdvance(s, th, ok, newId) && Target(th, newId) in s.children
    ensures var e := Statement(s, th, ok, newId);
      e.stored.Some? ==> e.stored.value.exit == s.children[Target(th, newId)].exit
  {
  }

  // ------------------------------------------------------------------
  // What registry entries and waits refer to
  // ------------------------------------------------------------------

  predicate Refers(children: map<ChildId, Child>, th: Thread) {
    match th
    case Launch(cid, LRegister(_, c)) => c in children && children[c].cid == cid
    case Sidecar(cid, XInsert(c)) => c in children && children[c].cid == cid
    case Wait(cid, WSelect(c)) => c in children && children[c].cid == cid
    case Wait(cid, WForget(c)) => c in children && children[c].cid == cid && children[c].done
    case Wait(cid, WRead(c)) => c in children && children[c].cid == cid && children[c].done
    case Kill(KSignal(c)) => c in children
    case Returned(Exited(cid, c, result)) =>
      c in children && children[c].cid == cid && children[c].done && result == ReadEntry(children[c])
    case _ => true
  }

  ghost predicate Referenced(s: State) {
    && (forall t :: t in s.threads ==> Refers(s.children, s.threads[t]))
    && RegistryRefers(s)
  }

  ghost predicate RegistryRefers(s: State) {
    forall cid :: cid in s.runs ==> s.runs[cid] in s.children && s.children[s.runs[cid]].cid == cid
  }

  predicate EffectRefers(children: map<ChildId, Child>, th: Thread, e: Effect, newId: nat) {
    var after := ChildrenAfter(children, th, e, newId);
    && Refers(after, e.next)
    && (e.spawned.Some? ==> Refers(after, e.spawned.value))
    && (e.registry.PutRun? ==> e.registry.child in children && children[e.registry.child].cid == e.registry.cid)
  }

  lemma LaunchRefers(s: State, cid: ContainerId, pc: LaunchPc, ok: bool, newId: nat)
    requires Refers(s.children, Launch(cid, pc)) && CanLaunch(s, pc, ok, newId)
    ensures EffectRefers(s.children, Launch(cid, pc), LaunchRun(cid, pc, ok, newId), newId)
  {
  }

  lemma SidecarRefers(s: State, cid: ContainerId, pc: SidecarPc, ok: bool, newId: nat)
    requires Refers(s.children, Sidecar(cid, pc)) && CanLaunchSidecar(s, cid, pc, ok, newId)
    ensures EffectRefers(s.children, Sidecar(cid, pc), LaunchSidecar(s, cid, pc, ok, newId), newId)
  {
  }

  lemma WaitRefers(s: State, cid: ContainerId, pc: WaitPc, ok: bool, newId: nat)
    requires Refers(s.children, Wait(cid, pc)) && RegistryRefers(s) && CanWait(s, pc, ok)
    ensures EffectRefers(s.children, Wait(cid, pc), WaitRun(s, cid, pc, ok), newId)
  {
  }

  lemma KillRefers(s: State, pc: KillPc, newId: nat)
    requires RegistryRefers(s) && (pc.KSignal? ==> pc.child in s.children)
    ensures EffectRefers(s.children, Kill(pc), KillRun(s, pc), newId)
  {
  }

  lemma StatementRefers(s: State, th: Thread, ok: bool, newId: nat)
    requires CanAdvance(s, th, ok, newId) && Refers(s.children, th) && RegistryRefers(s)
    ensures EffectRefers(s.children, th, Statement(s, th, ok, newId), newId)
  {
    match th
    case Launch(cid, pc) => LaunchRefers(s, cid, pc, ok, newId);
    case Sidecar(cid, pc) => SidecarRefers(s, cid, pc, ok, newId);
    case Wait(cid, pc) => WaitRefers(s, cid, pc, ok, newId);
    case Kill(pc) => KillRefers(s, pc, newId);
    case _ =>
  }

  lemma SettledLeavesRefers(s: State, s': State, th: Thread)
    requires Refers(s.children, th)
    requires forall c :: c in s.children ==> Settled(s, s', c)
    ensures Refers(s'.children, th)
  {
  }

  lemma ReferencedByStep(s: State, a: Action)
    requires Kept(s) && Referenced(s) && Enabled(s, a)
    ensures Referenced(Apply(s, a))
  {
    var s' := Apply(s, a);
    forall c | c in s.children
      ensures Settled(s, s', c)
    {
      DoneIsFinal(s, a, c);
    }
    if a.Advance? {
      StatementRefers(s, s.threads[a.t], a.ok, a.newId);
    }
    forall t | t in s'.threads
      ensures Refers(s'.children, s'.threads[t])
    {
      if t in s.threads && (a.Advance? ==> t != a.t) {
        SettledLeavesRefers(s, s', s.threads[t]);
      }
    }
  }

  // ------------------------------------------------------------------
  // Over whole runs
  // ------------------------------------------------------------------

  lemma {:induction false} RunsRecord(trace: seq<State>, actions: seq<Action>, n: nat)
    requires IsRun(trace, actions) && n < |trace|
    ensures Kept(trace[n]) && Referenced(trace[n])
  {
    if n > 0 {
      RunsRecord(trace, actions, n - 1);
      assert StepAt(trace, actions, n - 1);
      KeptByStep(trace[n - 1], actions[n - 1]);
      ReferencedByStep(trace[n - 1], actions[n - 1]);
    }
  }

  /**
  In every reachable state, a wait that returned reports in full how the
  process behind its entry ended: no field is missing, stale or torn.
  */
  lemma WaitReportsTheWholeExit(trace: seq<State>, actions: seq<Action>, n: nat, t: Tid)
    requires IsRun(trace, actions) && n < |trace|
    requires t in trace[n].threads && trace[n].threads[t].Returned? && trace[n].threads[t].reply.Exited?
    ensures var reply := trace[n].threads[t].reply;
      && reply.child in trace[n].children
      && trace[n].children[reply.child].cid == reply.cid
      && trace[n].children[reply.child].exit.Some?
      && reply.result == FullReport(trace[n].children[reply.child].jailed, trace[n].children[reply.child].exit.value)
  {
    RunsRecord(trace, actions, n);
    assert Refers(trace[n].children, trace[n].threads[t]);
    assert Complete(trace[n].children[trace[n].threads[t].reply.child]);
  }
}
