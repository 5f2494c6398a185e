/**
What each call of the broker comes to, over every interleaving: a kill that
returned has signalled the process its id named, a wait is refused only for a
reason, and a launch that answered well registered what it started
(cmd/capbroker/runlaunch_linux.go:102-291, sidecarlaunch_linux.go:93-165).
*/
module BrokerCalls {
  import opened Wrappers
  import opened BrokerRegistry
  import opened BrokerProtocol
  import opened BrokerRecords
  import opened BrokerReachability

  /** Step k is a statement of thread t. */
  ghost predicate Moves(trace: seq<State>, actions: seq<Action>, k: nat, t: Tid)
    requires |trace| == |actions| + 1 && k < |actions|
  {
    actions[k].Advance? && actions[k].t == t && t in trace[k].threads
  }

  lemma SpawnsNewThread(s: State, th: Thread, ok: bool, newId: nat)
    requires CanAdvance(s, th, ok, newId)
    ensures Statement(s, th, ok, newId).spawned.Some? ==> newId !in s.threads
  {
    StatementPastForget(s, th, ok, newId);
  }

  /** A thread changes only by its own statements. */
  lemma ThreadStep(trace: seq<State>, actions: seq<Action>, k: nat, t: Tid)
    requires IsRun(trace, actions) && k < |actions| && t in trace[k].threads
    ensures t in trace[k + 1].threads
    ensures !Moves(trace, actions, k, t) ==> trace[k + 1].threads[t] == trace[k].threads[t]
    ensures Moves(trace, actions, k, t) ==>
              && CanAdvance(trace[k], trace[k].threads[t], actions[k].ok, actions[k].newId)
              && trace[k + 1].threads[t]
                 == Statement(trace[k], trace[k].threads[t], actions[k].ok, actions[k].newId).next
  {
    assert StepAt(trace, actions, k);
    var s, a := trace[k], actions[k];
    if a.Advance? {
      SpawnsNewThread(s, s.threads[a.t], a.ok, a.newId);
    }
  }

  // ------------------------------------------------------------------
  // Kill
  // ------------------------------------------------------------------

  /** A statement that stores c's record leaves it signalled. */
  predicate LeavesKilled(th: Thread, e: Effect, newId: nat, c: ChildId) {
    e.stored.Some? && Target(th, newId) == c ==> e.stored.value.killed
  }

  lemma SupervisionLeavesKilled(child: Child, c: ChildId, b: BundleId, stage: SupStage)
    requires child.killed && (NeedsExit(stage) ==> child.exit.Some?)
    ensures Supervision(child, c, b, stage).stored.Some? ==> Supervision(child, c, b, stage).stored.value.killed
  {
  }

  lemma SidecarLeavesKilled(s: State, cid: ContainerId, pc: SidecarPc, ok: bool, newId: nat, c: ChildId)
    requires CanLaunchSidecar(s, cid, pc, ok, newId) && c in s.children && s.children[c].killed
    ensures LeavesKilled(Sidecar(cid, pc), LaunchSidecar(s, cid, pc, ok, newId), newId, c)
  {
  }

  lemma LaunchLeavesKilled(s: State, cid: ContainerId, pc: LaunchPc, ok: bool, newId: nat, c: ChildId)
    requires CanLaunch(s, pc, ok, newId) && c in s.children && s.children[c].killed
    ensures LeavesKilled(Launch(cid, pc), LaunchRun(cid, pc, ok, newId), newId, c)
  {
  }

  lemma StatementLeavesKilled(s: State, th: Thread, ok: bool, newId: nat, c: ChildId)
    requires CanAdvance(s, th, ok, newId) && c in s.children && s.children[c].killed
    ensures LeavesKilled(th, Statement(s, th, ok, newId), newId, c)
  {
    match th
    case Launch(cid, pc) => LaunchLeavesKilled(s, cid, pc, ok, newId, c);
    case Sidecar(cid, pc) => SidecarLeavesKilled(s, cid, pc, ok, newId, c);
    case Supervise(d, b, stage) =>
      if d == c {
        SupervisionLeavesKilled(s.children[c], c, b, stage);
      }
    case _ =>
  }

  /** A signalled process stays signalled. */
  lemma {:induction false} KilledStays(trace: seq<State>, actions: seq<Action>, i: nat, n: nat, c: ChildId)
    requires IsRun(trace, actions) && i <= n < |trace|
    requires c in trace[i].children && trace[i].children[c].killed
    ensures c in trace[n].children && trace[n].children[c].killed
    decreases n
  {
    if i < n {
      KilledStays(trace, actions, i, n - 1, c);
      var s, a := trace[n - 1], actions[n - 1];
      assert StepAt(trace, actions, n - 1);
      if a.Advance? {
        StatementLeavesKilled(s, s.threads[a.t], a.ok, a.newId, c);
      }
    }
  }

  /** Step k is the lookup of a kill by thread t under cid. */
  ghost predicate KillLooksUp(trace: seq<State>, actions: seq<Action>, k: nat, t: Tid, cid: ContainerId)
    requires |trace| == |actions| + 1 && k < |actions|
  {
    Moves(trace, actions, k, t) && trace[k].threads[t] == Kill(KLookup(cid))
  }

  /** A kill whose id names nothing returns at once and touches no child. */
  lemma KillOfNothing(trace: seq<State>, actions: seq<Action>, k: nat, t: Tid, cid: ContainerId)
    requires IsRun(trace, actions) && k < |actions| && KillLooksUp(trace, actions, k, t, cid)
    ensures trace[k + 1].children == trace[k].children && trace[k + 1].runs == trace[k].runs
    ensures t in trace[k + 1].threads
    ensures if cid in trace[k].runs then !trace[k + 1].threads[t].Returned?
            else trace[k + 1].threads[t] == Returned(Empty)
  {
    assert StepAt(trace, actions, k);
  }

  /** The signal itself: exactly the looked-up process is signalled, and nothing else about any changes. */
  lemma SignalStep(trace: seq<State>, actions: seq<Action>, k: nat, t: Tid, c: ChildId)
    requires IsRun(trace, actions) && k < |actions| && Moves(trace, actions, k, t)
    requires trace[k].threads[t] == Kill(KSignal(c))
    ensures c in trace[k].children
    ensures trace[k + 1].children == trace[k].children[c := trace[k].children[c].(killed := true)]
    ensures t in trace[k + 1].threads && trace[k + 1].threads[t] == Returned(Empty)
  {
    assert StepAt(trace, actions, k);
  }

  /** A kill that found c registered has, once it returned, signalled c. */
  lemma {:induction false} KillSignals(
    trace: seq<State>, actions: seq<Action>, k: nat, n: nat, t: Tid, cid: ContainerId, c: ChildId
  )
    requires IsRun(trace, actions) && k < n < |trace|
    requires KillLooksUp(trace, actions, k, t, cid) && Registered(trace[k], cid, c)
    ensures t in trace[n].threads
    ensures trace[n].threads[t] == Kill(KSignal(c))
            || (trace[n].threads[t] == Returned(Empty) && c in trace[n].children && trace[n].children[c].killed)
    decreases n
  {
    if k + 1 == n {
      ThreadStep(trace, actions, k, t);
    } else {
      KillSignals(trace, actions, k, n - 1, t, cid, c);
      ThreadStep(trace, actions, n - 1, t);
      if trace[n - 1].threads[t] == Kill(KSignal(c)) {
        if Moves(trace, actions, n - 1, t) {
          SignalStep(trace, actions, n - 1, t, c);
        }
      } else {
        KilledStays(trace, actions, n - 1, n, c);
      }
    }
  }

  lemma {:induction false} KillLooksUpBeforeItReturns(
    trace: seq<State>, actions: seq<Action>, i: nat, n: nat, t: Tid, cid: ContainerId
  ) returns (k: nat)
    requires IsRun(trace, actions) && i <= n < |trace|
    requires t in trace[i].threads && trace[i].threads[t] == Kill(KLookup(cid))
    requires t in trace[n].threads && trace[n].threads[t] != Kill(KLookup(cid))
    ensures i <= k < n && KillLooksUp(trace, actions, k, t, cid)
    decreases n
  {
    ThreadsStay(trace, actions, i, n - 1, t);
    ThreadStep(trace, actions, n - 1, t);
    if trace[n - 1].threads[t] == Kill(KLookup(cid)) {
      k := n - 1;
    } else {
      k := KillLooksUpBeforeItReturns(trace, actions, i, n - 1, t, cid);
    }
  }

  lemma {:induction false} ThreadsStay(trace: seq<State>, actions: seq<Action>, i: nat, n: nat, t: Tid)
    requires IsRun(trace, actions) && i <= n < |trace| && t in trace[i].threads
    ensures t in trace[n].threads
    decreases n
  {
    if i < n {
      ThreadsStay(trace, actions, i, n - 1, t);
      ThreadStep(trace, actions, n - 1, t);
    }
  }

  /**
  Every kill that returned looked its id up once. If the id named a process
  then, that process has been signalled; if it named none, the kill changed no
  process and answered the same.
  */
  lemma KillKills(trace: seq<State>, actions: seq<Action>, i: nat, n: nat, t: Tid, cid: ContainerId) returns (k: nat)
    requires IsRun(trace, actions) && i < n < |trace|
    requires t in trace[i].threads && trace[i].threads[t] == Kill(KLookup(cid))
    requires t in trace[n].threads && trace[n].threads[t].Returned?
    ensures i <= k < n && KillLooksUp(trace, actions, k, t, cid) && trace[n].threads[t] == Returned(Empty)
    ensures cid in trace[k].runs ==>
              var c := trace[k].runs[cid]; c in trace[n].children && trace[n].children[c].killed
    ensures cid !in trace[k].runs ==>
              && trace[k + 1].children == trace[k].children
              && t in trace[k + 1].threads && trace[k + 1].threads[t] == Returned(Empty)
  {
    k := KillLooksUpBeforeItReturns(trace, actions, i, n, t, cid);
    KillOfNothing(trace, actions, k, t, cid);
    if cid in trace[k].runs {
      KillSignals(trace, actions, k, n, t, cid, trace[k].runs[cid]);
    } else {
      ReturnedStays(trace, actions, k + 1, n, t);
    }
  }

  lemma {:induction false} ReturnedStays(trace: seq<State>, actions: seq<Action>, i: nat, n: nat, t: Tid)
    requires IsRun(trace, actions) && i <= n < |trace| && t in trace[i].threads && trace[i].threads[t].Returned?
    ensures t in trace[n].threads && trace[n].threads[t] == trace[i].threads[t]
    decreases n
  {
    if i < n {
      ReturnedStays(trace, actions, i, n - 1, t);
      ThreadStep(trace, actions, n - 1, t);
    }
  }

  /**
  Kill and drain of one entry: a kill that found c and returned, a wait that
  found c and reported its exit, and no launch under the id since the wait's
  lookup. Then c was signalled and reaped, and the id is free.
  */
  lemma KilledAndDrained(
    trace: seq<State>, actions: seq<Action>, h: nat, i: nat, n: nat, u: Tid, t: Tid, cid: ContainerId, c: ChildId
  )
    requires IsRun(trace, actions) && h < i < n < |trace|
    requires KillLooksUp(trace, actions, h, u, cid) && Registered(trace[h], cid, c)
    requires u in trace[i].threads && trace[i].threads[u].Returned?
    requires LooksUp(trace, i, t, cid, c)
    requires t in trace[n].threads && trace[n].threads[t].Returned? && BoundTo(trace[n].threads[t]) == Some((cid, c))
    requires forall k :: i <= k < n ==> !Registers(trace[k], actions[k], cid)
    ensures c in trace[n].children && trace[n].children[c].killed && trace[n].children[c].reaped
    ensures cid !in trace[n].runs
  {
    KillSignals(trace, actions, h, i, u, cid, c);
    KilledStays(trace, actions, i, n, c);
    DrainFreesTheId(trace, actions, i, n, t, cid, c);
    RunsRecord(trace, actions, n);
    assert Refers(trace[n].children, trace[n].threads[t]);
  }

  // ------------------------------------------------------------------
  // Wait
  // ------------------------------------------------------------------

  /** The thread is a wait under cid, or one that returned. */
  predicate WaitOrReturned(th: Thread, cid: ContainerId) {
    (th.Wait? && th.cid == cid) || (th.Returned? && !th.reply.Empty?)
  }

  lemma {:induction false} StaysAWait(trace: seq<State>, actions: seq<Action>, i: nat, n: nat, t: Tid, cid: ContainerId)
    requires IsRun(trace, actions) && i <= n < |trace|
    requires t in trace[i].threads && trace[i].threads[t] == Wait(cid, WLookup)
    ensures t in trace[n].threads && WaitOrReturned(trace[n].threads[t], cid)
    decreases n
  {
    if i < n {
      StaysAWait(trace, actions, i, n - 1, t, cid);
      ThreadStep(trace, actions, n - 1, t);
    }
  }

  /** Step k refuses a wait: its id names nothing at the lookup, or its context ends before done is closed. */
  ghost predicate RefusesWait(trace: seq<State>, actions: seq<Action>, k: nat, t: Tid, cid: ContainerId)
    requires |trace| == |actions| + 1 && k < |actions|
  {
    && Moves(trace, actions, k, t) && trace[k].threads[t].Wait?
    && ((trace[k].threads[t].wait.WLookup? && cid !in trace[k].runs) || (trace[k].threads[t].wait.WSelect? && trace[k].closed))
  }

  /** A wait is refused for no other reason: one whose id names an entry gets that entry's exit, or the broker closed. */
  lemma {:induction false} WaitRefusedOnlyBy(
    trace: seq<State>, actions: seq<Action>, i: nat, n: nat, t: Tid, cid: ContainerId
  ) returns (k: nat)
    requires IsRun(trace, actions) && i < n < |trace|
    requires t in trace[i].threads && trace[i].threads[t] == Wait(cid, WLookup)
    requires t in trace[n].threads && trace[n].threads[t] == Returned(Refused)
    ensures i <= k < n && RefusesWait(trace, actions, k, t, cid)
    decreases n
  {
    StaysAWait(trace, actions, i, n - 1, t, cid);
    ThreadStep(trace, actions, n - 1, t);
    if trace[n - 1].threads[t].Returned? {
      k := WaitRefusedOnlyBy(trace, actions, i, n - 1, t, cid);
    } else {
      k := n - 1;
    }
  }

  // ------------------------------------------------------------------
  // Launch
  // ------------------------------------------------------------------

  datatype Phase = Rising | Failing | Up(child: ChildId) | Elsewhere

  /** How far a launch of a jail has come: before its registration, failing, or registered. */
  function LaunchPhase(th: Thread, cid: ContainerId): Phase {
    match th
    case Launch(id, pc) =>
      if id != cid then Elsewhere
      else
        (match pc
         case LSpawn(_, c) => Up(c)
         case LUnbundle(_) => Failing
         case LDeferred(_, ok) => if ok then Up(0) else Failing
         case _ => Rising)
    case Returned(Empty) => Up(0)
    case Returned(Refused) => Failing
    case _ => Elsewhere
  }

  /** A stage of t's call failed at step k. */
  ghost predicate StageFails(trace: seq<State>, actions: seq<Action>, k: nat, t: Tid)
    requires |trace| == |actions| + 1 && k < |actions|
  {
    Moves(trace, actions, k, t) && !actions[k].ok
  }

  /** At step k thread t, launching under cid, registers a jail it started. */
  ghost predicate RegistersJail(trace: seq<State>, actions: seq<Action>, k: nat, t: Tid, cid: ContainerId)
    requires |trace| == |actions| + 1 && k < |actions|
  {
    && Moves(trace, actions, k, t) && trace[k].threads[t].Launch? && trace[k].threads[t].launch.LRegister?
    && var c := trace[k].threads[t].launch.child;
    && Registered(trace[k + 1], cid, c) && c in trace[k].children && trace[k].children[c].jailed
    && trace[k].children[c].cid == cid
  }

  lemma LaunchPhaseStep(s: State, th: Thread, ok: bool, newId: nat, cid: ContainerId)
    requires CanAdvance(s, th, ok, newId) && !LaunchPhase(th, cid).Elsewhere?
    ensures var next := LaunchPhase(Statement(s, th, ok, newId).next, cid);
            && !next.Elsewhere?
            && (LaunchPhase(th, cid).Rising? && !th.launch.LRegister? ==> (next.Failing? <==> !ok))
            && (LaunchPhase(th, cid).Rising? && next.Failing? ==> !ok)
            && (LaunchPhase(th, cid).Rising? && next.Up? ==>
                  th.launch.LRegister? && Statement(s, th, ok, newId).registry == PutRun(cid, th.launch.child))
            && (LaunchPhase(th, cid).Failing? ==> next.Failing?)
            && (LaunchPhase(th, cid).Up? ==> next.Up?)
  {
  }

  lemma {:induction false} StaysALaunch(trace: seq<State>, actions: seq<Action>, i: nat, n: nat, t: Tid, cid: ContainerId)
    requires IsRun(trace, actions) && i <= n < |trace|
    requires t in trace[i].threads && trace[i].threads[t] == Launch(cid, LValidate)
    ensures t in trace[n].threads && !LaunchPhase(trace[n].threads[t], cid).Elsewhere?
    decreases n
  {
    if i < n {
      StaysALaunch(trace, actions, i, n - 1, t, cid);
      ThreadStep(trace, actions, n - 1, t);
      if Moves(trace, actions, n - 1, t) {
        LaunchPhaseStep(trace[n - 1], trace[n - 1].threads[t], actions[n - 1].ok, actions[n - 1].newId, cid);
      }
    }
  }

  /** Once past its registration, a launch did register the jail it started under its id. */
  lemma {:induction false} LaunchRegistered(
    trace: seq<State>, actions: seq<Action>, i: nat, n: nat, t: Tid, cid: ContainerId
  ) returns (k: nat)
    requires IsRun(trace, actions) && i < n < |trace|
    requires t in trace[i].threads && trace[i].threads[t] == Launch(cid, LValidate)
    requires t in trace[n].threads && LaunchPhase(trace[n].threads[t], cid).Up?
    ensures i <= k < n && RegistersJail(trace, actions, k, t, cid)
    decreases n
  {
    StaysALaunch(trace, actions, i, n - 1, t, cid);
    ThreadStep(trace, actions, n - 1, t);
    var s, th := trace[n - 1], trace[n - 1].threads[t];
    if Moves(trace, actions, n - 1, t) {
      LaunchPhaseStep(s, th, actions[n - 1].ok, actions[n - 1].newId, cid);
    }
    if LaunchPhase(th, cid).Up? {
      k := LaunchRegistered(trace, actions, i, n - 1, t, cid);
    } else {
      k := n - 1;
      assert StepAt(trace, actions, k);
      RunsRecord(trace, actions, k);
      assert Keeping(s.children, th);
    }
  }

  lemma {:induction false} LaunchFailed(
    trace: seq<State>, actions: seq<Action>, i: nat, n: nat, t: Tid, cid: ContainerId
  ) returns (k: nat)
    requires IsRun(trace, actions) && i < n < |trace|
    requires t in trace[i].threads && trace[i].threads[t] == Launch(cid, LValidate)
    requires t in trace[n].threads && LaunchPhase(trace[n].threads[t], cid).Failing?
    ensures i <= k < n && StageFails(trace, actions, k, t)
    decreases n
  {
    StaysALaunch(trace, actions, i, n - 1, t, cid);
    ThreadStep(trace, actions, n - 1, t);
    var th := trace[n - 1].threads[t];
    if Moves(trace, actions, n - 1, t) {
      LaunchPhaseStep(trace[n - 1], th, actions[n - 1].ok, actions[n - 1].newId, cid);
    }
    if LaunchPhase(th, cid).Failing? {
      k := LaunchFailed(trace, actions, i, n - 1, t, cid);
    } else {
      k := n - 1;
    }
  }

  /** Registered or failing, a launch stays what it is. */
  lemma {:induction false} LaunchSettled(trace: seq<State>, actions: seq<Action>, k: nat, n: nat, t: Tid, cid: ContainerId)
    requires IsRun(trace, actions) && k <= n < |trace| && t in trace[k].threads
    requires LaunchPhase(trace[k].threads[t], cid).Up? || LaunchPhase(trace[k].threads[t], cid).Failing?
    ensures t in trace[n].threads
    ensures LaunchPhase(trace[n].threads[t], cid).Up? <==> LaunchPhase(trace[k].threads[t], cid).Up?
    ensures LaunchPhase(trace[n].threads[t], cid).Failing? <==> LaunchPhase(trace[k].threads[t], cid).Failing?
    decreases n
  {
    if k < n {
      LaunchSettled(trace, actions, k, n - 1, t, cid);
      ThreadStep(trace, actions, n - 1, t);
      if Moves(trace, actions, n - 1, t) {
        LaunchPhaseStep(trace[n - 1], trace[n - 1].threads[t], actions[n - 1].ok, actions[n - 1].newId, cid);
      }
    }
  }

  /** The stages of a launch that can fail: all up to the registration. */
  predicate Fallible(th: Thread) {
    th.Launch? && (th.launch.LValidate? || th.launch.LQueue? || th.launch.LArm? || th.launch.LPrepare?
                   || th.launch.LDial? || th.launch.LExec?)
  }

  /** A launch one of whose stages failed is refused, and registers nothing after. */
  lemma FailedStageRefuses(trace: seq<State>, actions: seq<Action>, k: nat, n: nat, t: Tid)
    requires IsRun(trace, actions) && k < n < |trace| && StageFails(trace, actions, k, t)
    requires Fallible(trace[k].threads[t])
    ensures t in trace[n].threads && (trace[n].threads[t].Returned? ==> trace[n].threads[t] == Returned(Refused))
    ensures n < |actions| ==> !RegistersJail(trace, actions, n, t, trace[k].threads[t].cid)
  {
    var th := trace[k].threads[t];
    ThreadStep(trace, actions, k, t);
    LaunchPhaseStep(trace[k], th, false, actions[k].newId, th.cid);
    LaunchSettled(trace, actions, k + 1, n, t, th.cid);
  }

  /** A launch that returned answered well and had registered its jail, or was refused because a stage failed. */
  lemma LaunchComesTo(trace: seq<State>, actions: seq<Action>, i: nat, n: nat, t: Tid, cid: ContainerId) returns (k: nat)
    requires IsRun(trace, actions) && i < n < |trace|
    requires t in trace[i].threads && trace[i].threads[t] == Launch(cid, LValidate)
    requires t in trace[n].threads && trace[n].threads[t].Returned?
    ensures i <= k < n
    ensures trace[n].threads[t].reply == Empty || trace[n].threads[t].reply == Refused
    ensures trace[n].threads[t].reply == Empty ==> RegistersJail(trace, actions, k, t, cid)
    ensures trace[n].threads[t].reply == Refused ==> StageFails(trace, actions, k, t)
  {
    StaysALaunch(trace, actions, i, n, t, cid);
    if trace[n].threads[t].reply.Empty? {
      k := LaunchRegistered(trace, actions, i, n, t, cid);
    } else {
      k := LaunchFailed(trace, actions, i, n, t, cid);
    }
  }

  // ------------------------------------------------------------------
  // Sidecar launch
  // ------------------------------------------------------------------

  function SidecarPhase(th: Thread, cid: ContainerId): Phase {
    match th
    case Sidecar(id, pc) =>
      if id != cid then Elsewhere
      else
        (match pc
         case XSpawn(c) => Up(c)
         case XKill(_) => Failing
         case XReap(_) => Failing
         case _ => Rising)
    case Returned(Empty) => Up(0)
    case Returned(Refused) => Failing
    case _ => Elsewhere
  }

  /** Step k finds the id taken: at the first check, or at the insertion. */
  ghost predicate FindsTaken(trace: seq<State>, actions: seq<Action>, k: nat, t: Tid, cid: ContainerId)
    requires |trace| == |actions| + 1 && k < |actions|
  {
    Moves(trace, actions, k, t) && cid in trace[k].runs && trace[k + 1].runs == trace[k].runs
  }

  /** At step k thread t registers the sidecar it started, under an id that was free. */
  ghost predicate RegistersSidecar(trace: seq<State>, actions: seq<Action>, k: nat, t: Tid, cid: ContainerId)
    requires |trace| == |actions| + 1 && k < |actions|
  {
    && Moves(trace, actions, k, t) && trace[k].threads[t].Sidecar? && trace[k].threads[t].sidecar.XInsert?
    && var c := trace[k].threads[t].sidecar.child;
    && cid !in trace[k].runs && Registered(trace[k + 1], cid, c)
    && c in trace[k].children && !trace[k].children[c].jailed && trace[k].children[c].cid == cid
  }

  lemma SidecarPhaseStep(s: State, th: Thread, ok: bool, newId: nat, cid: ContainerId)
    requires CanAdvance(s, th, ok, newId) && !SidecarPhase(th, cid).Elsewhere?
    ensures var e := Statement(s, th, ok, newId);
            var next := SidecarPhase(e.next, cid);
            && !next.Elsewhere?
            && (SidecarPhase(th, cid).Rising? && (th.sidecar.XCheck? || th.sidecar.XInsert?) ==>
                  (next.Failing? <==> cid in s.runs) && (cid in s.runs ==> e.registry.KeepRuns?))
            && (SidecarPhase(th, cid).Rising? && !th.sidecar.XCheck? && !th.sidecar.XInsert? ==> (next.Failing? <==> !ok))
            && (SidecarPhase(th, cid).Rising? && next.Up? ==>
                  th.sidecar.XInsert? && cid !in s.runs && e.registry == PutRun(cid, th.sidecar.child))
            && (SidecarPhase(th, cid).Failing? ==> next.Failing?)
            && (SidecarPhase(th, cid).Up? ==> next.Up?)
  {
  }

  lemma {:induction false} SidecarSettled(trace: seq<State>, actions: seq<Action>, k: nat, n: nat, t: Tid, cid: ContainerId)
    requires IsRun(trace, actions) && k <= n < |trace| && t in trace[k].threads
    requires SidecarPhase(trace[k].threads[t], cid).Failing?
    ensures t in trace[n].threads && SidecarPhase(trace[n].threads[t], cid).Failing?
    decreases n
  {
    if k < n {
      SidecarSettled(trace, actions, k, n - 1, t, cid);
      ThreadStep(trace, actions, n - 1, t);
      if Moves(trace, actions, n - 1, t) {
        SidecarPhaseStep(trace[n - 1], trace[n - 1].threads[t], actions[n - 1].ok, actions[n - 1].newId, cid);
      }
    }
  }

  /** A sidecar launch that finds its id taken, at either check, or fails a stage, is refused. */
  lemma TakenIdRefuses(trace: seq<State>, actions: seq<Action>, k: nat, n: nat, t: Tid, cid: ContainerId)
    requires IsRun(trace, actions) && k < n < |trace| && Moves(trace, actions, k, t)
    requires trace[k].threads[t].Sidecar? && trace[k].threads[t].cid == cid
    requires var pc := trace[k].threads[t].sidecar;
             || ((pc.XCheck? || pc.XInsert?) && cid in trace[k].runs)
             || ((pc.XValidate? || pc.XDial? || pc.XExec?) && !actions[k].ok)
    ensures t in trace[n].threads && (trace[n].threads[t].Returned? ==> trace[n].threads[t] == Returned(Refused))
  {
    ThreadStep(trace, actions, k, t);
    SidecarPhaseStep(trace[k], trace[k].threads[t], actions[k].ok, actions[k].newId, cid);
    SidecarSettled(trace, actions, k + 1, n, t, cid);
  }

  /** How a sidecar launch stands at n: still rising, or with the step that made it fail or register. */
  lemma {:induction false} SidecarStands(
    trace: seq<State>, actions: seq<Action>, i: nat, n: nat, t: Tid, cid: ContainerId
  ) returns (k: nat)
    requires IsRun(trace, actions) && i <= n < |trace|
    requires t in trace[i].threads && trace[i].threads[t] == Sidecar(cid, XValidate)
    ensures t in trace[n].threads && !SidecarPhase(trace[n].threads[t], cid).Elsewhere?
    ensures !SidecarPhase(trace[n].threads[t], cid).Rising? ==> i <= k < n
    ensures SidecarPhase(trace[n].threads[t], cid).Up? ==> RegistersSidecar(trace, actions, k, t, cid)
    ensures SidecarPhase(trace[n].threads[t], cid).Failing? ==>
              StageFails(trace, actions, k, t) || FindsTaken(trace, actions, k, t, cid)
    decreases n
  {
    k := i;
    if i < n {
      k := SidecarStands(trace, actions, i, n - 1, t, cid);
      ThreadStep(trace, actions, n - 1, t);
      var s, th := trace[n - 1], trace[n - 1].threads[t];
      if Moves(trace, actions, n - 1, t) {
        SidecarPhaseStep(s, th, actions[n - 1].ok, actions[n - 1].newId, cid);
        if SidecarPhase(th, cid).Rising? {
          k := n - 1;
          assert StepAt(trace, actions, k);
          RunsRecord(trace, actions, k);
          assert Keeping(s.children, th);
        }
      }
    }
  }

  /**
  A sidecar launch that returned answered well and had registered its process
  under a free id, or was refused because a stage failed or the id was taken.
  */
  lemma SidecarComesTo(trace: seq<State>, actions: seq<Action>, i: nat, n: nat, t: Tid, cid: ContainerId) returns (k: nat)
    requires IsRun(trace, actions) && i < n < |trace|
    requires t in trace[i].threads && trace[i].threads[t] == Sidecar(cid, XValidate)
    requires t in trace[n].threads && trace[n].threads[t].Returned?
    ensures i <= k < n
    ensures trace[n].threads[t].reply == Empty || trace[n].threads[t].reply == Refused
    ensures trace[n].threads[t].reply == Empty ==> RegistersSidecar(trace, actions, k, t, cid)
    ensures trace[n].threads[t].reply == Refused ==>
              StageFails(trace, actions, k, t) || FindsTaken(trace, actions, k, t, cid)
  {
    k := SidecarStands(trace, actions, i, n, t, cid);
  }

  // ------------------------------------------------------------------
  // Capture
  // ------------------------------------------------------------------

  /** A capture that fails validation, or gets no slot, is refused at once and takes none. */
  lemma CaptureRefused(trace: seq<State>, actions: seq<Action>, k: nat, t: Tid)
    requires IsRun(trace, actions) && k < |actions| && StageFails(trace, actions, k, t)
    requires trace[k].threads[t] == Capture(CValidate) || trace[k].threads[t] == Capture(CQueue)
    ensures t in trace[k + 1].threads && trace[k + 1].threads[t] == Returned(Refused) && trace[k + 1].sem == trace[k].sem
  {
    ThreadStep(trace, actions, k, t);
    assert StepAt(trace, actions, k);
  }

  /** A capture that returned answered well and had held a slot, or was refused because a stage failed. */
  lemma {:induction false} CaptureComesTo(trace: seq<State>, actions: seq<Action>, i: nat, n: nat, t: Tid) returns (k: nat)
    requires IsRun(trace, actions) && i <= n < |trace|
    requires t in trace[i].threads && trace[i].threads[t] == Capture(CValidate)
    ensures t in trace[n].threads
    ensures trace[n].threads[t].Capture? || trace[n].threads[t] == Returned(Empty) || trace[n].threads[t] == Returned(Refused)
    ensures trace[n].threads[t] == Returned(Refused) ==> i <= k < n && StageFails(trace, actions, k, t)
    ensures trace[n].threads[t] == Returned(Empty) || trace[n].threads[t] == Capture(CRun) || trace[n].threads[t] == Capture(CDeferred)
            ==> i <= k < n && Moves(trace, actions, k, t) && trace[k + 1].sem.used == trace[k].sem.used + 1
    decreases n
  {
    k := i;
    if i < n {
      k := CaptureComesTo(trace, actions, i, n - 1, t);
      ThreadStep(trace, actions, n - 1, t);
      if Moves(trace, actions, n - 1, t) {
        var th := trace[n - 1].threads[t];
        if th == Capture(CValidate) || th == Capture(CQueue) {
          k := n - 1;
          assert StepAt(trace, actions, k);
        }
      }
    }
  }
}
