/**
No live sidecar is stranded (cmd/capbroker/sidecarlaunch_linux.go:93-165).

The registry is shared with jails, whose launch validation does not refuse an
id that carries the sidecar suffix; coverage therefore holds exactly as long
as no LaunchRun registers over a live sidecar's entry.
*/
module BrokerSidecars {
  import opened Wrappers
  import opened BrokerRegistry
  import opened BrokerProtocol
  import opened BrokerRecords
  import opened BrokerReachability

  /** The process a launching call still has in hand, unregistered. */
  function InHand(th: Thread): Option<ChildId> {
    match th
    case Sidecar(_, XInsert(c)) => Some(c)
    case Sidecar(_, XKill(c)) => Some(c)
    case Sidecar(_, XReap(c)) => Some(c)
    case _ => None
  }

  /** A process that was never registered: in hand, or left to a reaper. */
  function Unregistered(th: Thread): Option<ChildId> {
    if th.ReapLoser? then Some(th.child) else InHand(th)
  }

  /** A supervisor waits for the process, or is about to be started. */
  predicate SupervisedBy(th: Thread, c: ChildId) {
    (th.Sidecar? && th.sidecar == XSpawn(c)) || th == SuperviseSide(c, AwaitSide)
  }

  /** A thread accounts for sidecar c. */
  predicate Minds(s: State, th: Thread, c: ChildId)
    requires c in s.children
  {
    || InHand(th) == Some(c)
    || (SupervisedBy(th, c) && Registered(s, s.children[c].cid, c))
    || (th == ReapLoser(c) && s.children[c].killed)
  }

  predicate LiveSidecar(s: State, c: ChildId) {
    c in s.children && !s.children[c].jailed && !s.children[c].reaped
  }

  ghost predicate Minded(s: State, c: ChildId)
    requires c in s.children
  {
    exists t :: t in s.threads && Minds(s, s.threads[t], c)
  }

  /**
  Every sidecar process not yet reaped is held by its launching call,
  registered under its id, or killed with a reaper waiting on it.
  */
  ghost predicate Covered(s: State) {
    forall c :: LiveSidecar(s, c) ==> Minded(s, c)
  }

  /** This step registers a jail over the entry of a live sidecar. */
  predicate Strands(s: State, a: Action) {
    && a.Advance? && a.t in s.threads
    && s.threads[a.t].Launch? && s.threads[a.t].launch.LRegister?
    && s.threads[a.t].cid in s.runs && LiveSidecar(s, s.runs[s.threads[a.t].cid])
  }

  // ------------------------------------------------------------------
  // Supporting invariants
  // ------------------------------------------------------------------

  /** A process in a launching call's hands exists and no entry names it. */
  predicate HeldApart(s: State, th: Thread) {
    Unregistered(th).Some? ==>
      var c := Unregistered(th).value; c in s.children && !Registered(s, s.children[c].cid, c)
  }

  /** A losing launch has signalled its process; a process still in a launching call's hands is not registered. */
  predicate LoserConsistent(s: State, th: Thread) {
    && HeldApart(s, th)
    && (th.Sidecar? && th.sidecar.XReap? ==> s.children[th.sidecar.child].killed)
    && (th.ReapLoser? ==> s.children[th.child].killed)
    && (th.Sidecar? && !th.sidecar.XValidate? ==> IsSidecarId(th.cid))
  }

  ghost predicate Sound(s: State) {
    Kept(s) && Referenced(s) && Apart(s)
  }

  ghost predicate Apart(s: State) {
    && (forall t :: t in s.threads ==> LoserConsistent(s, s.threads[t]))
    && (forall c :: c in s.children && !s.children[c].jailed ==> IsSidecarId(s.children[c].cid))
  }

  /** What a statement does to the processes no entry names. */
  predicate LoserEffect(s: State, th: Thread, e: Effect, newId: nat) {
    var c := Target(th, newId);
    && (e.next.Sidecar? && !e.next.sidecar.XValidate? ==> IsSidecarId(e.next.cid))
    && (Unregistered(e.next).Some? ==> e.registry.KeepRuns? && (Unregistered(e.next) == Unregistered(th) || (Unregistered(e.next) == Some(c) && c !in s.children)))
    && (e.spawned.Some? && Unregistered(e.spawned.value).Some? ==> e.spawned.value.ReapLoser? && th.Sidecar? && th.sidecar == XReap(e.spawned.value.child))
    && (e.spawned.Some? ==> !e.spawned.value.Sidecar? && e.registry.KeepRuns?)
    && !e.next.ReapLoser?
    && (e.next.Sidecar? && e.next.sidecar.XReap? ==> c == e.next.sidecar.child && e.stored.Some? && e.stored.value.killed)
    && (e.registry.PutRun? ==> Keeps(th) == Some(e.registry.child))
    && (e.stored.Some? && c !in s.children ==> e.stored.value.jailed || IsSidecarId(e.stored.value.cid))
    && (e.stored.Some? && c in s.children && s.children[c].killed ==> e.stored.value.killed)
  }

  lemma SidecarLoserEffect(s: State, cid: ContainerId, pc: SidecarPc, ok: bool, newId: nat)
    requires CanLaunchSidecar(s, cid, pc, ok, newId) && LoserConsistent(s, Sidecar(cid, pc))
    ensures LoserEffect(s, Sidecar(cid, pc), LaunchSidecar(s, cid, pc, ok, newId), newId)
  {
  }

  lemma LaunchLoserEffect(s: State, cid: ContainerId, pc: LaunchPc, ok: bool, newId: nat)
    requires CanLaunch(s, pc, ok, newId)
    ensures LoserEffect(s, Launch(cid, pc), LaunchRun(cid, pc, ok, newId), newId)
  {
  }

  lemma StatementLoserEffect(s: State, th: Thread, ok: bool, newId: nat)
    requires CanAdvance(s, th, ok, newId) && LoserConsistent(s, th)
    ensures LoserEffect(s, th, Statement(s, th, ok, newId), newId)
  {
    match th
    case Launch(cid, pc) => LaunchLoserEffect(s, cid, pc, ok, newId);
    case Sidecar(cid, pc) => SidecarLoserEffect(s, cid, pc, ok, newId);
    case _ =>
  }

  lemma OtherHeldApart(s: State, t: Tid, e: Effect, newId: nat, u: Tid)
    requires Sound(s) && t in s.threads && u in s.threads && u != t
    requires LoserEffect(s, s.threads[t], e, newId) && Disciplined(s.children, s.threads[t], e, newId)
    ensures HeldApart(Perform(s, t, e, newId), s.threads[u])
  {
    assert LoserConsistent(s, s.threads[u]);
    if Unregistered(s.threads[u]).Some? {
      assert Keeps(s.threads[u]) == Unregistered(s.threads[u]);
      assert Keeps(s.threads[t]) != Keeps(s.threads[u]);
    }
  }

  /** A process another thread has in hand, or reaps, stays unregistered and signalled. */
  lemma OtherLoserStays(s: State, t: Tid, e: Effect, newId: nat, u: Tid)
    requires Sound(s) && t in s.threads && u in s.threads && u != t
    requires LoserEffect(s, s.threads[t], e, newId) && Disciplined(s.children, s.threads[t], e, newId)
    ensures LoserConsistent(Perform(s, t, e, newId), s.threads[u])
  {
    assert LoserConsistent(s, s.threads[u]);
    OtherHeldApart(s, t, e, newId, u);
  }

  /** So do the process of the thread that ran and of the one it started. */
  lemma OwnLoserStays(s: State, t: Tid, e: Effect, newId: nat)
    requires Sound(s) && t in s.threads
    requires LoserEffect(s, s.threads[t], e, newId) && Disciplined(s.children, s.threads[t], e, newId)
    ensures LoserConsistent(Perform(s, t, e, newId), e.next)
    ensures e.spawned.Some? ==> LoserConsistent(Perform(s, t, e, newId), e.spawned.value)
  {
    assert LoserConsistent(s, s.threads[t]);
  }

  lemma EffectStaysSound(s: State, t: Tid, e: Effect, newId: nat)
    requires Sound(s) && t in s.threads
    requires LoserEffect(s, s.threads[t], e, newId) && Disciplined(s.children, s.threads[t], e, newId)
    ensures var s' := Perform(s, t, e, newId); forall u :: u in s'.threads ==> LoserConsistent(s', s'.threads[u])
    ensures var after := Perform(s, t, e, newId).children; forall c :: c in after && !after[c].jailed ==> IsSidecarId(after[c].cid)
  {
    var s' := Perform(s, t, e, newId);
    OwnLoserStays(s, t, e, newId);
    forall u | u in s'.threads
      ensures LoserConsistent(s', s'.threads[u])
    {
      if u in s.threads && u != t {
        OtherLoserStays(s, t, e, newId, u);
      }
    }
  }

  lemma ApartByStatement(s: State, t: Tid, ok: bool, newId: nat)
    requires Sound(s) && Enabled(s, Advance(t, ok, newId))
    ensures Apart(Apply(s, Advance(t, ok, newId)))
  {
    assert Keeping(s.children, s.threads[t]);
    assert LoserConsistent(s, s.threads[t]);
    StatementLoserEffect(s, s.threads[t], ok, newId);
    StatementDisciplined(s, s.threads[t], ok, newId);
    EffectStaysSound(s, t, Statement(s, s.threads[t], ok, newId), newId);
  }

  lemma ApartByRest(s: State, a: Action)
    requires Apart(s) && Enabled(s, a) && !a.Advance?
    ensures Apart(Apply(s, a))
  {
    var s' := Apply(s, a);
    forall t | t in s'.threads
      ensures LoserConsistent(s', s'.threads[t])
    {
      if t in s.threads {
        assert LoserConsistent(s, s.threads[t]);
      }
    }
  }

  lemma SoundByStep(s: State, a: Action)
    requires Sound(s) && Enabled(s, a)
    ensures Sound(Apply(s, a))
  {
    KeptByStep(s, a);
    ReferencedByStep(s, a);
    if a.Advance? {
      ApartByStatement(s, a.t, a.ok, a.newId);
    } else {
      ApartByRest(s, a);
    }
  }

  // ------------------------------------------------------------------
  // Coverage
  // ------------------------------------------------------------------

  /** How a statement passes on the sidecar c its thread accounted for. */
  predicate PassesOn(s: State, th: Thread, e: Effect, newId: nat, c: ChildId)
    requires c in s.children
  {
    || (e.stored.Some? && Target(th, newId) == c && e.stored.value.reaped)
    || (e.registry.KeepRuns? && InHand(e.next) == Some(c))
    || (e.registry == PutRun(s.children[c].cid, c) && SupervisedBy(e.next, c))
    || (e.registry.KeepRuns? && SupervisedBy(th, c) && e.spawned == Some(SuperviseSide(c, AwaitSide)))
    || (e.registry.KeepRuns? && s.children[c].killed && e.stored.None? && e.spawned == Some(ReapLoser(c)))
  }

  lemma SidecarPassesOn(s: State, cid: ContainerId, pc: SidecarPc, ok: bool, newId: nat, c: ChildId)
    requires CanLaunchSidecar(s, cid, pc, ok, newId) && c in s.children
    requires LoserConsistent(s, Sidecar(cid, pc)) && Refers(s.children, Sidecar(cid, pc))
    requires InHand(Sidecar(cid, pc)) == Some(c) || SupervisedBy(Sidecar(cid, pc), c)
    ensures PassesOn(s, Sidecar(cid, pc), LaunchSidecar(s, cid, pc, ok, newId), newId, c)
  {
  }

  lemma StatementPassesOn(s: State, th: Thread, ok: bool, newId: nat, c: ChildId)
    requires CanAdvance(s, th, ok, newId) && c in s.children && LoserConsistent(s, th) && Refers(s.children, th)
    requires Minds(s, th, c)
    ensures PassesOn(s, th, Statement(s, th, ok, newId), newId, c)
  {
    if th.Sidecar? {
      SidecarPassesOn(s, th.cid, th.sidecar, ok, newId, c);
    }
  }

  lemma PassedOnStaysMinded(s: State, t: Tid, e: Effect, newId: nat, c: ChildId)
    requires t in s.threads && c in s.children && (e.spawned.Some? ==> newId !in s.threads)
    requires Disciplined(s.children, s.threads[t], e, newId)
    requires Minds(s, s.threads[t], c) && PassesOn(s, s.threads[t], e, newId, c)
    requires LiveSidecar(Perform(s, t, e, newId), c)
    ensures Minded(Perform(s, t, e, newId), c)
  {
    var s' := Perform(s, t, e, newId);
    assert s'.children[c].cid == s.children[c].cid;
    if e.spawned.Some? {
      assert newId in s'.threads && s'.threads[newId] == e.spawned.value;
    }
    assert t in s'.threads && s'.threads[t] == e.next;
  }

  /** A sidecar some other thread accounts for loses its account only when a jail is registered over it. */
  lemma OthersStayMinded(s: State, t: Tid, ok: bool, newId: nat, u: Tid, c: ChildId)
    requires Sound(s) && Enabled(s, Advance(t, ok, newId)) && u in s.threads && u != t
    requires LiveSidecar(s, c) && Minds(s, s.threads[u], c)
    requires !Strands(s, Advance(t, ok, newId))
    ensures Minded(Apply(s, Advance(t, ok, newId)), c)
  {
    var th := s.threads[t];
    assert LoserConsistent(s, th) && Refers(s.children, th) && Keeping(s.children, th);
    StatementWrites(s, th, ok, newId);
    StatementLoserEffect(s, th, ok, newId);
    StatementDisciplined(s, th, ok, newId);
    EffectKeepsOthersMinded(s, t, Statement(s, th, ok, newId), newId, u, c);
  }

  lemma EffectKeepsOthersMinded(s: State, t: Tid, e: Effect, newId: nat, u: Tid, c: ChildId)
    requires Sound(s) && t in s.threads && u in s.threads && u != t && (e.spawned.Some? ==> newId !in s.threads)
    requires LiveSidecar(s, c) && Minds(s, s.threads[u], c)
    requires LoserEffect(s, s.threads[t], e, newId) && Disciplined(s.children, s.threads[t], e, newId)
    requires e.registry.ForgetRun? ==> e.registry.child in s.children && s.children[e.registry.child].done
    requires e.registry.PutRun? && e.registry.cid in s.runs ==> !LiveSidecar(s, s.runs[e.registry.cid])
    ensures Minded(Perform(s, t, e, newId), c)
  {
    var s' := Perform(s, t, e, newId);
    assert s'.threads[u] == s.threads[u];
    assert s'.children[c].cid == s.children[c].cid;
    assert !s.children[c].done;
    assert Minds(s', s'.threads[u], c);
  }

  lemma CoveredByStatement(s: State, t: Tid, ok: bool, newId: nat)
    requires Sound(s) && Covered(s) && Enabled(s, Advance(t, ok, newId)) && !Strands(s, Advance(t, ok, newId))
    ensures Covered(Apply(s, Advance(t, ok, newId)))
  {
    var s' := Apply(s, Advance(t, ok, newId));
    var th := s.threads[t];
    var e := Statement(s, th, ok, newId);
    assert LoserConsistent(s, th) && Refers(s.children, th) && Keeping(s.children, th);
    StatementDisciplined(s, th, ok, newId);
    forall c | LiveSidecar(s', c)
      ensures Minded(s', c)
    {
      if c !in s.children {
        NewSidecarInHand(s, th, ok, newId);
        assert Minds(s', s'.threads[t], c);
      } else {
        ReapedStaysReaped(s, th, ok, newId, c);
        assert Minded(s, c);
        var u :| u in s.threads && Minds(s, s.threads[u], c);
        if u == t {
          StatementPassesOn(s, th, ok, newId, c);
          PassedOnStaysMinded(s, t, e, newId, c);
        } else {
          OthersStayMinded(s, t, ok, newId, u, c);
        }
      }
    }
  }

  lemma NewSidecarInHand(s: State, th: Thread, ok: bool, newId: nat)
    requires CanAdvance(s, th, ok, newId) && Target(th, newId) !in s.children
    ensures var e := Statement(s, th, ok, newId);
      e.stored.Some? && !e.stored.value.jailed ==> InHand(e.next) == Some(Target(th, newId))
  {
  }

  lemma ReapedStaysReaped(s: State, th: Thread, ok: bool, newId: nat, c: ChildId)
    requires CanAdvance(s, th, ok, newId) && c in s.children
    ensures var e := Statement(s, th, ok, newId);
      e.stored.Some? && Target(th, newId) == c ==> (s.children[c].reaped ==> e.stored.value.reaped) && e.stored.value.jailed == s.children[c].jailed
  {
  }

  lemma CoveredByOther(s: State, a: Action)
    requires Covered(s) && Enabled(s, a) && !a.Advance?
    ensures Covered(Apply(s, a))
  {
    var s' := Apply(s, a);
    forall c | LiveSidecar(s', c)
      ensures Minded(s', c)
    {
      assert LiveSidecar(s, c);
      var u :| u in s.threads && Minds(s, s.threads[u], c);
      assert Minds(s', s'.threads[u], c);
    }
  }

  /** The stranded sidecar: its supervisor still waits, but nothing names it any more. */
  lemma StrandingUncovers(s: State, a: Action)
    requires Sound(s) && Enabled(s, a) && Strands(s, a)
    ensures !Covered(Apply(s, a))
  {
    var s' := Apply(s, a);
    var cid := s.threads[a.t].cid;
    var c := s.runs[cid];
    var d := s.threads[a.t].launch.child;
    assert Keeping(s.children, s.threads[a.t]);
    assert c != d && s'.runs[cid] == d;
    assert LiveSidecar(s', c) && s'.children[c].cid == cid;
    forall u | u in s'.threads
      ensures !Minds(s', s'.threads[u], c)
    {
      if u != a.t {
        assert LoserConsistent(s, s.threads[u]);
      }
    }
    assert !Minded(s', c);
  }

  /** Exactly the steps that register a jail over a live sidecar's entry strand one. */
  lemma CoverageStep(s: State, a: Action)
    requires Sound(s) && Covered(s) && Enabled(s, a)
    ensures Covered(Apply(s, a)) <==> !Strands(s, a)
  {
    if Strands(s, a) {
      StrandingUncovers(s, a);
    } else if a.Advance? {
      CoveredByStatement(s, a.t, a.ok, a.newId);
    } else {
      CoveredByOther(s, a);
    }
  }

  // ------------------------------------------------------------------
  // Over whole runs
  // ------------------------------------------------------------------

  /** No LaunchRun names a sidecar's id: what the orchestrator's id scheme gives, and validation does not check. */
  ghost predicate RunIdsApart(actions: seq<Action>) {
    forall i :: 0 <= i < |actions| && actions[i].Arrive? && actions[i].call.Launch? ==> !IsSidecarId(actions[i].call.cid)
  }

  ghost predicate LaunchesApart(s: State) {
    forall t :: t in s.threads && s.threads[t].Launch? ==> !IsSidecarId(s.threads[t].cid)
  }

  lemma StatementKeepsLaunchId(s: State, th: Thread, ok: bool, newId: nat)
    requires CanAdvance(s, th, ok, newId)
    ensures var e := Statement(s, th, ok, newId);
      && (e.next.Launch? ==> th.Launch? && e.next.cid == th.cid)
      && (e.spawned.Some? ==> !e.spawned.value.Launch?)
  {
    match th
    case Launch(cid, pc) =>
    case Sidecar(cid, pc) =>
    case _ =>
  }

  lemma LaunchesApartByStep(s: State, a: Action)
    requires LaunchesApart(s) && Enabled(s, a)
    requires a.Arrive? && a.call.Launch? ==> !IsSidecarId(a.call.cid)
    ensures LaunchesApart(Apply(s, a))
  {
    if a.Advance? {
      StatementKeepsLaunchId(s, s.threads[a.t], a.ok, a.newId);
    }
  }

  lemma {:induction false} RunsStaySound(trace: seq<State>, actions: seq<Action>, n: nat)
    requires IsRun(trace, actions) && n < |trace|
    ensures Sound(trace[n])
  {
    if n > 0 {
      RunsStaySound(trace, actions, n - 1);
      assert StepAt(trace, actions, n - 1);
      SoundByStep(trace[n - 1], actions[n - 1]);
    }
  }

  lemma {:induction false} RunsKeepLaunchesApart(trace: seq<State>, actions: seq<Action>, n: nat)
    requires IsRun(trace, actions) && RunIdsApart(actions) && n < |trace|
    ensures LaunchesApart(trace[n])
  {
    if n > 0 {
      RunsKeepLaunchesApart(trace, actions, n - 1);
      assert StepAt(trace, actions, n - 1);
      LaunchesApartByStep(trace[n - 1], actions[n - 1]);
    }
  }

  /** In every reachable state of a broker whose jails never carry a sidecar id, every live sidecar is accounted for. */
  lemma {:induction false} SidecarsNeverStranded(trace: seq<State>, actions: seq<Action>, n: nat)
    requires IsRun(trace, actions) && RunIdsApart(actions) && n < |trace|
    ensures Covered(trace[n])
  {
    if n > 0 {
      SidecarsNeverStranded(trace, actions, n - 1);
      RunsStaySound(trace, actions, n - 1);
      RunsKeepLaunchesApart(trace, actions, n - 1);
      assert StepAt(trace, actions, n - 1);
      CoverageStep(trace[n - 1], actions[n - 1]);
    }
  }

  // ------------------------------------------------------------------
  // Without that, a relaunch strands one
  // ------------------------------------------------------------------

  lemma Extend(trace: seq<State>, actions: seq<Action>, a: Action) returns (trace': seq<State>, actions': seq<Action>)
    requires IsRun(trace, actions) && Enabled(trace[|trace| - 1], a)
    ensures IsRun(trace', actions') && |trace'| == |trace| + 1 && actions' == actions + [a]
    ensures trace'[|trace'| - 1] == Apply(trace[|trace| - 1], a)
  {
    trace', actions' := trace + [Apply(trace[|trace| - 1], a)], actions + [a];
    forall i | 0 <= i < |actions'|
      ensures StepAt(trace', actions', i)
    {
      if i < |actions| {
        assert StepAt(trace, actions, i);
      }
    }
  }

  /** A broker of capacity 1 in which sidecar "a-sc" was launched and registered as child 0. */
  lemma SidecarUp() returns (trace: seq<State>, actions: seq<Action>)
    ensures IsRun(trace, actions)
    ensures var s := trace[|trace| - 1];
      && s.sem == Semaphore(0, 1) && s.runs == map["a-sc" := 0] && !s.closed && s.bundles == map[]
      && s.threads == map[0 := Returned(Empty), 1 := SuperviseSide(0, AwaitSide)]
      && s.children == map[0 := Started("a-sc", false)]
  {
    var cid := "a-sc";
    assert cid[1..] == SIDECAR_SUFFIX;
    trace, actions := [State(Semaphore(0, 1), map[], false, map[], map[], map[])], [];
    trace, actions := Extend(trace, actions, Arrive(0, Sidecar(cid, XValidate)));
    trace, actions := Extend(trace, actions, Advance(0, true, 0));
    trace, actions := Extend(trace, actions, Advance(0, true, 0));
    trace, actions := Extend(trace, actions, Advance(0, true, 0));
    trace, actions := Extend(trace, actions, Advance(0, true, 0));
    trace, actions := Extend(trace, actions, Advance(0, true, 0));
    trace, actions := Extend(trace, actions, Advance(0, true, 1));
  }

  /** There a LaunchRun under the same id, which validation admits, has taken its slot. */
  lemma LaunchUnderTheSameId() returns (trace: seq<State>, actions: seq<Action>)
    ensures IsRun(trace, actions)
    ensures var s := trace[|trace| - 1];
      && 2 in s.threads && s.threads[2] == Launch("a-sc", LPrepare)
      && s.runs == map["a-sc" := 0] && s.children == map[0 := Started("a-sc", false)] && s.bundles == map[]
  {
    trace, actions := SidecarUp();
    trace, actions := Extend(trace, actions, Arrive(2, Launch("a-sc", LValidate)));
    trace, actions := Extend(trace, actions, Advance(2, true, 0));
    trace, actions := Extend(trace, actions, Advance(2, true, 0));
    trace, actions := Extend(trace, actions, Advance(2, true, 0));
  }

  /** It comes to the point of registering. */
  lemma LaunchAboutToRegister() returns (trace: seq<State>, actions: seq<Action>)
    ensures IsRun(trace, actions)
    ensures var s := trace[|trace| - 1];
            Enabled(s, Advance(2, true, 0)) && Strands(s, Advance(2, true, 0))
  {
    trace, actions := LaunchUnderTheSameId();
    trace, actions := Extend(trace, actions, Advance(2, true, 7));
    trace, actions := Extend(trace, actions, Advance(2, true, 7));
    trace, actions := Extend(trace, actions, Advance(2, true, 1));
    assert trace[|trace| - 1].threads[2] == Launch("a-sc", LRegister(7, 1));
  }

  /** Registering leaves the sidecar unreachable. */
  lemma RunIdStrandsASidecar() returns (trace: seq<State>, actions: seq<Action>)
    ensures IsRun(trace, actions) && !Covered(trace[|trace| - 1])
  {
    trace, actions := LaunchAboutToRegister();
    RunsStaySound(trace, actions, |trace| - 1);
    StrandingUncovers(trace[|trace| - 1], Advance(2, true, 0));
    trace, actions := Extend(trace, actions, Advance(2, true, 0));
  }
}
