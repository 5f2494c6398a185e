/**
Conservation of launch slots and bundles over every interleaving of the
broker (cmd/capbroker/runlaunch_linux.go:102-231, server.go:112-135,
runcapture_linux.go:42-45).
*/
module BrokerSlots {
  import opened Wrappers
  import opened BrokerRegistry
  import opened BrokerProtocol

  // ------------------------------------------------------------------
  // Who holds a slot
  // ------------------------------------------------------------------

  datatype Holder = InSetup | Capturing | JailUnreleased

  /** The claim on a launch slot a thread at this statement has, if any. */
  function Claim(th: Thread): Option<Holder> {
    match th
    case Launch(_, LValidate) => None
    case Launch(_, LQueue) => None
    case Launch(_, LDeferred(slotReleased, _)) => if slotReleased then None else Some(InSetup)
    case Launch(_, _) => Some(InSetup)
    case Capture(pc) => if pc.CRun? || pc.CDeferred? then Some(Capturing) else None
    case Supervise(_, _, stage) => if stage.CloseDone? then None else Some(JailUnreleased)
    case _ => None
  }

  function Claimants(threads: map<Tid, Thread>, h: Holder): set<Tid> {
    set t | t in threads && Claim(threads[t]) == Some(h)
  }

  /** Launches in setup, plus captures running, plus jails whose supervisor has not released them. */
  function Claims(threads: map<Tid, Thread>): nat {
    |Claimants(threads, InSetup)| + |Claimants(threads, Capturing)| + |Claimants(threads, JailUnreleased)|
  }

  /** Used slots are exactly the claims, and never more than the channel holds. */
  predicate SlotsConserved(s: State) {
    s.sem.used == Claims(s.threads) <= s.sem.cap
  }

  function One(b: bool): nat {
    if b then 1 else 0
  }

  lemma ClaimantsAfter(threads: map<Tid, Thread>, t: Tid, th: Thread, h: Holder)
    ensures |Claimants(threads[t := th], h)| == |Claimants(threads, h)|
              - One(t in threads && Claim(threads[t]) == Some(h)) + One(Claim(th) == Some(h))
  {
    var before, after := Claimants(threads, h), Claimants(threads[t := th], h);
    if Claim(th) == Some(h) {
      assert after == before + {t};
    } else {
      assert after == before - {t};
    }
  }

  lemma ClaimsAfter(threads: map<Tid, Thread>, t: Tid, th: Thread)
    ensures Claims(threads[t := th]) == Claims(threads)
              - One(t in threads && Claim(threads[t]).Some?) + One(Claim(th).Some?)
    ensures t in threads && Claim(threads[t]).Some? ==> Claims(threads) > 0
  {
    ClaimantsAfter(threads, t, th, InSetup);
    ClaimantsAfter(threads, t, th, Capturing);
    ClaimantsAfter(threads, t, th, JailUnreleased);
    if t in threads && Claim(threads[t]).Some? {
      assert t in Claimants(threads, Claim(threads[t]).value);
    }
  }

  /** What a statement does to the semaphore is what it does to the number of claims. */
  predicate Balanced(th: Thread, e: Effect) {
    match e.slot
    case KeepSlots =>
      if e.spawned.Some? then Claim(e.next).None? && (Claim(e.spawned.value).Some? <==> Claim(th).Some?)
      else Claim(e.next).Some? <==> Claim(th).Some?
    case TakeSlot => e.spawned.None? && Claim(th).None? && Claim(e.next).Some?
    case ReturnSlot => e.spawned.None? && Claim(th).Some? && Claim(e.next).None?
  }

  lemma StatementBalanced(s: State, th: Thread, ok: bool, newId: nat)
    requires CanAdvance(s, th, ok, newId)
    ensures Balanced(th, Statement(s, th, ok, newId))
    ensures Statement(s, th, ok, newId).slot.TakeSlot? ==> HasRoom(s.sem)
    ensures Statement(s, th, ok, newId).spawned.Some? ==> newId !in s.threads
  {
  }

  lemma BalancedKeepsSlots(s: State, t: Tid, e: Effect, newId: nat)
    requires SlotsConserved(s) && t in s.threads && Balanced(s.threads[t], e)
    requires e.slot.TakeSlot? ==> HasRoom(s.sem)
    requires e.spawned.Some? ==> newId !in s.threads
    ensures SlotsConserved(Perform(s, t, e, newId))
  {
    if e.spawned.Some? {
      ClaimsAfter(s.threads, newId, e.spawned.value);
      ClaimsAfter(s.threads[newId := e.spawned.value], t, e.next);
    } else {
      ClaimsAfter(s.threads, t, e.next);
    }
  }

  lemma SlotsConservedByStep(s: State, a: Action)
    requires SlotsConserved(s) && Enabled(s, a)
    ensures SlotsConserved(Apply(s, a))
    ensures Apply(s, a).sem.cap == s.sem.cap
  {
    match a
    case Arrive(t, call) => ClaimsAfter(s.threads, t, call);
    case Advance(t, ok, newId) =>
      StatementBalanced(s, s.threads[t], ok, newId);
      BalancedKeepsSlots(s, t, Statement(s, s.threads[t], ok, newId), newId);
    case _ =>
  }

  // ------------------------------------------------------------------
  // Who must remove a bundle
  // ------------------------------------------------------------------

  /** The bundle a thread at this statement still has to remove, if any. */
  function Owes(th: Thread): Option<BundleId> {
    match th
    case Launch(_, LDial(b)) => Some(b)
    case Launch(_, LExec(b)) => Some(b)
    case Launch(_, LRegister(b, _)) => Some(b)
    case Launch(_, LSpawn(b, _)) => Some(b)
    case Launch(_, LUnbundle(b)) => Some(b)
    case Supervise(_, b, stage) => if stage.FreeSlot? || stage.CloseDone? then None else Some(b)
    case _ => None
  }

  ghost predicate Owed(s: State, b: BundleId) {
    exists t :: t in s.threads && Owes(s.threads[t]) == Some(b)
  }

  /** A bundle is on disk exactly while one thread owes its removal; it is removed at most once. */
  ghost predicate BundlesConserved(s: State) {
    && (forall b :: b in s.bundles ==> s.bundles[b] == if Owed(s, b) then 0 else 1)
    && (forall t :: t in s.threads && Owes(s.threads[t]).Some? ==> Owes(s.threads[t]).value in s.bundles)
    && (forall t, u :: t in s.threads && u in s.threads && Owes(s.threads[t]).Some? && Owes(s.threads[t]) == Owes(s.threads[u]) ==> t == u)
  }

  /** A statement takes on, hands over or pays a debt exactly as it builds, spawns or removes. */
  predicate Settles(th: Thread, e: Effect, newId: nat) {
    match e.bundle
    case KeepBundles =>
      if e.spawned.Some? then Owes(e.next).None? && Owes(e.spawned.value) == Owes(th)
      else Owes(e.next) == Owes(th)
    case Build => e.spawned.None? && Owes(th).None? && Owes(e.next) == Some(newId)
    case Remove(b) => e.spawned.None? && Owes(th) == Some(b) && Owes(e.next).None?
  }

  lemma StatementSettles(s: State, th: Thread, ok: bool, newId: nat)
    requires CanAdvance(s, th, ok, newId)
    ensures Settles(th, Statement(s, th, ok, newId), newId)
    ensures Statement(s, th, ok, newId).bundle.Build? ==> newId !in s.bundles
    ensures Statement(s, th, ok, newId).spawned.Some? ==> newId !in s.threads
  {
  }

  lemma SettledKeepsBundles(s: State, t: Tid, e: Effect, newId: nat)
    requires BundlesConserved(s) && t in s.threads && Settles(s.threads[t], e, newId)
    requires e.bundle.Build? ==> newId !in s.bundles
    requires e.spawned.Some? ==> newId !in s.threads
    ensures BundlesConserved(Perform(s, t, e, newId))
  {
    var s' := Perform(s, t, e, newId);
    forall b | b in s'.bundles
      ensures s'.bundles[b] == if Owed(s', b) then 0 else 1
    {
      if o :| o in s.threads && Owes(s.threads[o]) == Some(b) && o != t {
        assert s'.threads[o] == s.threads[o];
      } else if Owes(s.threads[t]) == Some(b) {
        assert t in s'.threads;
        assert e.spawned.Some? ==> newId in s'.threads;
      } else {
        assert t in s'.threads;
      }
    }
  }

  lemma BundlesConservedByStep(s: State, a: Action)
    requires BundlesConserved(s) && Enabled(s, a)
    ensures BundlesConserved(Apply(s, a))
  {
    match a
    case Advance(t, ok, newId) =>
      StatementSettles(s, s.threads[t], ok, newId);
      SettledKeepsBundles(s, t, Statement(s, s.threads[t], ok, newId), newId);
    case Arrive(t, call) =>
      var s' := Apply(s, a);
      forall b | b in s.bundles
        ensures Owed(s', b) == Owed(s, b)
      {
        if o :| o in s.threads && Owes(s.threads[o]) == Some(b) {
          assert s'.threads[o] == s.threads[o];
        }
      }
    case _ =>
      assert forall b :: Owed(Apply(s, a), b) == Owed(s, b);
  }

  // ------------------------------------------------------------------
  // Over whole runs
  // ------------------------------------------------------------------

  lemma {:induction false} RunsConserve(trace: seq<State>, actions: seq<Action>, n: nat)
    requires IsRun(trace, actions) && n < |trace|
    ensures SlotsConserved(trace[n]) && BundlesConserved(trace[n])
    ensures trace[n].sem.cap == trace[0].sem.cap
  {
    if n == 0 {
      assert forall h :: Claimants(trace[0].threads, h) == {};
    } else {
      RunsConserve(trace, actions, n - 1);
      assert StepAt(trace, actions, n - 1);
      SlotsConservedByStep(trace[n - 1], actions[n - 1]);
      BundlesConservedByStep(trace[n - 1], actions[n - 1]);
    }
  }

  /** The statements that call releaseLaunchSlot. */
  predicate AboutToRelease(th: Thread) {
    || (th.Launch? && th.launch.LDeferred? && !th.launch.slotReleased)
    || (th.Capture? && th.capture.CDeferred?)
    || (th.Supervise? && th.stage.FreeSlot?)
  }

  /**
  In every reachable state a releasing thread finds a slot to take back, so the
  default branch of releaseLaunchSlot never runs.
  */
  lemma ReleaseAlwaysFindsASlot(trace: seq<State>, actions: seq<Action>, n: nat, t: Tid)
    requires IsRun(trace, actions) && n < |trace|
    requires t in trace[n].threads && AboutToRelease(trace[n].threads[t])
    ensures trace[n].sem.used > 0
  {
    RunsConserve(trace, actions, n);
    ClaimsAfter(trace[n].threads, t, Gone);
  }

  predicate Finished(th: Thread) {
    th.Returned? || th.Gone?
  }

  /** When every handler and goroutine has finished, every slot is back and every bundle was removed exactly once. */
  lemma QuiescentBrokerHoldsNothing(trace: seq<State>, actions: seq<Action>, n: nat)
    requires IsRun(trace, actions) && n < |trace|
    requires forall t :: t in trace[n].threads ==> Finished(trace[n].threads[t])
    ensures trace[n].sem.used == 0
    ensures forall b :: b in trace[n].bundles ==> trace[n].bundles[b] == 1
  {
    RunsConserve(trace, actions, n);
    assert forall h :: Claimants(trace[n].threads, h) == {};
  }
}
