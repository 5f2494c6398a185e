/**
Which entry an id reaches: what a wait looked up, what removes an entry from
the registry, and that no live sidecar is ever stranded
(cmd/capbroker/runlaunch_linux.go:238-291, sidecarlaunch_linux.go:102-175 and
sidecarrun_linux.go:78-96).
*/
module BrokerReachability {
  import opened Wrappers
  import opened BrokerRegistry
  import opened BrokerProtocol
  import opened BrokerRecords

  // ------------------------------------------------------------------
  // What a wait looked up
  // ------------------------------------------------------------------

  /** The entry a wait under cid is bound to once it has looked it up. */
  function BoundTo(th: Thread): Option<(ContainerId, ChildId)> {
    match th
    case Wait(cid, WSelect(c)) => Some((cid, c))
    case Wait(cid, WForget(c)) => Some((cid, c))
    case Wait(cid, WRead(c)) => Some((cid, c))
    case Returned(Exited(cid, c, _)) => Some((cid, c))
    case _ => None
  }

  /** Step i is the lookup of a wait by thread t, and it found c registered under cid. */
  ghost predicate LooksUp(trace: seq<State>, i: nat, t: Tid, cid: ContainerId, c: ChildId)
    requires i + 1 < |trace|
  {
    && t in trace[i].threads && trace[i].threads[t] == Wait(cid, WLookup)
    && cid in trace[i].runs && trace[i].runs[cid] == c
    && t in trace[i + 1].threads && trace[i + 1].threads[t] == Wait(cid, WSelect(c))
  }

  /** next is bound to what th was, or th's lookup just found it. */
  predicate BindsFrom(s: State, th: Thread, next: Thread) {
    BoundTo(next).Some? ==>
      var (cid, c) := BoundTo(next).value;
      || BoundTo(th) == Some((cid, c))
      || (th == Wait(cid, WLookup) && cid in s.runs && s.runs[cid] == c && next == Wait(cid, WSelect(c)))
  }

  lemma StatementBinds(s: State, th: Thread, ok: bool, newId: nat)
    requires CanAdvance(s, th, ok, newId)
    ensures BindsFrom(s, th, Statement(s, th, ok, newId).next)
    ensures Statement(s, th, ok, newId).spawned.Some? ==> BoundTo(Statement(s, th, ok, newId).spawned.value).None?
  {
    match th
    case Wait(cid, pc) =>
    case Launch(cid, pc) =>
    case Sidecar(cid, pc) =>
    case _ =>
  }

  lemma EffectBinds(s: State, t: Tid, e: Effect, newId: nat, u: Tid)
    requires t in s.threads && BindsFrom(s, s.threads[t], e.next)
    requires e.spawned.Some? ==> BoundTo(e.spawned.value).None?
    requires u in Perform(s, t, e, newId).threads && BoundTo(Perform(s, t, e, newId).threads[u]).Some?
    ensures u in s.threads && BindsFrom(s, s.threads[u], Perform(s, t, e, newId).threads[u])
  {
  }

  /** A thread becomes bound only by its own lookup, and is never bound to anything else. */
  lemma BindsByLookup(trace: seq<State>, actions: seq<Action>, k: nat, t: Tid)
    requires IsRun(trace, actions) && k < |actions|
    requires t in trace[k + 1].threads && BoundTo(trace[k + 1].threads[t]).Some?
    ensures t in trace[k].threads && BindsFrom(trace[k], trace[k].threads[t], trace[k + 1].threads[t])
  {
    assert StepAt(trace, actions, k);
    var s, a := trace[k], actions[k];
    if a.Advance? {
      StatementBinds(s, s.threads[a.t], a.ok, a.newId);
      EffectBinds(s, a.t, Statement(s, s.threads[a.t], a.ok, a.newId), a.newId, t);
    }
  }

  /** Every wait that returned an exit status looked its entry up in the registry itself. */
  lemma {:induction false} WaitReturnsTheEntryItFound(trace: seq<State>, actions: seq<Action>, n: nat, t: Tid)
    requires IsRun(trace, actions) && n < |trace|
    requires t in trace[n].threads && BoundTo(trace[n].threads[t]).Some?
    ensures var (cid, c) := BoundTo(trace[n].threads[t]).value;
      exists i: nat :: i < n && LooksUp(trace, i, t, cid, c)
  {
    if n > 0 {
      var (cid, c) := BoundTo(trace[n].threads[t]).value;
      BindsByLookup(trace, actions, n - 1, t);
      if BoundTo(trace[n - 1].threads[t]) == Some((cid, c)) {
        WaitReturnsTheEntryItFound(trace, actions, n - 1, t);
        var i: nat :| i < n - 1 && LooksUp(trace, i, t, cid, c);
        assert LooksUp(trace, i, t, cid, c);
      } else {
        assert LooksUp(trace, n - 1, t, cid, c);
      }
    }
  }

  // ------------------------------------------------------------------
  // What takes an entry out of the registry
  // ------------------------------------------------------------------

  predicate Registered(s: State, cid: ContainerId, c: ChildId) {
    cid in s.runs && s.runs[cid] == c
  }

  /** This step is a wait of exactly c forgetting it, with c's process long reaped. */
  predicate ForgetsIt(s: State, a: Action, cid: ContainerId, c: ChildId) {
    && a.Advance? && a.t in s.threads && s.threads[a.t] == Wait(cid, WForget(c))
    && c in s.children && s.children[c].done
  }

  /** This step is a LaunchRun registering another child under cid. */
  predicate RelaunchesOver(s: State, a: Action, cid: ContainerId) {
    && a.Advance? && a.t in s.threads
    && s.threads[a.t].Launch? && s.threads[a.t].cid == cid && s.threads[a.t].launch.LRegister?
  }

  /** Which statements write the registry. */
  lemma StatementWrites(s: State, th: Thread, ok: bool, newId: nat)
    requires CanAdvance(s, th, ok, newId)
    ensures var e := Statement(s, th, ok, newId);
      match e.registry
      case KeepRuns => true
      case ForgetRun(cid, c) => th == Wait(cid, WForget(c))
      case PutRun(cid, c) =>
        || (th.Launch? && th.cid == cid && th.launch.LRegister? && th.launch.child == c)
        || (th == Sidecar(cid, XInsert(c)) && cid !in s.runs)
  {
    match th
    case Wait(cid, pc) =>
    case Launch(cid, pc) =>
    case Sidecar(cid, pc) =>
    case _ =>
  }

  /**
  An entry leaves the registry only by a wait that looked that very entry up
  and saw it done, or by a relaunch under its id: never by its predecessor's
  wait and never by a sidecar launch.
  */
  lemma EntryLeavesOnlyBy(trace: seq<State>, actions: seq<Action>, k: nat, cid: ContainerId, c: ChildId)
    requires IsRun(trace, actions) && k < |actions|
    requires Registered(trace[k], cid, c) && !Registered(trace[k + 1], cid, c)
    ensures ForgetsIt(trace[k], actions[k], cid, c) || RelaunchesOver(trace[k], actions[k], cid)
  {
    var s, a := trace[k], actions[k];
    assert StepAt(trace, actions, k);
    assert a.Advance?;
    StatementWrites(s, s.threads[a.t], a.ok, a.newId);
    RunsRecord(trace, actions, k);
    assert Refers(s.children, s.threads[a.t]);
  }

  /**
  A registered child stays reachable under its id from step i on until its own
  wait forgets it or a later LaunchRun takes the id.
  */
  lemma {:induction false} SuccessorStaysReachable(trace: seq<State>, actions: seq<Action>, i: nat, j: nat, cid: ContainerId, c: ChildId)
    requires IsRun(trace, actions) && i <= j < |trace|
    requires Registered(trace[i], cid, c)
    requires forall k :: i <= k < j ==> !ForgetsIt(trace[k], actions[k], cid, c) && !RelaunchesOver(trace[k], actions[k], cid)
    ensures Registered(trace[j], cid, c)
  {
    if i < j {
      SuccessorStaysReachable(trace, actions, i, j - 1, cid, c);
      if !Registered(trace[j], cid, c) {
        EntryLeavesOnlyBy(trace, actions, j - 1, cid, c);
      }
    }
  }

  // ------------------------------------------------------------------
  // A drained id is free again
  // ------------------------------------------------------------------

  /** This step puts an entry under cid. */
  predicate Registers(s: State, a: Action, cid: ContainerId) {
    && a.Advance? && a.t in s.threads
    && ((s.threads[a.t].Launch? && s.threads[a.t].cid == cid && s.threads[a.t].launch.LRegister?)
        || (s.threads[a.t].Sidecar? && s.threads[a.t].cid == cid && s.threads[a.t].sidecar.XInsert?))
  }

  /** The wait has run its forget step. */
  predicate PastForget(th: Thread) {
    (th.Wait? && th.wait.WRead?) || (th.Returned? && th.reply.Exited?)
  }

  /** Without a registration the id is empty or still names what it named. */
  lemma EntryStaysOrGoes(trace: seq<State>, actions: seq<Action>, k: nat, cid: ContainerId)
    requires IsRun(trace, actions) && k < |actions|
    requires !Registers(trace[k], actions[k], cid) && cid in trace[k + 1].runs
    ensures cid in trace[k].runs && trace[k].runs[cid] == trace[k + 1].runs[cid]
  {
    var s, a := trace[k], actions[k];
    assert StepAt(trace, actions, k);
    if a.Advance? {
      StatementWrites(s, s.threads[a.t], a.ok, a.newId);
    }
  }

  predicate PastLookup(th: Thread) {
    !th.Wait? || !th.wait.WLookup?
  }

  /** Where a statement can lead as far as waits are concerned. */
  lemma StatementPastForget(s: State, th: Thread, ok: bool, newId: nat)
    requires CanAdvance(s, th, ok, newId)
    ensures var e := Statement(s, th, ok, newId);
      && PastLookup(e.next)
      && (e.spawned.Some? ==> newId !in s.threads && PastLookup(e.spawned.value))
      && (PastForget(e.next) && !PastForget(th) && BoundTo(th).Some? ==> e.registry == ForgetRun(BoundTo(th).value.0, BoundTo(th).value.1))
  {
    match th
    case Wait(cid, pc) =>
    case Launch(cid, pc) =>
    case Sidecar(cid, pc) =>
    case _ =>
  }

  /** A bound wait gets past its forget step only by taking its entry out of the registry. */
  lemma ForgetStepForgets(trace: seq<State>, actions: seq<Action>, k: nat, t: Tid, cid: ContainerId, c: ChildId)
    requires IsRun(trace, actions) && k < |actions|
    requires t in trace[k].threads
    ensures t in trace[k + 1].threads
    ensures PastLookup(trace[k].threads[t]) ==> PastLookup(trace[k + 1].threads[t])
    ensures BoundTo(trace[k].threads[t]) == Some((cid, c)) && !PastForget(trace[k].threads[t]) && PastForget(trace[k + 1].threads[t])
      ==> !Registered(trace[k + 1], cid, c)
  {
    var s, a := trace[k], actions[k];
    assert StepAt(trace, actions, k);
    if a.Advance? {
      StatementPastForget(s, s.threads[a.t], a.ok, a.newId);
    }
  }

  /** A thread past a wait's lookup never comes back to one. */
  lemma {:induction false} NeverLooksUpAgain(trace: seq<State>, actions: seq<Action>, i: nat, j: nat, t: Tid)
    requires IsRun(trace, actions) && i <= j < |trace|
    requires t in trace[i].threads && PastLookup(trace[i].threads[t])
    ensures t in trace[j].threads && PastLookup(trace[j].threads[t])
  {
    if i < j {
      NeverLooksUpAgain(trace, actions, i, j - 1, t);
      ForgetStepForgets(trace, actions, j - 1, t, "", 0);
    }
  }

  lemma {:induction false} OnlyTheEntryItFound(trace: seq<State>, actions: seq<Action>, i: nat, j: nat, t: Tid, cid: ContainerId, c: ChildId)
    requires IsRun(trace, actions) && i < j < |trace|
    requires LooksUp(trace, i, t, cid, c)
    requires forall k :: i <= k < j ==> !Registers(trace[k], actions[k], cid)
    requires t in trace[j].threads && BoundTo(trace[j].threads[t]) == Some((cid, c))
    ensures cid in trace[j].runs ==> trace[j].runs[cid] == c && !PastForget(trace[j].threads[t])
  {
    if cid in trace[j].runs {
      EntryStaysOrGoes(trace, actions, j - 1, cid);
    }
    if i < j - 1 {
      BindsByLookup(trace, actions, j - 1, t);
      NeverLooksUpAgain(trace, actions, i + 1, j - 1, t);
      OnlyTheEntryItFound(trace, actions, i, j - 1, t, cid, c);
      ForgetStepForgets(trace, actions, j - 1, t, cid, c);
    }
  }

  /**
  Kill and drain: once a wait under cid has returned an exit status, cid is
  free for a new launch, unless some launch registered under it since the
  wait's lookup.
  */
  lemma DrainFreesTheId(trace: seq<State>, actions: seq<Action>, i: nat, j: nat, t: Tid, cid: ContainerId, c: ChildId)
    requires IsRun(trace, actions) && i < j < |trace|
    requires LooksUp(trace, i, t, cid, c)
    requires t in trace[j].threads && trace[j].threads[t].Returned? && BoundTo(trace[j].threads[t]) == Some((cid, c))
    requires forall k :: i <= k < j ==> !Registers(trace[k], actions[k], cid)
    ensures cid !in trace[j].runs
  {
    OnlyTheEntryItFound(trace, actions, i, j, t, cid, c);
  }
}
