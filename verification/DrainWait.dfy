/**
The upgrade's wait for drained executors: polls of `instance list`, judged one
by one, and what "none in flight" means for the executors behind the rows.
*/
module DrainWait {
  import opened Wrappers
  import opened DrainProtocol

  type Id = string

  const LIVE_HEARTBEAT: real := 30.0
  const DRAIN_SETTLE: real := 10.0

  /** One row of `instance list --json`. */
  datatype Listed = Listed(id: Id, activeRuns: Option<nat>, age: real)

  /** What one turn of the loop meets: the clock, the list, and whether the context ended or the list failed. */
  datatype Poll = Poll(
    polledAt: real, fleet: seq<Listed>, cancelled: bool, failed: bool, judgedAt: real, sleepCancelled: bool)

  datatype Outcome =
    | NoneInFlight(poll: nat)
    | TimedOut(runs: nat, unsettled: nat)
    | ListFailed
    | Cancelled
    | Waiting // the polls given so far decide nothing

  predicate Counted(inst: Listed, ids: set<Id>) {
    inst.id in ids && inst.age <= LIVE_HEARTBEAT
  }

  predicate Settled(inst: Listed, polledAt: real, drainedAt: real) {
    inst.activeRuns.Some? && polledAt - drainedAt - inst.age >= DRAIN_SETTLE
  }

  /** Every executor waited on has a settled count of zero. */
  predicate AllClear(p: Poll, ids: set<Id>, drainedAt: real) {
    forall i :: 0 <= i < |p.fleet| && Counted(p.fleet[i], ids) ==>
      Settled(p.fleet[i], p.polledAt, drainedAt) && p.fleet[i].activeRuns.value == 0
  }

  /** The turn neither ended the context nor failed to list. */
  predicate Answered(p: Poll) {
    !p.cancelled && !p.failed
  }

  /** The loop goes round again after p. */
  predicate GoesOn(p: Poll, ids: set<Id>, drainedAt: real, deadline: real) {
    Answered(p) && !AllClear(p, ids, drainedAt) && p.judgedAt < deadline && !p.sleepCancelled
  }

  /** The totals of one poll. */
  method Judge(p: Poll, ids: set<Id>, drainedAt: real) returns (runs: nat, unsettled: nat)
    ensures runs == 0 && unsettled == 0 <==> AllClear(p, ids, drainedAt)
    ensures unsettled == 0 <==> forall i :: 0 <= i < |p.fleet| && Counted(p.fleet[i], ids) ==>
                                              Settled(p.fleet[i], p.polledAt, drainedAt)
  {
    runs, unsettled := 0, 0;
    for i := 0 to |p.fleet|
      invariant runs == 0 <==> forall j :: 0 <= j < i && Counted(p.fleet[j], ids) ==>
                                             p.fleet[j].activeRuns.None? || p.fleet[j].activeRuns.value == 0
      invariant unsettled == 0 <==> forall j :: 0 <= j < i && Counted(p.fleet[j], ids) ==>
                                                  Settled(p.fleet[j], p.polledAt, drainedAt)
    {
      var inst := p.fleet[i];
      if inst.id !in ids || inst.age > LIVE_HEARTBEAT {
        continue;
      }
      if inst.activeRuns.Some? {
        runs := runs + inst.activeRuns.value;
      }
      var sinceDrain := p.polledAt - drainedAt - inst.age;
      if inst.activeRuns.None? || sinceDrain < DRAIN_SETTLE {
        unsettled := unsettled + 1;
      }
    }
  }

  /**
  Reports "none in flight" at the first poll that decides anything, and only if
  that poll is clear; a clear poll is never passed over.
  */
  method WaitForRuns(polls: seq<Poll>, ids: set<Id>, drainedAt: real, deadline: real) returns (r: Outcome)
    ensures r.Waiting? <==> forall k :: 0 <= k < |polls| ==> GoesOn(polls[k], ids, drainedAt, deadline)
    ensures r.NoneInFlight? <==> exists k :: 0 <= k < |polls|
                                   && Answered(polls[k]) && AllClear(polls[k], ids, drainedAt)
                                   && forall j :: 0 <= j < k ==> GoesOn(polls[j], ids, drainedAt, deadline)
    ensures r.NoneInFlight? ==> r.poll < |polls| && AllClear(polls[r.poll], ids, drainedAt)
    // on the rows themselves: every one waited on and heard from within 30 seconds says zero, 10 seconds after the drain
    ensures r.NoneInFlight? ==>
              var p := polls[r.poll];
              forall i :: 0 <= i < |p.fleet| && p.fleet[i].id in ids && p.fleet[i].age <= 30.0 ==>
                p.fleet[i].activeRuns == Some(0) && p.polledAt - drainedAt - p.fleet[i].age >= 10.0
    ensures r.TimedOut? ==> exists k :: 0 <= k < |polls|
                              && !AllClear(polls[k], ids, drainedAt) && polls[k].judgedAt >= deadline
  {
    for k := 0 to |polls|
      invariant forall j :: 0 <= j < k ==> GoesOn(polls[j], ids, drainedAt, deadline)
    {
      var p := polls[k];
      if p.cancelled {
        return Cancelled;
      }
      if p.failed {
        return ListFailed;
      }
      var runs, unsettled := Judge(p, ids, drainedAt);
      if runs == 0 && unsettled == 0 {
        return NoneInFlight(k);
      }
      if p.judgedAt >= deadline {
        return TimedOut(runs, unsettled);
      }
      if p.sleepCancelled {
        return Cancelled;
      }
    }
    r := Waiting;
  }

  // ------------------------------------------------------------------
  // What the rows say about the executors
  // ------------------------------------------------------------------

  /**
  An executor as the list found it: the run that brought it there. The database
  may run ahead of the host by up to skew, and the age is clamped at zero.
  */
  datatype Observed = Observed(start: Executor, acts: seq<Action>, listedAt: real, skew: real) {
    ghost predicate Valid(gap: real) {
      Booted(start) && Possible(start, acts, gap)
    }

    ghost function State(gap: real): Executor
      requires Valid(gap)
    {
      Run(start, acts, gap)
    }
  }

  function Age(listedAt: real, stamp: real): real {
    if listedAt - stamp < 0.0 then 0.0 else listedAt - stamp
  }

  /** The row inst is what the list printed for o, which was drained by drainedAt and has not restarted since. */
  ghost predicate Describes(inst: Listed, o: Observed, polledAt: real, drainedAt: real, gap: real) {
    && o.Valid(gap)
    && var s := o.State(gap);
    && inst.activeRuns == s.row.count
    && inst.age == Age(o.listedAt, s.row.at + o.skew)
    && polledAt <= o.listedAt
    && s.flag && s.drainAt <= drainedAt
  }

  /** sinceDrain never exceeds the time from the drain to the heartbeat's stamp, clamped age or not. */
  lemma SinceDrainIsALowerBound(polledAt: real, listedAt: real, stamp: real, drainedAt: real)
    requires polledAt <= listedAt
    ensures polledAt - drainedAt - Age(listedAt, stamp) <= stamp - drainedAt
    ensures Age(listedAt, stamp) >= 0.0 && (listedAt >= stamp ==> stamp + Age(listedAt, stamp) == listedAt)
  {
  }

  /**
  "None in flight" is true of every executor it was said about, and stays true
  until an undrain or restart, whenever heartbeats plus clock skew stay within
  10 seconds and the dispatcher was not caught past its check at the sample.
  */
  lemma NoneInFlightIsFinal(p: Poll, ids: set<Id>, drainedAt: real, behind: map<Id, Observed>, gap: real, i: nat)
    requires AllClear(p, ids, drainedAt)
    requires i < |p.fleet| && p.fleet[i].id in ids && p.fleet[i].age <= 30.0 && p.fleet[i].id in behind
    requires var o := behind[p.fleet[i].id];
             Describes(p.fleet[i], o, p.polledAt, drainedAt, gap) && gap > 0.0 && gap + o.skew <= 10.0
    ensures var s := behind[p.fleet[i].id].State(gap);
            && s.row.knew
            && (!s.row.passed ==> s.slots == 0 && NeverRunsAgain(s, gap))
  {
    var o := behind[p.fleet[i].id];
    var s := o.State(gap);
    assert Counted(p.fleet[i], ids) && Settled(p.fleet[i], p.polledAt, drainedAt);
    SinceDrainIsALowerBound(p.polledAt, o.listedAt, s.row.at + o.skew, drainedAt);
    SettledZeroIsFinal(o.start, o.acts, gap);
  }
}
