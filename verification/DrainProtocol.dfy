/**
How one executor learns that it is draining. Four parties act on it, each at
its own pace: the operator's drain flag in the registry row, the heartbeat
loop (sample the run count, write the row and read the flag back, then store
the flag), the dispatcher (check the stored flag, then take a concurrency
slot) and the runs that give slots back.
*/
module DrainProtocol {
  import opened Wrappers

  /** The registry row: what `instance list` reads, and two facts about the sample behind the count. */
  datatype Row = Row(
    at: real, // last_heartbeat_at
    count: Option<nat>, // active_runs, null until the first heartbeat of a boot
    knew: bool, // the count was sampled after the executor had stored the drain
    passed: bool // ... while the dispatcher stood between its drain check and its slot
  )

  datatype Beat =
    | Resting
    | Sampled(count: nat, knew: bool, passed: bool)
    | Landed(draining: bool) // written, the flag read back but not yet stored

  datatype Executor = Executor(
    now: real,
    flag: bool, // the drain in effect in the row
    drainAt: real, // when that drain took effect on this boot
    knows: bool, // the executor's own copy of the flag
    slots: nat, // concurrency slots held by runs
    max: nat,
    checked: bool, // the dispatcher is past its drain check and has no slot yet
    beat: Beat,
    row: Row
  )

  datatype Action =
    | Tick(d: real)
    | SetDrain
    | Undrain
    | Restart(keepsDrain: bool) // a drain until restart ends, an operator's persistent one does not
    | Check
    | Acquire
    | Release
    | Sample
    | Land // the write commits and its answer arrives
    | LandUnseen // the write commits and its answer is lost
    | Lose // the write fails
    | Learn

  predicate Enabled(s: Executor, a: Action) {
    match a
    case Tick(d) => d > 0.0
    case SetDrain => !s.flag
    case Undrain => s.flag
    case Restart(_) => true
    case Check => !s.checked && !s.knows
    case Acquire => s.checked && s.slots < s.max
    case Release => s.slots > 0
    case Sample => s.beat.Resting?
    case Land => s.beat.Sampled?
    case LandUnseen => s.beat.Sampled?
    case Lose => s.beat.Sampled?
    case Learn => s.beat.Landed?
  }

  function Apply(s: Executor, a: Action): Executor
    requires Enabled(s, a)
  {
    match a
    case Tick(d) => s.(now := s.now + d)
    case SetDrain => s.(flag := true, drainAt := s.now)
    case Undrain => s.(flag := false)
    case Restart(keepsDrain) =>
      Executor(s.now, s.flag && keepsDrain, s.now, false, 0, s.max, false, Resting, Row(s.now, None, false, false))
    case Check => s.(checked := true)
    case Acquire => s.(checked := false, slots := s.slots + 1)
    case Release => s.(slots := s.slots - 1)
    case Sample => s.(beat := Sampled(s.slots, s.knows, s.checked))
    case Land => s.(row := Written(s), beat := Landed(s.flag))
    case LandUnseen => s.(row := Written(s), beat := Resting)
    case Lose => s.(beat := Resting)
    case Learn => s.(knows := s.beat.draining, beat := Resting)
  }

  function Written(s: Executor): Row
    requires s.beat.Sampled?
  {
    Row(s.now, Some(s.beat.count), s.beat.knew, s.beat.passed)
  }

  /** While it drains, heartbeats land less than gap apart and each one's answer arrives. */
  predicate Regular(s: Executor, a: Action, gap: real) {
    && (s.flag && a.Land? ==> s.now - s.row.at < gap)
    && (s.flag ==> !a.LandUnseen?)
  }

  /** A boot that has just registered. */
  predicate Booted(s: Executor) {
    && s.max > 0 && s.slots == 0 && !s.flag && !s.knows && !s.checked && s.beat.Resting?
    && s.row == Row(s.now, None, false, false)
  }

  predicate Possible(s: Executor, acts: seq<Action>, gap: real)
    decreases |acts|
  {
    acts == [] || (Enabled(s, acts[0]) && Regular(s, acts[0], gap) && Possible(Apply(s, acts[0]), acts[1..], gap))
  }

  function Run(s: Executor, acts: seq<Action>, gap: real): Executor
    requires Possible(s, acts, gap)
    decreases |acts|
  {
    if acts == [] then s else Run(Apply(s, acts[0]), acts[1..], gap)
  }

  // ------------------------------------------------------------------
  // What every run keeps
  // ------------------------------------------------------------------

  /** No run in flight, and the dispatcher will start none: it holds no passed check and will fail the next. */
  predicate Quiet(s: Executor) {
    s.knows && s.slots == 0 && !s.checked && s.beat != Landed(false)
  }

  /** A heartbeat that landed after the drain has taught the executor, or is about to. */
  predicate Taught(s: Executor) {
    || s.beat == Landed(true)
    || (s.knows && (s.beat.Resting? || (s.beat.Sampled? && s.beat.knew)))
  }

  predicate Inv(s: Executor, gap: real) {
    && s.row.at <= s.now && s.max > 0
    && (s.flag ==> s.drainAt <= s.now)
    && (s.flag && s.row.at > s.drainAt ==> Taught(s))
    && (s.flag && s.row.at >= s.drainAt + gap ==> s.row.knew)
    && (s.beat.Sampled? && s.beat.count == 0 && s.beat.knew && !s.beat.passed
        ==> s.knows && s.slots == 0 && !s.checked)
    && (s.flag && s.row.at > s.drainAt && s.row.knew && s.row.count == Some(0) && !s.row.passed ==> Quiet(s))
  }

  lemma InvByStep(s: Executor, a: Action, gap: real)
    requires gap > 0.0 && Inv(s, gap) && Enabled(s, a) && Regular(s, a, gap)
    ensures Inv(Apply(s, a), gap)
  {
  }

  lemma {:induction false} InvOnRuns(s: Executor, acts: seq<Action>, gap: real)
    requires gap > 0.0 && Inv(s, gap) && Possible(s, acts, gap)
    ensures Inv(Run(s, acts, gap), gap)
    decreases |acts|
  {
    if acts != [] {
      InvByStep(s, acts[0], gap);
      InvOnRuns(Apply(s, acts[0]), acts[1..], gap);
    }
  }

  /** A heartbeat teaches the executor exactly the drain its row held when it landed. */
  lemma LearnsWhatLanded(s: Executor)
    requires Enabled(s, Land)
    ensures Enabled(Apply(s, Land), Learn) && Apply(Apply(s, Land), Learn).knows == s.flag
  {
  }

  /** An executor nobody drains never takes itself to be draining, so its dispatcher never stops at the check. */
  lemma {:induction false} UndrainedKeepsClaiming(s: Executor, acts: seq<Action>, gap: real)
    requires !s.flag && !s.knows && s.beat != Landed(true) && Possible(s, acts, gap)
    requires forall i :: 0 <= i < |acts| ==> !acts[i].SetDrain?
    ensures var t := Run(s, acts, gap);
            !t.flag && !t.knows && t.beat != Landed(true) && (!t.checked ==> Enabled(t, Check))
    decreases |acts|
  {
    if acts != [] {
      assert !acts[0].SetDrain?;
      UndrainedKeepsClaiming(Apply(s, acts[0]), acts[1..], gap);
    }
  }

  /** Nothing but an undrain or a restart. */
  predicate KeepsDraining(acts: seq<Action>) {
    forall i :: 0 <= i < |acts| ==> !acts[i].Undrain? && !acts[i].Restart?
  }

  lemma {:induction false} QuietForever(s: Executor, acts: seq<Action>, gap: real)
    requires s.flag && Quiet(s) && Possible(s, acts, gap) && KeepsDraining(acts)
    ensures Quiet(Run(s, acts, gap))
    decreases |acts|
  {
    if acts != [] {
      assert !acts[0].Undrain? && !acts[0].Restart?;
      QuietForever(Apply(s, acts[0]), acts[1..], gap);
    }
  }

  /** The executor runs nothing, and no continuation short of an undrain or restart makes it. */
  ghost predicate NeverRunsAgain(s: Executor, gap: real) {
    forall acts :: Possible(s, acts, gap) && KeepsDraining(acts) ==> Run(s, acts, gap).slots == 0
  }

  /** For an executor that knows it is draining, that is exactly: no slot held and no passed check pending. */
  lemma NeverRunsAgainExactly(s: Executor, gap: real)
    requires s.flag && s.knows && s.beat != Landed(false) && s.max > 0
    ensures NeverRunsAgain(s, gap) <==> s.slots == 0 && !s.checked
  {
    if s.slots == 0 && !s.checked {
      forall acts | Possible(s, acts, gap) && KeepsDraining(acts)
        ensures Run(s, acts, gap).slots == 0
      {
        QuietForever(s, acts, gap);
      }
    } else if s.slots > 0 {
      assert Possible(s, [], gap) && KeepsDraining([]) && Run(s, [], gap) == s;
    } else {
      var next := Apply(s, Acquire);
      assert Possible(next, [Acquire][1..], gap);
      assert Possible(s, [Acquire], gap) && KeepsDraining([Acquire]);
      assert Run(s, [Acquire], gap) == Run(next, [Acquire][1..], gap) == next;
    }
  }

  /**
  The settling argument: a count of zero whose heartbeat landed a whole gap
  after the drain was sampled after the executor knew, so unless the
  dispatcher stood past its check at the sample, nothing runs and nothing
  will until an undrain or restart.
  */
  lemma SettledZeroIsFinal(start: Executor, acts: seq<Action>, gap: real)
    requires Booted(start) && gap > 0.0 && Possible(start, acts, gap)
    ensures var s := Run(start, acts, gap);
            s.flag && s.row.count == Some(0) && s.row.at >= s.drainAt + gap ==>
              s.row.knew && (!s.row.passed ==> Quiet(s) && NeverRunsAgain(s, gap))
  {
    InvOnRuns(start, acts, gap);
    var s := Run(start, acts, gap);
    if s.flag && s.row.count == Some(0) && s.row.at >= s.drainAt + gap && !s.row.passed {
      NeverRunsAgainExactly(s, gap);
    }
  }

  // ------------------------------------------------------------------
  // The window the check leaves open
  // ------------------------------------------------------------------

  lemma {:induction false} Extend(start: Executor, acts: seq<Action>, s: Executor, a: Action, gap: real)
    requires Possible(start, acts, gap) && Run(start, acts, gap) == s
    requires Enabled(s, a) && Regular(s, a, gap)
    ensures Possible(start, acts + [a], gap) && Run(start, acts + [a], gap) == Apply(s, a)
    decreases |acts|
  {
    if acts == [] {
      assert acts + [a] == [a] && [a][1..] == [];
      assert Possible(Apply(s, a), [], gap);
    } else {
      assert (acts + [a])[1..] == acts[1..] + [a];
      Extend(Apply(start, acts[0]), acts[1..], s, a, gap);
    }
  }

  /**
  A dispatcher past its check when the drain lands can wait out two heartbeats
  and then take its slot: the count is a settled zero and a run still starts.
  */
  lemma SettledZeroThenARun() returns (start: Executor, acts: seq<Action>)
    ensures Booted(start) && Possible(start, acts, 10.0)
    ensures var s := Run(start, acts, 10.0);
            && s.flag && s.row.count == Some(0) && s.row.at >= s.drainAt + 10.0
            && s.row.knew && s.row.passed && !NeverRunsAgain(s, 10.0)
  {
    start := Executor(0.0, false, 0.0, false, 0, 1, false, Resting, Row(0.0, None, false, false));
    var s1 := Apply(start, Check);
    Extend(start, [], start, Check, 10.0);
    var s2 := Apply(s1, SetDrain);
    Extend(start, [] + [Check], s1, SetDrain, 10.0);
    var acts1, s3 := HeartbeatRuns(start, [] + [Check] + [SetDrain], s2);
    var acts2, s4 := HeartbeatRuns(start, acts1, s3);
    acts := acts2;
    NeverRunsAgainExactly(s4, 10.0);
  }

  /** Five seconds, then one whole heartbeat. */
  lemma HeartbeatRuns(start: Executor, acts: seq<Action>, s: Executor) returns (more: seq<Action>, t: Executor)
    requires Possible(start, acts, 10.0) && Run(start, acts, 10.0) == s
    requires s.beat.Resting? && s.flag && s.now - s.row.at < 5.0
    ensures Possible(start, more, 10.0) && Run(start, more, 10.0) == t
    ensures t == s.(now := s.now + 5.0, knows := true, row := Row(s.now + 5.0, Some(s.slots), s.knows, s.checked))
  {
    var a := Apply(s, Tick(5.0));
    Extend(start, acts, s, Tick(5.0), 10.0);
    var b := Apply(a, Sample);
    Extend(start, acts + [Tick(5.0)], a, Sample, 10.0);
    var c := Apply(b, Land);
    Extend(start, acts + [Tick(5.0)] + [Sample], b, Land, 10.0);
    t := Apply(c, Learn);
    more := acts + [Tick(5.0)] + [Sample] + [Land] + [Learn];
    Extend(start, acts + [Tick(5.0)] + [Sample] + [Land], c, Learn, 10.0);
  }
}
