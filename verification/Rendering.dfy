/**
A deployment directory and the two ways deploy renders into it: a first init,
which rolls back what it wrote, and an upgrade's re-render, which can stop
after any of its atomic operations and is finished by a later run.
*/
module Rendering {
  import opened ByteStrings
  import opened Wrappers

  type Path = string
  type Digest = string
  type Hash = Bytes -> Digest

  /** .triagefactory-deploy.json. */
  datatype State = State(
    version: string,
    image: Option<string>,
    buildFrom: Option<string>,
    project: string,
    executors: nat,
    files: map<Path, Digest>)

  /** The directory's files, and its state file read back. */
  datatype Dir = Dir(files: map<Path, Bytes>, state: Option<State>)

  datatype Op = Write(path: Path, data: Bytes) | Remove(path: Path) | Record(st: State)

  function Perform(d: Dir, op: Op): Dir {
    match op
    case Write(path, data) => d.(files := d.files[path := data])
    case Remove(path) => d.(files := d.files - {path})
    case Record(st) => d.(state := Some(st))
  }

  function PerformAll(d: Dir, ops: seq<Op>): Dir {
    if ops == [] then d else Perform(PerformAll(d, ops[..|ops| - 1]), ops[|ops| - 1])
  }

  lemma PerformNext(d: Dir, ops: seq<Op>, k: nat)
    requires k < |ops|
    ensures PerformAll(d, ops[..k + 1]) == Perform(PerformAll(d, ops[..k]), ops[k])
  {
    assert ops[..k + 1][..k] == ops[..k];
  }

  lemma {:induction false} PerformBoth(d: Dir, a: seq<Op>, b: seq<Op>)
    ensures PerformAll(d, a + b) == PerformAll(PerformAll(d, a), b)
    decreases |b|
  {
    if b == [] {
      assert a + b == a;
    } else {
      var front := b[..|b| - 1];
      PerformBoth(d, a, front);
      assert (a + b)[..|a + b| - 1] == a + front;
    }
  }

  /** order lists the keys of a map, each once. */
  ghost predicate Enumerates(order: seq<Path>, keys: set<Path>) {
    && (forall p :: p in order <==> p in keys)
    && (forall i, j :: 0 <= i < j < |order| ==> order[i] != order[j])
  }

  function Writes(files: map<Path, Bytes>, order: seq<Path>): seq<Op>
    requires forall p :: p in order ==> p in files
  {
    seq(|order|, i requires 0 <= i < |order| => Write(order[i], files[order[i]]))
  }

  function Removals(order: seq<Path>): seq<Op> {
    seq(|order|, i requires 0 <= i < |order| => Remove(order[i]))
  }

  /**
  One re-render: the new files in some order, the old bundle's dropped files in
  some order, and the state last.
  */
  datatype Plan = Plan(files: map<Path, Bytes>, oldFiles: set<Path>, st: State, writes: seq<Path>, removes: seq<Path>) {
    ghost predicate Valid() {
      Enumerates(writes, files.Keys) && Enumerates(removes, oldFiles - files.Keys)
    }

    ghost function Ops(): seq<Op>
      requires Valid()
    {
      Writes(files, writes) + Removals(removes) + [Record(st)]
    }

    /** The same bundle over the same old one, whatever the orders. */
    predicate SameTarget(that: Plan) {
      files == that.files && oldFiles == that.oldFiles && st == that.st
    }
  }

  /** The state records each file's digest. */
  ghost predicate Records(st: State, files: map<Path, Bytes>, hash: Hash) {
    st.files.Keys == files.Keys && forall p :: p in files ==> st.files[p] == hash(files[p])
  }

  /** Every recorded digest is that of the file on disk: changedFiles finds nothing. */
  ghost predicate Matches(d: Dir, st: State, hash: Hash) {
    forall p :: p in st.files ==> p in d.files && hash(d.files[p]) == st.files[p]
  }

  // ------------------------------------------------------------------
  // Prefixes of a plan
  // ------------------------------------------------------------------

  /** After k operations of a plan, each path holds what its own operation, if performed yet, put there. */
  ghost predicate After(d: Dir, plan: Plan, k: nat, e: Dir)
    requires plan.Valid() && k <= |plan.writes| + |plan.removes|
  {
    && e.state == d.state
    && (forall i :: 0 <= i < |plan.writes| && i < k ==>
          plan.writes[i] in e.files && e.files[plan.writes[i]] == plan.files[plan.writes[i]])
    && (forall i :: 0 <= i < |plan.removes| && |plan.writes| + i < k ==> plan.removes[i] !in e.files)
    && (forall p :: p !in plan.files && p !in plan.removes ==> SameAt(d, e, p))
  }

  predicate SameAt(d: Dir, e: Dir, p: Path) {
    (p in d.files <==> p in e.files) && (p in d.files ==> d.files[p] == e.files[p])
  }

  /** The k-th operation before the state is recorded. */
  ghost function OpAt(plan: Plan, k: nat): Op
    requires plan.Valid() && k < |plan.writes| + |plan.removes|
  {
    var w := |plan.writes|;
    if k < w then assert plan.writes[k] in plan.writes; Write(plan.writes[k], plan.files[plan.writes[k]])
    else Remove(plan.removes[k - w])
  }

  lemma OpsIndex(plan: Plan, k: nat)
    requires plan.Valid() && k < |plan.writes| + |plan.removes|
    ensures |plan.Ops()| == |plan.writes| + |plan.removes| + 1 && plan.Ops()[k] == OpAt(plan, k)
  {
  }

  lemma {:induction false} PrefixOfPlan(d: Dir, plan: Plan, k: nat)
    requires plan.Valid() && k <= |plan.writes| + |plan.removes|
    ensures After(d, plan, k, PerformAll(d, plan.Ops()[..k]))
    decreases k
  {
    var ops := plan.Ops();
    if k > 0 {
      PrefixOfPlan(d, plan, k - 1);
      PerformNext(d, ops, k - 1);
      OpsIndex(plan, k - 1);
      PrefixStep(d, plan, k, PerformAll(d, ops[..k - 1]));
    }
  }

  lemma PrefixStep(d: Dir, plan: Plan, k: nat, e: Dir)
    requires plan.Valid() && 0 < k <= |plan.writes| + |plan.removes| && After(d, plan, k - 1, e)
    ensures After(d, plan, k, Perform(e, OpAt(plan, k - 1)))
  {
    var w := |plan.writes|;
    if k - 1 < w {
      assert plan.writes[k - 1] in plan.files;
      assert plan.writes[k - 1] !in plan.removes;
    } else {
      var gone := plan.removes[k - 1 - w];
      assert gone in plan.removes;
      assert gone !in plan.files;
      assert forall i :: 0 <= i < w ==> plan.writes[i] in plan.writes && plan.writes[i] != gone;
    }
  }

  /** What a finished plan leaves. */
  function Rendered(d: Dir, plan: Plan): Dir {
    Dir(d.files - (plan.oldFiles - plan.files.Keys) + plan.files, Some(plan.st))
  }

  lemma WholePlan(d: Dir, plan: Plan)
    requires plan.Valid()
    ensures PerformAll(d, plan.Ops()) == Rendered(d, plan)
  {
    var ops, n := plan.Ops(), |plan.writes| + |plan.removes|;
    PrefixOfPlan(d, plan, n);
    var e := PerformAll(d, ops[..n]);
    assert ops[..|ops|] == ops && ops[..|ops| - 1] == ops[..n] && ops[n] == Record(plan.st);
    forall p
      ensures SameAt(e, Rendered(d, plan), p)
    {
      if p in plan.files {
        assert p in plan.writes;
        var i :| 0 <= i < |plan.writes| && plan.writes[i] == p;
      } else if p in plan.oldFiles {
        assert p in plan.removes;
        var i :| 0 <= i < |plan.removes| && plan.removes[i] == p;
      } else {
        assert p !in plan.removes;
        assert SameAt(d, e, p);
      }
    }
    SameFiles(e, Rendered(d, plan));
  }

  lemma SameFiles(a: Dir, b: Dir)
    requires forall p :: SameAt(a, b, p)
    ensures a.files == b.files
  {
    assert forall p :: p in a.files ==> SameAt(a, b, p);
    assert forall p :: p in b.files ==> SameAt(a, b, p);
  }

  // ------------------------------------------------------------------
  // Crash convergence
  // ------------------------------------------------------------------

  /** Stopped after any proper prefix, the directory still names the old version. */
  lemma StoppedNamesTheOldVersion(d: Dir, plan: Plan, k: nat)
    requires plan.Valid() && k < |plan.Ops()|
    ensures PerformAll(d, plan.Ops()[..k]).state == d.state
  {
    PrefixOfPlan(d, plan, k);
  }

  /** A state that names the new version vouches for every file it records. */
  lemma NewVersionMeansWritten(d: Dir, plan: Plan, k: nat, hash: Hash)
    requires plan.Valid() && k <= |plan.Ops()| && Records(plan.st, plan.files, hash) && d.state != Some(plan.st)
    ensures var e := PerformAll(d, plan.Ops()[..k]);
            e.state == Some(plan.st) ==> k == |plan.Ops()| && Matches(e, plan.st, hash)
  {
    if k < |plan.Ops()| {
      StoppedNamesTheOldVersion(d, plan, k);
    } else {
      assert plan.Ops()[..k] == plan.Ops();
      WholePlan(d, plan);
    }
  }

  /** Attempts at one target, each with its own orders and stopping point. */
  ghost function Attempts(d: Dir, tries: seq<(Plan, nat)>): Dir
    requires forall i :: 0 <= i < |tries| ==> tries[i].0.Valid() && tries[i].1 < |tries[i].0.Ops()|
  {
    if tries == [] then d
    else
      var last := tries[|tries| - 1];
      PerformAll(Attempts(d, tries[..|tries| - 1]), last.0.Ops()[..last.1])
  }

  /** Whatever the interrupted attempts left, only paths of the old and new bundles differ. */
  lemma {:induction false} AttemptsTouchTheBundleOnly(d: Dir, tries: seq<(Plan, nat)>, plan: Plan)
    requires forall i :: 0 <= i < |tries| ==>
      tries[i].0.Valid() && tries[i].1 < |tries[i].0.Ops()| && tries[i].0.SameTarget(plan)
    ensures Attempts(d, tries).state == d.state
    ensures forall p :: p !in plan.files && p !in plan.oldFiles ==> SameAt(d, Attempts(d, tries), p)
  {
    if tries != [] {
      var front, last := tries[..|tries| - 1], tries[|tries| - 1];
      AttemptsTouchTheBundleOnly(d, front, plan);
      PrefixOfPlan(Attempts(d, front), last.0, last.1);
      forall p | p !in plan.files && p !in plan.oldFiles
        ensures SameAt(d, Attempts(d, tries), p)
      {
        assert p !in last.0.removes;
      }
    }
  }

  /**
  Any number of interrupted attempts, then one that finishes: the directory is
  exactly what a single uninterrupted re-render would have left.
  */
  lemma InterruptedThenFinished(d: Dir, tries: seq<(Plan, nat)>, plan: Plan)
    requires plan.Valid()
    requires forall i :: 0 <= i < |tries| ==>
      tries[i].0.Valid() && tries[i].1 < |tries[i].0.Ops()| && tries[i].0.SameTarget(plan)
    ensures PerformAll(Attempts(d, tries), plan.Ops()) == PerformAll(d, plan.Ops())
  {
    var e := Attempts(d, tries);
    AttemptsTouchTheBundleOnly(d, tries, plan);
    WholePlan(d, plan);
    WholePlan(e, plan);
    forall p
      ensures SameAt(Rendered(d, plan), Rendered(e, plan), p)
    {
      assert p !in plan.files && p !in plan.oldFiles ==> SameAt(d, e, p);
    }
    SameFiles(Rendered(d, plan), Rendered(e, plan));
  }
}
