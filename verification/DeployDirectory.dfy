/**
The deployment directory as deploy changes it, one atomic file operation at a
time. Each write takes a stopping point: the number of operations that succeed
before one fails.
*/
module DeployDirectory {
  import opened ByteStrings
  import opened Wrappers
  import opened Rendering

  const ENV_FILE: Path := ".env"
  const STATE_FILE: Path := ".triagefactory-deploy.json"

  /** A path's first segment. */
  function First(p: Path): Path {
    if p == [] || p[0] == '/' then [] else [p[0]] + First(p[1..])
  }

  /** What stands before the first slash, or the whole of a path without one. */
  lemma {:induction false} FirstSegment(name: Path, below: Path)
    requires '/' !in name
    ensures First(name) == name && First(name + "/" + below) == name
  {
    if name != [] {
      FirstSegment(name[1..], below);
      assert (name + "/" + below)[1..] == name[1..] + "/" + below;
      assert [name[0]] + name[1..] == name;
    }
  }

  /** The entries a first init creates directly in the directory. */
  ghost function TopLevelNames(files: map<Path, Bytes>): set<Path> {
    {ENV_FILE, STATE_FILE} + set p | p in files :: First(p)
  }

  /** What is left of the files once every one under names is removed. */
  ghost function Without(files: map<Path, Bytes>, names: set<Path>): map<Path, Bytes> {
    map p | p in files && First(p) !in names :: files[p]
  }

  function Min(a: nat, b: nat): nat {
    if a < b then a else b
  }

  class Directory {
    var files: map<Path, Bytes>
    var state: Option<State>

    constructor ()
      ensures Value() == Dir(map[], None)
    {
      files, state := map[], None;
    }

    ghost function Value(): Dir
      reads this
    {
      Dir(files, state)
    }

    /** The rendered files, one after another, until one cannot be written. */
    method WriteBundleFiles(rendered: map<Path, Bytes>, order: seq<Path>, stop: nat) returns (ok: bool)
      requires forall p :: p in order ==> p in rendered
      modifies this
      ensures ok <==> stop >= |order|
      ensures Value() == PerformAll(old(Value()), Writes(rendered, order)[..Min(stop, |order|)])
    {
      ghost var was, ops := Value(), Writes(rendered, order);
      for i := 0 to |order|
        invariant i <= stop && Value() == PerformAll(was, ops[..i])
      {
        if i == stop {
          return false;
        }
        var path := order[i];
        assert path in order;
        files := files[path := rendered[path]];
        PerformNext(was, ops, i);
      }
      ok := true;
    }

    /** Removes the old bundle's dropped files; one already gone is no failure. */
    method RemoveDropped(order: seq<Path>, stop: nat) returns (ok: bool)
      modifies this
      ensures ok <==> stop >= |order|
      ensures Value() == PerformAll(old(Value()), Removals(order)[..Min(stop, |order|)])
    {
      ghost var was, ops := Value(), Removals(order);
      for i := 0 to |order|
        invariant i <= stop && Value() == PerformAll(was, ops[..i])
      {
        if i == stop {
          return false;
        }
        files := files - {order[i]};
        PerformNext(was, ops, i);
      }
      ok := true;
    }

    /** upgrade's re-render. */
    method WriteRendered(plan: Plan, stop: nat) returns (ok: bool)
      requires plan.Valid()
      modifies this
      ensures ok <==> stop >= |plan.Ops()|
      ensures Value() == PerformAll(old(Value()), plan.Ops()[..Min(stop, |plan.Ops()|)])
    {
      ghost var was, writes, removals := Value(), Writes(plan.files, plan.writes), Removals(plan.removes);
      var w, r := |plan.writes|, |plan.removes|;
      ok := WriteBundleFiles(plan.files, plan.writes, stop);
      if !ok {
        assert plan.Ops()[..stop] == writes[..stop];
        return;
      }
      assert writes[..w] == writes;
      ok := RemoveDropped(plan.removes, stop - w);
      ghost var done := Min(stop - w, r);
      PerformBoth(was, writes, removals[..done]);
      if !ok || stop == w + r {
        assert plan.Ops()[..stop] == writes + removals[..done];
        return false;
      }
      state := Some(plan.st);
      assert removals[..r] == removals;
      PerformBoth(was, writes + removals, [Record(plan.st)]);
      assert [Record(plan.st)][..0] == [];
      assert plan.Ops()[..|plan.Ops()|] == plan.Ops();
    }

    /** The recorded files whose bytes differ, and those that are gone. */
    method ChangedFiles(st: State, order: seq<Path>, hash: Hash) returns (edited: seq<Path>, missing: seq<Path>)
      requires Enumerates(order, st.files.Keys)
      ensures forall p :: p in missing <==> p in st.files && p !in files
      ensures forall p :: p in edited <==> p in st.files && p in files && hash(files[p]) != st.files[p]
      ensures edited == [] && missing == [] <==> Matches(Value(), st, hash)
    {
      edited, missing := [], [];
      for i := 0 to |order|
        invariant forall p :: p in missing <==> p in order[..i] && p !in files
        invariant forall p :: p in edited <==> p in order[..i] && p in files && p in st.files && hash(files[p]) != st.files[p]
      {
        var path := order[i];
        assert order[..i + 1] == order[..i] + [path];
        if path !in files {
          missing := missing + [path];
        } else if hash(files[path]) != st.files[path] {
          edited := edited + [path];
        }
      }
      assert order[..|order|] == order;
      ClearExactly(edited, missing, st, hash);
    }

    lemma ClearExactly(edited: seq<Path>, missing: seq<Path>, st: State, hash: Hash)
      requires forall p :: p in missing <==> p in st.files && p !in files
      requires forall p :: p in edited <==> p in st.files && p in files && hash(files[p]) != st.files[p]
      ensures edited == [] && missing == [] <==> Matches(Value(), st, hash)
    {
      if edited != [] {
        assert edited[0] in edited;
      } else if missing != [] {
        assert missing[0] in missing;
      } else {
        forall p | p in st.files
          ensures p in files && hash(files[p]) == st.files[p]
        {
          assert p !in missing && p !in edited;
        }
      }
    }

    /** The deferred rollback: everything under the names this call writes, or the directory it created. */
    method TakeBack(create: bool, rendered: map<Path, Bytes>)
      modifies this
      ensures Value() == Dir(if create then map[] else Without(old(files), TopLevelNames(rendered)), None)
    {
      state := None;
      if create {
        files := map[];
      } else {
        forall p
          ensures Named(p, rendered) <==> First(p) in TopLevelNames(rendered)
        {
          NamedExactly(p, rendered);
        }
        files := map p | p in files && !Named(p, rendered) :: files[p];
      }
    }

    /** A first init's writes: all of them, or none under the names it would have written. */
    method WriteDeployment(
      create: bool, rendered: map<Path, Bytes>, order: seq<Path>, env: Bytes, st: State, stop: nat
    ) returns (ok: bool)
      requires Enumerates(order, rendered.Keys)
      modifies this
      ensures ok <==> stop >= |order| + 2
      ensures ok ==> Value() == Dir((old(files) + rendered)[ENV_FILE := env], Some(st))
      ensures !ok ==> Value() == Dir(if create then map[] else Without(old(files), TopLevelNames(rendered)), None)
    {
      ghost var was := Value();
      ok := WriteBundleFiles(rendered, order, stop);
      BundleWritten(was, rendered, order, Min(stop, |order|));
      if ok && stop >= |order| + 1 {
        files := files[ENV_FILE := env];
        if stop >= |order| + 2 {
          state := Some(st);
          return;
        }
        EnvFirst();
      }
      ok := false;
      assert Without(files, TopLevelNames(rendered)) == Without(was.files, TopLevelNames(rendered));
      TakeBack(create, rendered);
    }
  }

  /** Writing some of the bundle changes nothing outside the names it writes under; writing all of it overlays it. */
  lemma BundleWritten(d: Dir, rendered: map<Path, Bytes>, order: seq<Path>, k: nat)
    requires Enumerates(order, rendered.Keys) && k <= |order|
    ensures var e := PerformAll(d, Writes(rendered, order)[..k]);
            && Without(e.files, TopLevelNames(rendered)) == Without(d.files, TopLevelNames(rendered))
            && (k == |order| ==> e.files == d.files + rendered)
  {
    var plan := Plan(rendered, {}, State("", None, None, "", 0, map[]), order, []);
    assert plan.oldFiles - plan.files.Keys == {};
    assert plan.Ops()[..k] == Writes(rendered, order)[..k];
    PrefixOfPlan(d, plan, k);
    var e, names := PerformAll(d, Writes(rendered, order)[..k]), TopLevelNames(rendered);
    forall p | First(p) !in names
      ensures SameAt(d, e, p)
    {
      assert p !in rendered;
    }
    assert forall p :: p in d.files && First(p) !in names ==> SameAt(d, e, p);
    assert forall p :: p in e.files && First(p) !in names ==> SameAt(d, e, p);
    if k == |order| {
      forall p
        ensures SameAt(Dir(d.files + rendered, None), e, p)
      {
        if p in rendered {
          assert p in order;
          var i :| 0 <= i < |order| && order[i] == p;
        } else {
          assert SameAt(d, e, p);
        }
      }
      SameFiles(Dir(d.files + rendered, None), e);
    }
  }

  /** p lies under a name a first init writes. */
  predicate Named(p: Path, rendered: map<Path, Bytes>) {
    First(p) == ENV_FILE || First(p) == STATE_FILE || exists q :: q in rendered && First(q) == First(p)
  }

  lemma NamedExactly(p: Path, rendered: map<Path, Bytes>)
    ensures Named(p, rendered) <==> First(p) in TopLevelNames(rendered)
  {
  }

  lemma EnvFirst()
    ensures First(ENV_FILE) == ENV_FILE
  {
    assert ENV_FILE[1..] == "env" && "env"[1..] == "nv" && "nv"[1..] == "v" && "v"[1..] == "";
    assert First("") == "" && First("v") == "v" && First("nv") == "nv" && First("env") == "env";
  }

  /** A first init that fails in an empty or absent directory leaves nothing behind. */
  lemma RefusedInitLeavesNothing(rendered: map<Path, Bytes>)
    ensures Without(map[], TopLevelNames(rendered)) == map[]
  {
  }
}
