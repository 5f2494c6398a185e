/**
init, up and upgrade on one directory, by any binaries, over whole command
histories. Everything outside the directory (preflight, signatures, pulls,
probes, the drain, compose) is an outcome the command carries.
*/
module Lifecycle {
  import opened ByteStrings
  import opened Wrappers
  import opened Releases
  import opened Rendering
  import opened DeployDirectory

  /** How a first init's writes ended: done, failed and taken back, or killed with some files written. */
  datatype InitEnd = Finished | TakenBack | Killed(written: nat)

  datatype Command =
    | Init(binary: string, project: string, buildFrom: Option<string>, cleared: bool, pin: Option<string>,
           rendered: map<Path, Bytes>, order: seq<Path>, env: Bytes, end: InitEnd)
    | Up(binary: string, scale: nat, preflight: bool, verified: bool, probed: bool, stored: bool, scaled: bool)
    | Upgrade(binary: string, force: bool, preflight: bool, pin: Option<string>, cleared: bool,
              rendered: map<Path, Bytes>, writes: seq<Path>, removes: seq<Path>, stop: nat)
    | Edit(files: map<Path, Bytes>) // the operator changes any file but the state

  /** compose was told to start the deployment recorded as st. */
  datatype Start = Start(binary: string, st: State)

  datatype Outcome = Outcome(dir: Dir, start: Option<Start>)

  function Digests(files: map<Path, Bytes>, hash: Hash): map<Path, Digest> {
    map p | p in files :: hash(files[p])
  }

  ghost predicate Possible(d: Dir, c: Command) {
    match c
    case Init(binary, _, _, _, _, rendered, order, _, end) =>
      binary != "" && rendered != map[] && Enumerates(order, rendered.Keys) && (end.Killed? ==> end.written <= |order|)
    case Upgrade(binary, _, _, _, _, rendered, writes, removes, _) =>
      binary != "" && rendered != map[] && (d.state.Some? ==> PlanOf(d.state.value, c, (b: Bytes) => "").Valid())
    case _ => true
  }

  // ------------------------------------------------------------------
  // The commands
  // ------------------------------------------------------------------

  function FirstState(c: Command, hash: Hash): State
    requires c.Init?
  {
    State(c.binary, if c.buildFrom.Some? then None else c.pin, c.buildFrom, c.project, 1, Digests(c.rendered, hash))
  }

  /** init on a directory with a state file only fills .env; on a bare one it renders, once everything is settled. */
  ghost function StepInit(d: Dir, c: Command, hash: Hash): Dir
    requires c.Init? && Possible(d, c)
  {
    if !c.cleared || d.state.Some? || d.files != map[] then d
    else if c.buildFrom.None? && (!ReleaseTag(c.binary) || c.pin.None?) then d
    else
      match c.end
      case Finished => Dir(c.rendered[ENV_FILE := c.env], Some(FirstState(c, hash)))
      case TakenBack => d
      case Killed(written) => PerformAll(d, Writes(c.rendered, c.order)[..written])
  }

  /** The state up stores: the scale asked for, when it is a new one. */
  function Scaled(st: State, c: Command): State
    requires c.Up?
  {
    if c.scale != 0 then st.(executors := c.scale) else st
  }

  function StepUp(d: Dir, c: Command): Outcome
    requires c.Up?
  {
    if !c.preflight || d.state.None? then Outcome(d, None)
    else
      var st := d.state.value;
      if st.buildFrom.None? && (st.version != c.binary || !c.verified) then Outcome(d, None)
      else if !c.probed then Outcome(d, None)
      else
        var next := Scaled(st, c);
        if next != st && !c.stored then Outcome(d, None)
        else
          var e := Dir(d.files, Some(next));
          Outcome(e, if c.scaled then Some(Start(c.binary, next)) else None)
  }

  function UpgradedState(st: State, c: Command, hash: Hash): State
    requires c.Upgrade?
  {
    st.(version := c.binary, image := c.pin, files := Digests(c.rendered, hash))
  }

  function PlanOf(st: State, c: Command, hash: Hash): Plan
    requires c.Upgrade?
  {
    Plan(c.rendered, st.files.Keys, UpgradedState(st, c, hash), c.writes, c.removes)
  }

  /** upgrade gets past every check that can refuse it before the re-render. */
  ghost predicate Upgrades(d: Dir, c: Command, hash: Hash)
    requires c.Upgrade?
  {
    && c.preflight && d.state.Some?
    && var st := d.state.value;
    && st.buildFrom.None? && Newer(c.binary, st.version)
    && c.pin.Some? && (Matches(d, st, hash) || c.force) && c.cleared
  }

  ghost function StepUpgrade(d: Dir, c: Command, hash: Hash): Outcome
    requires c.Upgrade? && Possible(d, c)
  {
    if !Upgrades(d, c, hash) then Outcome(d, None)
    else
      var plan := PlanOf(d.state.value, c, hash);
      ValidWhateverTheHash(d.state.value, c, hash);
      var ops := plan.Ops();
      var e := PerformAll(d, ops[..Min(c.stop, |ops|)]);
      Outcome(e, if c.stop >= |ops| then Some(Start(c.binary, plan.st)) else None)
  }

  ghost function Step(d: Dir, c: Command, hash: Hash): Outcome
    requires Possible(d, c)
  {
    match c
    case Init(_, _, _, _, _, _, _, _, _) => Outcome(StepInit(d, c, hash), None)
    case Up(_, _, _, _, _, _, _) => StepUp(d, c)
    case Upgrade(_, _, _, _, _, _, _, _, _) => StepUpgrade(d, c, hash)
    case Edit(files) => Outcome(d.(files := files), None)
  }

  lemma ValidWhateverTheHash(st: State, c: Command, hash: Hash)
    requires c.Upgrade? && PlanOf(st, c, (b: Bytes) => "").Valid()
    ensures PlanOf(st, c, hash).Valid()
  {
  }

  // ------------------------------------------------------------------
  // The commands at work on the directory
  // ------------------------------------------------------------------

  method RunInit(dir: Directory, c: Command, hash: Hash, create: bool)
    requires c.Init? && Possible(dir.Value(), c)
    modifies dir
    ensures dir.Value() == StepInit(old(dir.Value()), c, hash)
  {
    if !c.cleared || dir.state.Some? {
      return;
    }
    if dir.files != map[] || (c.buildFrom.None? && (!ReleaseTag(c.binary) || c.pin.None?)) {
      return;
    }
    var st := FirstState(c, hash);
    if c.end.Killed? {
      var _ := dir.WriteBundleFiles(c.rendered, c.order, c.end.written);
    } else {
      var stop := if c.end.Finished? then |c.order| + 2 else |c.order| + 1;
      var _ := dir.WriteDeployment(create, c.rendered, c.order, c.env, st, stop);
      RefusedInitLeavesNothing(c.rendered);
      assert map[] + c.rendered == c.rendered;
    }
  }

  method RunUp(dir: Directory, c: Command) returns (start: Option<Start>)
    requires c.Up?
    modifies dir
    ensures Outcome(dir.Value(), start) == StepUp(old(dir.Value()), c)
  {
    start := None;
    if !c.preflight || dir.state.None? {
      return;
    }
    var st := dir.state.value;
    if st.buildFrom.None? && (st.version != c.binary || !c.verified) {
      return;
    }
    if !c.probed {
      return;
    }
    if c.scale != 0 && c.scale != st.executors {
      if !c.stored {
        return;
      }
      st := st.(executors := c.scale);
      dir.state := Some(st);
    }
    if c.scaled {
      start := Some(Start(c.binary, st));
    }
  }

  method RunUpgrade(dir: Directory, c: Command, hash: Hash, recorded: seq<Path>) returns (start: Option<Start>)
    requires c.Upgrade? && Possible(dir.Value(), c)
    requires dir.state.Some? ==> Enumerates(recorded, dir.state.value.files.Keys)
    modifies dir
    ensures Outcome(dir.Value(), start) == StepUpgrade(old(dir.Value()), c, hash)
  {
    start := None;
    if !c.preflight || dir.state.None? {
      return;
    }
    var st := dir.state.value;
    if st.buildFrom.Some? || CompareReleases(c.binary, st.version) != Some(1) || c.pin.None? {
      return;
    }
    var edited, missing := dir.ChangedFiles(st, recorded, hash);
    if |edited| + |missing| > 0 && !c.force {
      return;
    }
    if !c.cleared {
      return;
    }
    ValidWhateverTheHash(st, c, hash);
    var next := UpgradedState(st, c, hash);
    var ok := dir.WriteRendered(Plan(c.rendered, st.files.Keys, next, c.writes, c.removes), c.stop);
    if ok {
      start := Some(Start(c.binary, next));
    }
  }

  // ------------------------------------------------------------------
  // One step
  // ------------------------------------------------------------------

  /** What readState demands of a state file. */
  predicate ValidState(st: State) {
    st.version != "" && (st.image.None? <==> st.buildFrom.Some?) && st.executors >= 1 && st.files != map[]
  }

  ghost predicate ValidDir(d: Dir) {
    d.state.Some? ==> ValidState(d.state.value)
  }

  /** b may follow a: the same deployment, or a pinned one moved to a strictly newer release. */
  predicate Follows(a: State, b: State) {
    && b.buildFrom == a.buildFrom && b.project == a.project && (a.image.Some? <==> b.image.Some?)
    && (if b.version == a.version then b.image == a.image && b.files == a.files
        else a.buildFrom.None? && LaterRelease(b.version, a.version))
  }

  predicate Advances(d: Dir, e: Dir) {
    d.state.Some? ==> e.state.Some? && Follows(d.state.value, e.state.value)
  }

  /** compose starts what is recorded, and a pinned deployment only by the binary of its version. */
  predicate Sound(o: Outcome) {
    o.start.Some? ==>
      && o.dir.state == Some(o.start.value.st)
      && (o.start.value.st.buildFrom.None? ==> o.start.value.binary == o.start.value.st.version)
  }

  lemma DigestsOfSome(files: map<Path, Bytes>, hash: Hash)
    requires files != map[]
    ensures Digests(files, hash) != map[]
  {
    assert exists p :: p in files;
    var p :| p in files;
    assert p in Digests(files, hash);
  }

  lemma InitAdvances(d: Dir, c: Command, hash: Hash)
    requires c.Init? && Possible(d, c) && ValidDir(d)
    ensures var e := StepInit(d, c, hash);
            ValidDir(e) && Advances(d, e)
  {
    DigestsOfSome(c.rendered, hash);
    if c.end.Killed? {
      BundleWritten(d, c.rendered, c.order, c.end.written);
      WritesKeepState(d, Writes(c.rendered, c.order)[..c.end.written]);
    }
  }

  lemma {:induction false} WritesKeepState(d: Dir, ops: seq<Op>)
    requires forall i :: 0 <= i < |ops| ==> ops[i].Write?
    ensures PerformAll(d, ops).state == d.state
  {
    if ops != [] {
      WritesKeepState(d, ops[..|ops| - 1]);
    }
  }

  lemma UpgradeAdvances(d: Dir, c: Command, hash: Hash)
    requires c.Upgrade? && Possible(d, c) && ValidDir(d)
    ensures var o := StepUpgrade(d, c, hash);
            ValidDir(o.dir) && Advances(d, o.dir) && Sound(o)
  {
    if Upgrades(d, c, hash) {
      NewerIsLater(c.binary, d.state.value.version);
      DigestsOfSome(c.rendered, hash);
      ValidWhateverTheHash(d.state.value, c, hash);
      var plan := PlanOf(d.state.value, c, hash);
      if c.stop < |plan.Ops()| {
        StoppedNamesTheOldVersion(d, plan, c.stop);
      } else {
        assert plan.Ops()[..|plan.Ops()|] == plan.Ops();
        WholePlan(d, plan);
        assert c.binary != d.state.value.version;
      }
    }
  }

  /** An upgrade reaches compose exactly when nothing refuses it: the binary is a later release of a pinned deployment. */
  lemma UpgradeStartsExactly(d: Dir, c: Command, hash: Hash)
    requires c.Upgrade? && Possible(d, c)
    ensures StepUpgrade(d, c, hash).start.Some?
            <==> && c.preflight && d.state.Some? && d.state.value.buildFrom.None?
                 && LaterRelease(c.binary, d.state.value.version)
                 && c.pin.Some? && (Matches(d, d.state.value, hash) || c.force) && c.cleared
                 && c.stop > |c.writes| + |c.removes|
  {
    if d.state.Some? {
      NewerIsLater(c.binary, d.state.value.version);
      ValidWhateverTheHash(d.state.value, c, hash);
    }
  }

  /** up reaches compose exactly when the checks pass, a pinned deployment's binary is its own, and a new scale is stored. */
  lemma UpStartsExactly(d: Dir, c: Command)
    requires c.Up?
    ensures StepUp(d, c).start.Some?
            <==> && c.preflight && d.state.Some? && c.probed && c.scaled
                 && (d.state.value.buildFrom.None? ==> d.state.value.version == c.binary && c.verified)
                 && (c.scale != 0 && c.scale != d.state.value.executors ==> c.stored)
    ensures StepUp(d, c).start.Some? ==>
              && StepUp(d, c).dir.files == d.files
              && StepUp(d, c).dir.state
                 == Some(d.state.value.(executors := if c.scale != 0 then c.scale else d.state.value.executors))
  {
  }

  /** A finished upgrade records the binary's version, the new pin and every digest, and the files on disk match them. */
  lemma FinishedUpgradeRecords(d: Dir, c: Command, hash: Hash)
    requires c.Upgrade? && Possible(d, c) && Upgrades(d, c, hash)
    requires StepUpgrade(d, c, hash).start.Some?
    ensures var e := StepUpgrade(d, c, hash).dir;
            && e.state.Some?
            && var st := e.state.value;
            && st.version == c.binary && st.image == c.pin && st.image.Some? && st.buildFrom.None?
            && st.project == d.state.value.project && st.executors == d.state.value.executors
            && Records(st, c.rendered, hash) && Matches(e, st, hash)
            && (forall p :: p in c.rendered ==> p in e.files && e.files[p] == c.rendered[p])
            && (forall p :: p in d.state.value.files && p !in c.rendered ==> p !in e.files)
  {
    ValidWhateverTheHash(d.state.value, c, hash);
    var plan := PlanOf(d.state.value, c, hash);
    assert plan.Ops()[..|plan.Ops()|] == plan.Ops();
    WholePlan(d, plan);
  }

  /** A finished first init records where its image comes from and every digest, and the files match them. */
  lemma FinishedInitRecords(d: Dir, c: Command, hash: Hash)
    requires c.Init? && Possible(d, c) && d.state.None? && ENV_FILE !in c.rendered
    requires StepInit(d, c, hash).state.Some?
    ensures var e := StepInit(d, c, hash);
            var st := e.state.value;
            && st.version == c.binary && st.buildFrom == c.buildFrom && st.project == c.project && st.executors == 1
            && st.image == (if c.buildFrom.Some? then None else c.pin) && (c.buildFrom.None? ==> st.image.Some?)
            && Records(st, c.rendered, hash) && Matches(e, st, hash)
            && d.files == map[] && ENV_FILE in e.files && e.files[ENV_FILE] == c.env
  {
    if c.end.Killed? {
      WritesKeepState(d, Writes(c.rendered, c.order)[..c.end.written]);
    }
  }

  lemma StepAdvances(d: Dir, c: Command, hash: Hash)
    requires Possible(d, c) && ValidDir(d)
    ensures var o := Step(d, c, hash);
            ValidDir(o.dir) && Advances(d, o.dir) && Sound(o)
  {
    match c
    case Init(_, _, _, _, _, _, _, _, _) => InitAdvances(d, c, hash);
    case Upgrade(_, _, _, _, _, _, _, _, _) => UpgradeAdvances(d, c, hash);
    case _ =>
  }

  // ------------------------------------------------------------------
  // Whole histories
  // ------------------------------------------------------------------

  ghost predicate StepOf(ds: seq<Dir>, cs: seq<Command>, hash: Hash, i: nat)
    requires |ds| == |cs| + 1 && i < |cs|
  {
    Possible(ds[i], cs[i]) && ds[i + 1] == Step(ds[i], cs[i], hash).dir
  }

  /** Any commands by any binaries, from any directory whose state file, if it has one, is valid. */
  ghost predicate History(ds: seq<Dir>, cs: seq<Command>, hash: Hash) {
    |ds| == |cs| + 1 && ValidDir(ds[0]) && forall i :: 0 <= i < |cs| ==> StepOf(ds, cs, hash, i)
  }

  lemma FollowsComposes(a: State, b: State, c: State)
    requires Follows(a, b) && Follows(b, c)
    ensures Follows(a, c)
  {
    if c.version != b.version && b.version != a.version {
      LaterIsTransitive(c.version, b.version, a.version);
    }
  }

  lemma {:induction false} AlwaysValid(ds: seq<Dir>, cs: seq<Command>, hash: Hash, i: nat)
    requires History(ds, cs, hash) && i < |ds|
    ensures ValidDir(ds[i])
    ensures ds[i].state.Some? ==>
              var st := ds[i].state.value;
              st.version != "" && (st.image.Some? != st.buildFrom.Some?) && st.executors >= 1 && st.files != map[]
  {
    if i > 0 {
      AlwaysValid(ds, cs, hash, i - 1);
      assert StepOf(ds, cs, hash, i - 1);
      StepAdvances(ds[i - 1], cs[i - 1], hash);
    }
  }

  /** Between any two points of any history the version only grows and the kind of image never changes. */
  lemma {:induction false} VersionsOnlyGrow(ds: seq<Dir>, cs: seq<Command>, hash: Hash, i: nat, j: nat)
    requires History(ds, cs, hash) && i <= j < |ds|
    ensures Advances(ds[i], ds[j])
    ensures ds[i].state.Some? ==>
              && ds[j].state.Some?
              && var a, b := ds[i].state.value, ds[j].state.value;
              && a.buildFrom == b.buildFrom && a.project == b.project && (a.image.Some? <==> b.image.Some?)
              && (a.version == b.version || LaterRelease(b.version, a.version))
    decreases j
  {
    if i < j {
      VersionsOnlyGrow(ds, cs, hash, i, j - 1);
      AlwaysValid(ds, cs, hash, j - 1);
      assert StepOf(ds, cs, hash, j - 1);
      StepAdvances(ds[j - 1], cs[j - 1], hash);
      if ds[i].state.Some? {
        FollowsComposes(ds[i].state.value, ds[j - 1].state.value, ds[j].state.value);
      }
    }
  }

  /**
  Two starts of a pinned deployment: the later one is by the same binary
  version or a strictly newer release, never an older one.
  */
  lemma StartsNeverGoBack(ds: seq<Dir>, cs: seq<Command>, hash: Hash, i: nat, j: nat)
    requires History(ds, cs, hash) && i < j < |cs|
    requires StepOf(ds, cs, hash, i) && StepOf(ds, cs, hash, j)
    requires Step(ds[i], cs[i], hash).start.Some? && Step(ds[j], cs[j], hash).start.Some?
    ensures var first, second := Step(ds[i], cs[i], hash).start.value, Step(ds[j], cs[j], hash).start.value;
            && first.st.buildFrom == second.st.buildFrom
            && (first.st.buildFrom.None? ==> second.binary == first.binary || LaterRelease(second.binary, first.binary))
  {
    AlwaysValid(ds, cs, hash, i);
    AlwaysValid(ds, cs, hash, j);
    StepAdvances(ds[i], cs[i], hash);
    StepAdvances(ds[j], cs[j], hash);
    VersionsOnlyGrow(ds, cs, hash, i + 1, j + 1);
  }

  // ------------------------------------------------------------------
  // An upgrade stopped and run again
  // ------------------------------------------------------------------

  /** c is a forced attempt at the target of t that stops before recording it. */
  ghost predicate StoppedAttempt(d: Dir, c: Command, t: Command, hash: Hash) {
    && c.Upgrade? && t.Upgrade? && Possible(d, c)
    && c.binary == t.binary && c.pin == t.pin && c.rendered == t.rendered && c.force && c.preflight && c.cleared
    && (Upgrades(d, c, hash) ==>
          PlanOf(d.state.value, c, hash).Valid() && c.stop < |PlanOf(d.state.value, c, hash).Ops()|)
  }

  ghost predicate StoppedRun(d: Dir, cs: seq<Command>, t: Command, hash: Hash)
    decreases |cs|
  {
    cs == [] || (StoppedAttempt(d, cs[0], t, hash) && StoppedRun(StepUpgrade(d, cs[0], hash).dir, cs[1..], t, hash))
  }

  ghost function RunAll(d: Dir, cs: seq<Command>, t: Command, hash: Hash): Dir
    requires StoppedRun(d, cs, t, hash)
    decreases |cs|
  {
    if cs == [] then d else RunAll(StepUpgrade(d, cs[0], hash).dir, cs[1..], t, hash)
  }

  /** Each stopped attempt leaves the state file alone, so the next one faces the same old bundle. */
  lemma StoppedKeepsState(d: Dir, c: Command, t: Command, hash: Hash)
    requires StoppedAttempt(d, c, t, hash)
    ensures StepUpgrade(d, c, hash).dir.state == d.state && StepUpgrade(d, c, hash).start.None?
  {
    if Upgrades(d, c, hash) {
      StoppedNamesTheOldVersion(d, PlanOf(d.state.value, c, hash), c.stop);
    }
  }

  /** Forced upgrades that stop anywhere, any number of times, and one that does not: as if it had been the only one. */
  lemma {:induction false} UpgradeConverges(d: Dir, cs: seq<Command>, t: Command, hash: Hash)
    requires t.Upgrade? && t.force && Upgrades(d, t, hash) && Possible(d, t)
    requires PlanOf(d.state.value, t, hash).Valid() && t.stop >= |PlanOf(d.state.value, t, hash).Ops()|
    requires StoppedRun(d, cs, t, hash)
    ensures var e := RunAll(d, cs, t, hash);
            e.state == d.state && Possible(e, t) && StepUpgrade(e, t, hash) == StepUpgrade(d, t, hash)
    decreases |cs|
  {
    if cs != [] {
      var c := cs[0];
      var e := StepUpgrade(d, c, hash).dir;
      StoppedKeepsState(d, c, t, hash);
      assert Upgrades(d, c, hash);
      OneStopConverges(d, c, t, hash);
      UpgradeConverges(e, cs[1..], t, hash);
    }
  }

  lemma OneStopConverges(d: Dir, c: Command, t: Command, hash: Hash)
    requires t.Upgrade? && t.force && Upgrades(d, t, hash) && Possible(d, t)
    requires PlanOf(d.state.value, t, hash).Valid() && t.stop >= |PlanOf(d.state.value, t, hash).Ops()|
    requires StoppedAttempt(d, c, t, hash) && Upgrades(d, c, hash)
    ensures var e := StepUpgrade(d, c, hash).dir;
            e.state == d.state && Possible(e, t) && StepUpgrade(e, t, hash) == StepUpgrade(d, t, hash)
  {
    var st := d.state.value;
    var first, last := PlanOf(st, c, hash), PlanOf(st, t, hash);
    var e := StepUpgrade(d, c, hash).dir;
    StoppedKeepsState(d, c, t, hash);
    var tries := [(first, c.stop)];
    assert tries[..0] == [];
    assert Attempts(d, tries) == e;
    InterruptedThenFinished(d, tries, last);
    assert last.Ops()[..|last.Ops()|] == last.Ops();
  }
}
