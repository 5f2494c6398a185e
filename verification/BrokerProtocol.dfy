/**
The cap-broker as a concurrent program: every RPC handler and every goroutine
is a thread with its own program counter, one step is one access to shared
state (the launch semaphore, the run registry, a child's exit fields, a
bundle on disk), and a run of the broker is any interleaving of such steps.

Sources: cmd/capbroker/runlaunch_linux.go, server.go, runcapture_linux.go and
sidecarlaunch_linux.go. What the host does (a dial, runsc, a cgroup read) is a
choice of the environment.
*/
module BrokerProtocol {
  import opened Wrappers
  import opened BrokerRegistry

  type Tid = nat
  type ChildId = nat
  type BundleId = nat

  // ------------------------------------------------------------------
  // Shared objects
  // ------------------------------------------------------------------

  /**
  One supervised child with its runEntry: the process side (exit, killed,
  reaped) and the five entry fields the supervising goroutine writes.
  */
  datatype Child = Child(
    cid: ContainerId,
    jailed: bool,
    exit: Option<Exit>,
    killed: bool,
    reaped: bool,
    oom: bool,
    actuals: Actuals,
    stderrTail: string,
    waitErr: Option<string>,
    done: bool)

  /** A child just started: nothing known about its exit yet. */
  function Started(cid: ContainerId, jailed: bool): Child {
    Child(cid, jailed, None, false, false, false, Actuals(None, None), "", None, false)
  }

  /** The reply waitRun builds from an entry's fields. */
  function ReadEntry(c: Child): WaitResult {
    WaitResult(if c.waitErr.Some? then c.waitErr.value else "", c.oom, c.actuals.peakMemMB, c.actuals.cpuUsec, c.stderrTail)
  }

  datatype Reply = Refused | Empty | Exited(cid: ContainerId, child: ChildId, result: WaitResult)

  // ------------------------------------------------------------------
  // Threads
  // ------------------------------------------------------------------

  /** The statements of a jail's supervising goroutine, in order. */
  datatype SupStage = AwaitExit | WriteOom | WriteActuals | WriteTail | WriteErr | DropBundle | FreeSlot | CloseDone

  /** The stages that read what rt.Wait() returned. */
  predicate NeedsExit(stage: SupStage) {
    !stage.DropBundle? && !stage.FreeSlot? && !stage.CloseDone?
  }

  /** The statements of a sidecar's supervising goroutine. */
  datatype SideStage = AwaitSide | WriteSideOom | WriteSideErr | CloseSide

  /** launchRun: the statement it runs next, with the locals it holds. */
  datatype LaunchPc =
    | LValidate
    | LQueue
    | LArm
    | LPrepare
    | LDial(bundle: BundleId)
    | LExec(bundle: BundleId)
    | LRegister(bundle: BundleId, child: ChildId)
    | LSpawn(bundle: BundleId, child: ChildId)
    | LUnbundle(bundle: BundleId)
    | LDeferred(slotReleased: bool, ok: bool)

  /** captureRunTree. */
  datatype CapturePc = CValidate | CQueue | CRun | CDeferred

  /** waitRun, for runs and sidecars alike. */
  datatype WaitPc = WLookup | WSelect(child: ChildId) | WForget(child: ChildId) | WRead(child: ChildId)

  /** killRun, for runs and sidecars alike. */
  datatype KillPc = KLookup(cid: ContainerId) | KSignal(child: ChildId)

  /** launchSidecar. */
  datatype SidecarPc =
    | XValidate
    | XCheck
    | XDial
    | XExec
    | XInsert(child: ChildId)
    | XSpawn(child: ChildId)
    | XKill(child: ChildId)
    | XReap(child: ChildId)

  datatype Thread =
    | Launch(cid: ContainerId, launch: LaunchPc)
    | Supervise(child: ChildId, bundle: BundleId, stage: SupStage)
    | Capture(capture: CapturePc)
    | Wait(cid: ContainerId, wait: WaitPc)
    | Kill(kill: KillPc)
    | Sidecar(cid: ContainerId, sidecar: SidecarPc)
    | SuperviseSide(child: ChildId, side: SideStage)
    | ReapLoser(child: ChildId)
    | Returned(reply: Reply)
    | Gone

  /** The calls a client may make at any time. */
  predicate IsCall(th: Thread) {
    || (th.Launch? && th.launch.LValidate?)
    || (th.Capture? && th.capture.CValidate?)
    || (th.Wait? && th.wait.WLookup?)
    || (th.Kill? && th.kill.KLookup?)
    || (th.Sidecar? && th.sidecar.XValidate?)
  }

  datatype State = State(
    sem: Semaphore,
    runs: map<ContainerId, ChildId>,
    closed: bool,
    threads: map<Tid, Thread>,
    children: map<ChildId, Child>,
    bundles: map<BundleId, nat>)  // every bundle built, with how often it was removed

  predicate Init(s: State) {
    && s.sem.used == 0 && s.runs == map[] && !s.closed
    && s.threads == map[] && s.children == map[] && s.bundles == map[]
  }

  // ------------------------------------------------------------------
  // Steps
  // ------------------------------------------------------------------

  datatype Action =
    | Arrive(t: Tid, call: Thread)
    // thread t runs its next statement; ok is the environment's choice and
    // newId the id of what the statement creates, if it creates anything
    | Advance(t: Tid, ok: bool, newId: nat)
    | ChildExits(child: ChildId, exit: Exit)
    | Shutdown
    | ShutdownKills(child: ChildId)

  predicate Enabled(s: State, a: Action) {
    match a
    case Arrive(t, call) => t !in s.threads && IsCall(call)
    case Advance(t, ok, newId) => t in s.threads && CanAdvance(s, s.threads[t], ok, newId)
    case ChildExits(c, _) => c in s.children && s.children[c].exit.None?
    case Shutdown => !s.closed
    case ShutdownKills(c) => s.closed && c in s.children
  }

  predicate CanAdvance(s: State, th: Thread, ok: bool, newId: nat) {
    match th
    case Launch(_, pc) => CanLaunch(s, pc, ok, newId)
    // rt.Wait() returns only once the child has exited
    case Supervise(c, _, stage) => c in s.children && (NeedsExit(stage) ==> s.children[c].exit.Some?)
    case Capture(pc) => pc.CQueue? && ok ==> HasRoom(s.sem)
    case Wait(_, pc) => CanWait(s, pc, ok)
    case Kill(pc) => pc.KSignal? ==> pc.child in s.children
    case Sidecar(cid, pc) => CanLaunchSidecar(s, cid, pc, ok, newId)
    case SuperviseSide(c, stage) => c in s.children && (stage.CloseSide? || s.children[c].exit.Some?)
    case ReapLoser(c) => c in s.children && s.children[c].exit.Some?
    case Returned(_) => false
    case Gone => false
  }

  predicate CanLaunch(s: State, pc: LaunchPc, ok: bool, newId: nat) {
    match pc
    // a slot is taken only when the buffered channel has room; the wait for
    // one may also end by the call's budget or by shutdown
    case LQueue => ok ==> HasRoom(s.sem)
    case LPrepare => newId !in s.bundles
    case LExec(_) => newId !in s.children
    case LSpawn(_, _) => newId !in s.threads
    case _ => true
  }

  predicate CanLaunchSidecar(s: State, cid: ContainerId, pc: SidecarPc, ok: bool, newId: nat) {
    match pc
    // validation refuses a sidecar id that lacks the suffix
    case XValidate => ok ==> IsSidecarId(cid)
    case XExec => newId !in s.children
    case XSpawn(_) => newId !in s.threads
    case XKill(c) => c in s.children
    case XReap(_) => newId !in s.threads
    case _ => true
  }

  /** The select in waitRun passes when done is closed, or ends with the broker's context. */
  predicate CanWait(s: State, pc: WaitPc, ok: bool) {
    match pc
    case WLookup => true
    case WSelect(c) => if ok then c in s.children && s.children[c].done else s.closed
    case WForget(_) => true
    case WRead(c) => c in s.children
  }

  /** What one statement does to each part of the shared state. */
  datatype Effect = Effect(
    next: Thread,
    slot: SlotEffect,
    registry: RegistryEffect,
    spawned: Option<Thread>,
    stored: Option<Child>,
    bundle: BundleEffect)

  datatype SlotEffect = KeepSlots | TakeSlot | ReturnSlot
  datatype RegistryEffect = KeepRuns | PutRun(cid: ContainerId, child: ChildId) | ForgetRun(cid: ContainerId, child: ChildId)
  datatype BundleEffect = KeepBundles | Build | Remove(bundle: BundleId)

  /** A statement that only moves on to next. */
  function To(next: Thread): Effect {
    Effect(next, KeepSlots, KeepRuns, None, None, KeepBundles)
  }

  /** The child whose record a statement stores, when it stores one. */
  function Target(th: Thread, newId: nat): ChildId {
    match th
    case Supervise(c, _, _) => c
    case SuperviseSide(c, _) => c
    case ReapLoser(c) => c
    case Kill(KSignal(c)) => c
    case Sidecar(_, XKill(c)) => c
    case _ => newId
  }

  /** One statement of thread th. */
  function Statement(s: State, th: Thread, ok: bool, newId: nat): Effect
    requires CanAdvance(s, th, ok, newId)
  {
    match th
    case Launch(cid, pc) => LaunchRun(cid, pc, ok, newId)
    case Supervise(c, b, stage) => Supervision(s.children[c], c, b, stage)
    case Capture(pc) => CaptureRunTree(pc, ok)
    case Wait(cid, pc) => WaitRun(s, cid, pc, ok)
    case Kill(pc) => KillRun(s, pc)
    case Sidecar(cid, pc) => LaunchSidecar(s, cid, pc, ok, newId)
    case SuperviseSide(c, stage) => SideSupervision(s.children[c], c, stage)
    case ReapLoser(c) => To(Gone).(stored := Some(s.children[c].(reaped := true)))
  }

  function LaunchRun(cid: ContainerId, pc: LaunchPc, ok: bool, newId: nat): Effect {
    match pc
    case LValidate => To(if ok then Launch(cid, LQueue) else Returned(Refused))
    case LQueue => if ok then To(Launch(cid, LArm)).(slot := TakeSlot) else To(Returned(Refused))
    case LArm => To(Launch(cid, if ok then LPrepare else LDeferred(false, false)))
    case LPrepare =>
      if ok then To(Launch(cid, LDial(newId))).(bundle := Build) else To(Launch(cid, LDeferred(false, false)))
    case LDial(b) => To(Launch(cid, if ok then LExec(b) else LUnbundle(b)))
    case LExec(b) =>
      if ok then To(Launch(cid, LRegister(b, newId))).(stored := Some(Started(cid, true)))
      else To(Launch(cid, LUnbundle(b)))
    case LRegister(b, c) => To(Launch(cid, LSpawn(b, c))).(registry := PutRun(cid, c))
    case LSpawn(b, c) =>
      To(Launch(cid, LDeferred(true, true))).(spawned := Some(Supervise(c, b, AwaitExit)))
    case LUnbundle(b) => To(Launch(cid, LDeferred(false, false))).(bundle := Remove(b))
    case LDeferred(slotReleased, launched) =>
      var e := To(Returned(if launched then Empty else Refused));
      if slotReleased then e else e.(slot := ReturnSlot)
  }

  function CaptureRunTree(pc: CapturePc, ok: bool): Effect {
    match pc
    case CValidate => To(if ok then Capture(CQueue) else Returned(Refused))
    case CQueue => if ok then To(Capture(CRun)).(slot := TakeSlot) else To(Returned(Refused))
    case CRun => To(Capture(CDeferred))
    case CDeferred => To(Returned(Empty)).(slot := ReturnSlot)
  }

  function WaitRun(s: State, cid: ContainerId, pc: WaitPc, ok: bool): Effect
    requires CanWait(s, pc, ok)
  {
    match pc
    case WLookup => To(if cid in s.runs then Wait(cid, WSelect(s.runs[cid])) else Returned(Refused))
    case WSelect(c) => To(if ok then Wait(cid, WForget(c)) else Returned(Refused))
    case WForget(c) => To(Wait(cid, WRead(c))).(registry := ForgetRun(cid, c))
    case WRead(c) => To(Returned(Exited(cid, c, ReadEntry(s.children[c]))))
  }

  function KillRun(s: State, pc: KillPc): Effect
    requires pc.KSignal? ==> pc.child in s.children
  {
    match pc
    case KLookup(cid) => To(if cid in s.runs then Kill(KSignal(s.runs[cid])) else Returned(Empty))
    case KSignal(c) => To(Returned(Empty)).(stored := Some(s.children[c].(killed := true)))
  }

  function LaunchSidecar(s: State, cid: ContainerId, pc: SidecarPc, ok: bool, newId: nat): Effect
    requires CanLaunchSidecar(s, cid, pc, ok, newId)
  {
    match pc
    case XValidate => To(if ok then Sidecar(cid, XCheck) else Returned(Refused))
    case XCheck => To(if cid in s.runs then Returned(Refused) else Sidecar(cid, XDial))
    case XDial => To(if ok then Sidecar(cid, XExec) else Returned(Refused))
    case XExec =>
      if ok then To(Sidecar(cid, XInsert(newId))).(stored := Some(Started(cid, false))) else To(Returned(Refused))
    // check and insert under one hold of the registry lock
    case XInsert(c) =>
      if cid in s.runs then To(Sidecar(cid, XKill(c)))
      else To(Sidecar(cid, XSpawn(c))).(registry := PutRun(cid, c))
    case XSpawn(c) => To(Returned(Empty)).(spawned := Some(SuperviseSide(c, AwaitSide)))
    case XKill(c) => To(Sidecar(cid, XReap(c))).(stored := Some(s.children[c].(killed := true)))
    case XReap(c) => To(Returned(Refused)).(spawned := Some(ReapLoser(c)))
  }

  /** The goroutine launchRun starts. */
  function Supervision(child: Child, c: ChildId, b: BundleId, stage: SupStage): Effect
    requires NeedsExit(stage) ==> child.exit.Some?
  {
    match stage
    case AwaitExit => To(Supervise(c, b, WriteOom)).(stored := Some(child.(reaped := true)))
    case WriteOom => To(Supervise(c, b, WriteActuals)).(stored := Some(child.(oom := child.exit.value.oom)))
    case WriteActuals => To(Supervise(c, b, WriteTail)).(stored := Some(child.(actuals := child.exit.value.actuals)))
    case WriteTail => To(Supervise(c, b, WriteErr)).(stored := Some(child.(stderrTail := child.exit.value.stderrTail)))
    case WriteErr => To(Supervise(c, b, DropBundle)).(stored := Some(child.(waitErr := child.exit.value.waitErr)))
    case DropBundle => To(Supervise(c, b, FreeSlot)).(bundle := Remove(b))
    case FreeSlot => To(Supervise(c, b, CloseDone)).(slot := ReturnSlot)
    case CloseDone => To(Gone).(stored := Some(child.(done := true)))
  }

  /** The goroutine launchSidecar starts for the sidecar it registered. */
  function SideSupervision(child: Child, c: ChildId, stage: SideStage): Effect
    requires stage.CloseSide? || child.exit.Some?
  {
    match stage
    case AwaitSide => To(SuperviseSide(c, WriteSideOom)).(stored := Some(child.(reaped := true)))
    case WriteSideOom => To(SuperviseSide(c, WriteSideErr)).(stored := Some(child.(oom := child.exit.value.oom)))
    case WriteSideErr => To(SuperviseSide(c, CloseSide)).(stored := Some(child.(waitErr := child.exit.value.waitErr)))
    case CloseSide => To(Gone).(stored := Some(child.(done := true)))
  }

  /** The state after thread t's statement had effect e. */
  function Perform(s: State, t: Tid, e: Effect, newId: nat): State
    requires t in s.threads
  {
    State(
      match e.slot case KeepSlots => s.sem case TakeSlot => Acquire(s.sem) case ReturnSlot => Release(s.sem),
      match e.registry case KeepRuns => s.runs case PutRun(cid, c) => Put(s.runs, cid, c) case ForgetRun(cid, c) => Forget(s.runs, cid, c),
      s.closed,
      (if e.spawned.Some? then s.threads[newId := e.spawned.value] else s.threads)[t := e.next],
      if e.stored.Some? then s.children[Target(s.threads[t], newId) := e.stored.value] else s.children,
      match e.bundle case KeepBundles => s.bundles case Build => s.bundles[newId := 0] case Remove(b) => s.bundles[b := Removals(s, b) + 1])
  }

  function Removals(s: State, b: BundleId): nat {
    if b in s.bundles then s.bundles[b] else 0
  }

  function Apply(s: State, a: Action): State
    requires Enabled(s, a)
  {
    match a
    case Arrive(t, call) => s.(threads := s.threads[t := call])
    case Advance(t, ok, newId) => Perform(s, t, Statement(s, s.threads[t], ok, newId), newId)
    case ChildExits(c, x) => s.(children := s.children[c := s.children[c].(exit := Some(x))])
    case Shutdown => s.(closed := true)
    case ShutdownKills(c) => s.(children := s.children[c := s.children[c].(killed := true)])
  }

  // ------------------------------------------------------------------
  // Runs
  // ------------------------------------------------------------------

  /** trace[0] is a fresh broker and actions[i] leads from trace[i] to trace[i + 1]. */
  ghost predicate IsRun(trace: seq<State>, actions: seq<Action>) {
    && |trace| == |actions| + 1
    && Init(trace[0])
    && forall i {:trigger StepAt(trace, actions, i)} :: 0 <= i < |actions| ==> StepAt(trace, actions, i)
  }

  ghost predicate StepAt(trace: seq<State>, actions: seq<Action>, i: int)
    requires |trace| == |actions| + 1 && 0 <= i < |actions|
  {
    Enabled(trace[i], actions[i]) && trace[i + 1] == Apply(trace[i], actions[i])
  }
}
