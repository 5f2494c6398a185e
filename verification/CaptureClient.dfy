/**
IPCClient.CaptureRunTree (cmd/capbroker/ipc.go:261-337): a goroutine accepts
and reads the manifest stream while the caller awaits the RPC, joined by two
buffered channels, a listener and one connection. A run is any interleaving
of the two threads' statements and of what the outside does to them.
*/
module CaptureClient {
  import opened ByteStrings
  import opened Wrappers

  /** streamResult: what the goroutine read, or why it read nothing. */
  datatype StreamResult = Stream(bytes: Bytes) | StreamError

  /** What CaptureRunTree returns. */
  datatype Outcome = Manifest(bytes: Bytes) | Failure

  /** The caller's thread, named by what it does next. */
  datatype Caller =
    | AwaitRpc
    | CloseListener
    | ReceiveConn
    | CloseAccepted
    | Select
    | Deferred(outcome: Outcome)
    | Done(outcome: Outcome)

  /** The goroutine. */
  datatype Reader =
    | Accepting
    | SendConn
    | Reading
    | SendResult(result: StreamResult)
    | CloseOwn
    | SendNil
    | SendAcceptError
    | Finished

  datatype Rpc = Pending | Succeeded | Failed
  datatype Conn = NeverAccepted | Open | Closed

  /** A channel of capacity 1, with how many values were ever sent on it. */
  datatype Channel<+T> = Channel(buffered: Option<T>, sent: nat)

  datatype State = State(
    caller: Caller,
    reader: Reader,
    rpc: Rpc,
    listening: bool,
    conn: Conn,
    acceptedConn: Channel<bool>,  // true for a connection, false for nil
    streamDone: Channel<StreamResult>,
    ended: Option<StreamResult>,  // how the read ended, once it did
    expired: bool)

  const INITIAL := State(AwaitRpc, Accepting, Pending, true, NeverAccepted, Channel(None, 0), Channel(None, 0), None, false)

  datatype Action =
    | RpcReturns(ok: bool)
    | CallerStep
    | SelectStream
    | SelectExpired
    | Accept(ok: bool)
    | ReadEnds(result: StreamResult)
    | ReaderStep
    | Expire

  predicate Enabled(s: State, a: Action) {
    match a
    case RpcReturns(_) => s.caller.AwaitRpc?
    case CallerStep =>
      || s.caller.CloseListener? || s.caller.CloseAccepted? || s.caller.Deferred?
      || (s.caller.ReceiveConn? && s.acceptedConn.buffered.Some?)
    case SelectStream => s.caller.Select? && s.streamDone.buffered.Some?
    case SelectExpired => s.caller.Select? && s.expired
    case Accept(ok) => s.reader.Accepting? && (ok ==> s.listening)
    case ReadEnds(result) => s.reader.Reading? && (result.Stream? ==> s.conn.Open?)
    // a send goes through only while the channel has room
    case ReaderStep =>
      || ((s.reader.SendConn? || s.reader.SendNil?) && s.acceptedConn.buffered.None?)
      || ((s.reader.SendResult? || s.reader.SendAcceptError?) && s.streamDone.buffered.None?)
      || s.reader.CloseOwn?
    case Expire => !s.expired
  }

  function Send<T>(ch: Channel<T>, v: T): Channel<T> {
    Channel(Some(v), ch.sent + 1)
  }

  function Drained<T>(ch: Channel<T>): Channel<T> {
    ch.(buffered := None)
  }

  function Apply(s: State, a: Action): State
    requires Enabled(s, a)
  {
    match a
    case RpcReturns(ok) =>
      if ok then s.(caller := Select, rpc := Succeeded) else s.(caller := CloseListener, rpc := Failed)
    case CallerStep => CallerRuns(s)
    case SelectStream =>
      var result := s.streamDone.buffered.value;
      s.(caller := Deferred(if result.Stream? then Manifest(result.bytes) else Failure), streamDone := Drained(s.streamDone))
    case SelectExpired => s.(caller := Deferred(Failure))
    case Accept(ok) => if ok then s.(reader := SendConn, conn := Open) else s.(reader := SendNil)
    case ReadEnds(result) => s.(reader := SendResult(result), ended := Some(result))
    case ReaderStep => ReaderRuns(s)
    case Expire => s.(expired := true)
  }

  function CallerRuns(s: State): State
    requires Enabled(s, CallerStep)
  {
    match s.caller
    case CloseListener => s.(caller := ReceiveConn, listening := false)
    case ReceiveConn =>
      s.(caller := if s.acceptedConn.buffered.value then CloseAccepted else Deferred(Failure), acceptedConn := Drained(s.acceptedConn))
    case CloseAccepted => s.(caller := Deferred(Failure), conn := Closed)
    case Deferred(outcome) => s.(caller := Done(outcome), listening := false)
  }

  function ReaderRuns(s: State): State
    requires Enabled(s, ReaderStep)
  {
    match s.reader
    case SendConn => s.(reader := Reading, acceptedConn := Send(s.acceptedConn, true))
    case SendNil => s.(reader := SendAcceptError, acceptedConn := Send(s.acceptedConn, false))
    case SendAcceptError => s.(reader := Finished, streamDone := Send(s.streamDone, StreamError))
    case SendResult(result) => s.(reader := CloseOwn, streamDone := Send(s.streamDone, result))
    case CloseOwn => s.(reader := Finished, conn := Closed)
  }

  ghost predicate IsRun(trace: seq<State>, actions: seq<Action>) {
    && |trace| == |actions| + 1 && trace[0] == INITIAL
    && forall i {:trigger StepAt(trace, actions, i)} :: 0 <= i < |actions| ==> StepAt(trace, actions, i)
  }

  ghost predicate StepAt(trace: seq<State>, actions: seq<Action>, i: int)
    requires |trace| == |actions| + 1 && 0 <= i < |actions|
  {
    Enabled(trace[i], actions[i]) && trace[i + 1] == Apply(trace[i], actions[i])
  }

  // ------------------------------------------------------------------
  // Safety
  // ------------------------------------------------------------------

  predicate BeforeFirstSend(r: Reader) {
    r.Accepting? || r.SendConn? || r.SendNil?
  }

  predicate BeforeSecondSend(r: Reader) {
    BeforeFirstSend(r) || r.Reading? || r.SendResult? || r.SendAcceptError?
  }

  predicate NoConnection(s: State) {
    s.reader.Accepting? || s.reader.SendNil? || s.reader.SendAcceptError? || (s.reader.Finished? && s.ended.None?)
  }

  /** How far the reader is decides what was sent and what became of the connection. */
  predicate ReaderInv(s: State) {
    && s.acceptedConn.sent == (if BeforeFirstSend(s.reader) then 0 else 1)
    && s.streamDone.sent == (if BeforeSecondSend(s.reader) then 0 else 1)
    && (s.ended.Some? ==> s.reader.SendResult? || s.reader.CloseOwn? || s.reader.Finished?)
    && (s.reader.SendResult? ==> s.ended == Some(s.reader.result))
    && (s.reader.CloseOwn? ==> s.ended.Some?)
    && (s.conn.NeverAccepted? <==> NoConnection(s))
    && (s.reader.Finished? ==> !s.conn.Open?)
  }

  /** What waits in the channels is what the reader sent. */
  predicate ChannelInv(s: State) {
    && (s.acceptedConn.buffered.Some? ==> s.acceptedConn.sent == 1 && (s.acceptedConn.buffered.value <==> !s.conn.NeverAccepted?))
    && (s.streamDone.buffered.Some? ==>
          s.streamDone.sent == 1 && s.streamDone.buffered == if s.ended.Some? then s.ended else Some(StreamError))
    && (s.caller.AwaitRpc? || s.caller.CloseListener? || s.caller.Select? || s.caller.ReceiveConn? ==>
          (s.acceptedConn.sent == 1 ==> s.acceptedConn.buffered.Some?))
  }

  /** How far the caller is decides what it has learned and closed. */
  predicate CallerInv(s: State) {
    && (s.rpc.Pending? <==> s.caller.AwaitRpc?)
    && (s.caller.CloseListener? || s.caller.ReceiveConn? || s.caller.CloseAccepted? ==> s.rpc.Failed?)
    && (s.caller.Select? ==> s.rpc.Succeeded?)
    && (s.caller.CloseAccepted? ==> !s.conn.NeverAccepted?)
    && (s.caller.ReceiveConn? || s.caller.CloseAccepted? || s.caller.Done? ==> !s.listening)
    && ((s.caller.Deferred? || s.caller.Done?) && s.caller.outcome.Manifest? ==>
          s.rpc.Succeeded? && s.ended == Some(Stream(s.caller.outcome.bytes)))
  }

  predicate Inv(s: State) {
    ReaderInv(s) && ChannelInv(s) && CallerInv(s)
  }

  lemma ReaderInvByStep(s: State, a: Action)
    requires Inv(s) && Enabled(s, a)
    ensures ReaderInv(Apply(s, a))
  {
  }

  lemma ChannelInvByStep(s: State, a: Action)
    requires Inv(s) && Enabled(s, a)
    ensures ChannelInv(Apply(s, a))
  {
  }

  lemma CallerInvByStep(s: State, a: Action)
    requires Inv(s) && Enabled(s, a)
    ensures CallerInv(Apply(s, a))
  {
  }

  lemma InvByStep(s: State, a: Action)
    requires Inv(s) && Enabled(s, a)
    ensures Inv(Apply(s, a))
  {
    ReaderInvByStep(s, a);
    ChannelInvByStep(s, a);
    CallerInvByStep(s, a);
  }

  lemma {:induction false} RunsKeepInv(trace: seq<State>, actions: seq<Action>, n: nat)
    requires IsRun(trace, actions) && n < |trace|
    ensures Inv(trace[n])
  {
    if n > 0 {
      RunsKeepInv(trace, actions, n - 1);
      assert StepAt(trace, actions, n - 1);
      InvByStep(trace[n - 1], actions[n - 1]);
    }
  }

  /** The manifest is returned only after the RPC succeeded and the stream ended without error, and it is that stream. */
  lemma ManifestNeedsBothSignals(trace: seq<State>, actions: seq<Action>, n: nat)
    requires IsRun(trace, actions) && n < |trace|
    requires trace[n].caller.Done? && trace[n].caller.outcome.Manifest?
    ensures trace[n].rpc.Succeeded? && trace[n].ended == Some(Stream(trace[n].caller.outcome.bytes))
    ensures exists i, j :: 0 <= i < n && 0 <= j < n && actions[i] == RpcReturns(true) && actions[j] == ReadEnds(Stream(trace[n].caller.outcome.bytes))
  {
    RunsKeepInv(trace, actions, n);
    var i := RpcReturned(trace, actions, n);
    var j := ReadEnded(trace, actions, n);
    assert actions[i] == RpcReturns(true) && actions[j] == ReadEnds(Stream(trace[n].caller.outcome.bytes));
  }

  /** The answer once the RPC succeeded, as the way the read ended decides it. */
  function Verdict(ended: Option<StreamResult>): Outcome {
    match ended
    case Some(Stream(bytes)) => Manifest(bytes)
    case _ => Failure
  }

  /** A caller that took the stream's result, as one with time left must have, answers by it. */
  predicate AnswersByTheStream(s: State) {
    (s.caller.Deferred? || s.caller.Done?) && s.rpc.Succeeded? && !s.expired ==>
      s.streamDone.sent == 1 && s.caller.outcome == Verdict(s.ended)
  }

  lemma AnswersByStep(s: State, a: Action)
    requires Inv(s) && AnswersByTheStream(s) && Enabled(s, a)
    ensures AnswersByTheStream(Apply(s, a))
  {
  }

  /**
  The other half: with time left, a successful RPC and a stream that ended
  without error always give that stream's manifest, and a stream that failed
  always gives a failure.
  */
  lemma {:induction false} InTimeTheStreamDecides(trace: seq<State>, actions: seq<Action>, n: nat)
    requires IsRun(trace, actions) && n < |trace|
    ensures AnswersByTheStream(trace[n])
    ensures trace[n].caller.Done? && trace[n].rpc.Succeeded? && !trace[n].expired ==>
              match trace[n].ended
              case Some(Stream(bytes)) => trace[n].caller.outcome == Manifest(bytes)
              case _ => trace[n].caller.outcome == Failure
    decreases n
  {
    if n > 0 {
      InTimeTheStreamDecides(trace, actions, n - 1);
      RunsKeepInv(trace, actions, n - 1);
      assert StepAt(trace, actions, n - 1);
      AnswersByStep(trace[n - 1], actions[n - 1]);
    }
  }

  /** In time or not, a caller that takes a clean stream result returns that manifest. */
  lemma {:induction false} TakenStreamIsReturned(trace: seq<State>, actions: seq<Action>, k: nat, n: nat, bytes: Bytes)
    requires IsRun(trace, actions) && k < n < |trace|
    requires actions[k] == SelectStream && trace[k].streamDone.buffered == Some(Stream(bytes))
    ensures trace[n].caller == Deferred(Manifest(bytes)) || trace[n].caller == Done(Manifest(bytes))
    decreases n
  {
    assert StepAt(trace, actions, n - 1);
    if k + 1 < n {
      TakenStreamIsReturned(trace, actions, k, n - 1, bytes);
    }
  }

  lemma {:induction false} RpcReturned(trace: seq<State>, actions: seq<Action>, n: nat) returns (i: nat)
    requires IsRun(trace, actions) && n < |trace| && trace[n].rpc.Succeeded?
    ensures i < n && actions[i] == RpcReturns(true)
  {
    assert n > 0 && StepAt(trace, actions, n - 1);
    if actions[n - 1] == RpcReturns(true) {
      i := n - 1;
    } else {
      i := RpcReturned(trace, actions, n - 1);
    }
  }

  lemma {:induction false} ReadEnded(trace: seq<State>, actions: seq<Action>, n: nat) returns (i: nat)
    requires IsRun(trace, actions) && n < |trace| && trace[n].ended.Some?
    ensures i < n && actions[i] == ReadEnds(trace[n].ended.value)
  {
    assert n > 0 && StepAt(trace, actions, n - 1);
    if actions[n - 1] == ReadEnds(trace[n].ended.value) {
      i := n - 1;
    } else {
      i := ReadEnded(trace, actions, n - 1);
    }
  }

  /** A reader about to send always finds its channel empty: no send ever blocks. */
  lemma NoSendBlocks(trace: seq<State>, actions: seq<Action>, n: nat)
    requires IsRun(trace, actions) && n < |trace|
    requires trace[n].reader.SendConn? || trace[n].reader.SendNil? || trace[n].reader.SendResult? || trace[n].reader.SendAcceptError?
    ensures Enabled(trace[n], ReaderStep)
    ensures trace[n].acceptedConn.sent <= 1 && trace[n].streamDone.sent <= 1
  {
    RunsKeepInv(trace, actions, n);
  }

  // ------------------------------------------------------------------
  // Progress
  // ------------------------------------------------------------------

  /** The steps that happen without help from outside: everything but waiting on the peer. */
  predicate Guaranteed(s: State, a: Action) {
    && Enabled(s, a)
    && match a
       case RpcReturns(ok) => !ok && s.expired
       case Accept(ok) => !ok && (!s.listening || s.expired)
       case ReadEnds(result) => result.StreamError? && (s.conn.Closed? || s.expired)
       case Expire => false
       case _ => true
  }

  /** Every step but the clock's brings both threads nearer their end. */
  function Rank(s: State): nat {
    CallerRank(s.caller) + ReaderRank(s.reader)
  }

  function CallerRank(c: Caller): nat {
    match c
    case AwaitRpc => 5
    case CloseListener => 4
    case ReceiveConn => 3
    case CloseAccepted => 2
    case Select => 2
    case Deferred(_) => 1
    case Done(_) => 0
  }

  function ReaderRank(r: Reader): nat {
    match r
    case Accepting => 5
    case SendConn => 4
    case Reading => 3
    case SendResult(_) => 2
    case CloseOwn => 1
    case SendNil => 2
    case SendAcceptError => 1
    case Finished => 0
  }

  lemma StepsLowerRank(s: State, a: Action)
    requires Enabled(s, a)
    ensures if a.Expire? then Rank(Apply(s, a)) == Rank(s) else Rank(Apply(s, a)) < Rank(s)
  {
  }

  /** No run takes more than eleven steps. */
  lemma {:induction false} RunsAreShort(trace: seq<State>, actions: seq<Action>, n: nat)
    requires IsRun(trace, actions) && n < |trace|
    ensures n + Rank(trace[n]) + (if trace[n].expired then 0 else 1) <= 11
  {
    if n > 0 {
      RunsAreShort(trace, actions, n - 1);
      assert StepAt(trace, actions, n - 1);
      StepsLowerRank(trace[n - 1], actions[n - 1]);
    }
  }

  /** Both threads are over, each channel got exactly one value, and nothing is left open. */
  predicate Clean(s: State) {
    && s.caller.Done? && s.reader.Finished?
    && s.acceptedConn.sent == 1 && s.streamDone.sent == 1
    && !s.conn.Open? && !s.listening
  }

  /** Past the deadline nothing can get stuck: a run with no guaranteed step left is over and clean. */
  lemma StuckMeansClean(trace: seq<State>, actions: seq<Action>, n: nat)
    requires IsRun(trace, actions) && n < |trace| && trace[n].expired
    requires forall a :: !Guaranteed(trace[n], a)
    ensures Clean(trace[n])
  {
    RunsKeepInv(trace, actions, n);
    var s := trace[n];
    assert !Guaranteed(s, RpcReturns(false)) && !Guaranteed(s, CallerStep) && !Guaranteed(s, SelectExpired);
    assert !Guaranteed(s, Accept(false)) && !Guaranteed(s, ReadEnds(StreamError)) && !Guaranteed(s, ReaderStep);
  }

  /**
  After a failed RPC the caller needs no deadline: it can run at once, or it
  waits on a reader that can, because the listener is closed by then.
  */
  lemma FailurePathNeverWaits(trace: seq<State>, actions: seq<Action>, n: nat)
    requires IsRun(trace, actions) && n < |trace|
    requires trace[n].rpc.Failed? && !trace[n].caller.Done?
    ensures
      || Guaranteed(trace[n], CallerStep)
      || (trace[n].caller.ReceiveConn? && BeforeFirstSend(trace[n].reader) && (Guaranteed(trace[n], Accept(false)) || Guaranteed(trace[n], ReaderStep)))
  {
    RunsKeepInv(trace, actions, n);
  }

  /** A caller that gave up has closed the connection itself, if there was one. */
  predicate GivenUpMeansClosed(s: State) {
    && (s.caller.CloseAccepted? ==> s.acceptedConn.sent == 1)
    && (s.rpc.Failed? && (s.caller.Deferred? || s.caller.Done?) ==> !s.conn.Open? && s.acceptedConn.sent == 1)
  }

  lemma GivenUpByStep(s: State, a: Action)
    requires Inv(s) && GivenUpMeansClosed(s) && Enabled(s, a)
    ensures GivenUpMeansClosed(Apply(s, a))
  {
  }

  /** So after a failed RPC no read is left to ride out the deadline: none can end with a stream any more. */
  lemma {:induction false} FailureEndsTheRead(trace: seq<State>, actions: seq<Action>, n: nat)
    requires IsRun(trace, actions) && n < |trace|
    ensures GivenUpMeansClosed(trace[n])
    ensures trace[n].rpc.Failed? && trace[n].caller.Done? ==>
              !trace[n].conn.Open? && forall bytes :: !Enabled(trace[n], ReadEnds(Stream(bytes)))
    decreases n
  {
    if n > 0 {
      FailureEndsTheRead(trace, actions, n - 1);
      RunsKeepInv(trace, actions, n - 1);
      assert StepAt(trace, actions, n - 1);
      GivenUpByStep(trace[n - 1], actions[n - 1]);
    }
  }

  /** An accepted connection is closed once the reader has finished, whichever way the caller went. */
  lemma AcceptedConnIsClosed(trace: seq<State>, actions: seq<Action>, n: nat)
    requires IsRun(trace, actions) && n < |trace| && trace[n].reader.Finished?
    ensures !trace[n].conn.Open?
    ensures (exists i :: 0 <= i < n && actions[i] == Accept(true)) ==> trace[n].conn.Closed?
  {
    RunsKeepInv(trace, actions, n);
    if i :| 0 <= i < n && actions[i] == Accept(true) {
      assert StepAt(trace, actions, i);
      AcceptedStaysAccepted(trace, actions, i + 1, n);
    }
  }

  lemma {:induction false} AcceptedStaysAccepted(trace: seq<State>, actions: seq<Action>, i: nat, n: nat)
    requires IsRun(trace, actions) && i <= n < |trace| && !trace[i].conn.NeverAccepted?
    ensures !trace[n].conn.NeverAccepted?
  {
    if i < n {
      AcceptedStaysAccepted(trace, actions, i, n - 1);
      assert StepAt(trace, actions, n - 1);
    }
  }
}
