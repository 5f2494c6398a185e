/**
The fetch side of the bridge: the ref advertisement relayed to git, then one
POST per command block (cmd/gitssh/bridge.go:148-217, pktline.go:82-121).
What the proxy answers is an input of the model.
*/
module GitFetch {
  import opened ByteStrings
  import opened Wrappers
  import opened PktLine

  // ------------------------------------------------------------------
  // The session's requests
  // ------------------------------------------------------------------

  /** The request blocks of a whole session, and the bytes behind the point where it stops. */
  datatype Requests = Requests(blocks: seq<Bytes>, clean: bool, unread: Bytes)

  /** Blocks up to the first bare flush, or up to where no block follows. */
  function SessionRequests(s: Bytes): Requests
    decreases |s|
  {
    match NextBlock(s)
    case NoBlock(e, left) => Requests([], IsEof(e), left)
    case Block(bytes, rest) =>
      if bytes == FLUSH then Requests([], true, rest)
      else
        var more := SessionRequests(rest);
        more.(blocks := [bytes] + more.blocks)
  }

  /** What the proxy does with each POST: a response body relayed in full, or a failure, which is also what comes after the last. */
  type Replies = seq<Option<Bytes>>

  predicate Answered(replies: Replies, k: nat) {
    k < |replies| && replies[k].Some?
  }

  predicate AllAnswered(replies: Replies, n: int) {
    forall k: nat :: k < n ==> Answered(replies, k)
  }

  /** What reaches git from the first n responses. */
  function Answers(replies: Replies, n: nat): Bytes {
    if n == 0 then [] else Answers(replies, n - 1) + if Answered(replies, n - 1) then replies[n - 1].value else []
  }

  /** bridgeFetch behind the advertisement: posts are the POST bodies in order, out what git reads. */
  method BridgeFetch(input: Bytes, replies: Replies) returns (posts: seq<Bytes>, out: Bytes, ok: bool)
    ensures posts <= SessionRequests(input).blocks
    // it goes on past every answered POST and stops at the first that is not
    ensures AllAnswered(replies, |posts| - 1)
    ensures posts != SessionRequests(input).blocks ==> posts != [] && !Answered(replies, |posts| - 1)
    ensures ok <==> posts == SessionRequests(input).blocks && SessionRequests(input).clean && AllAnswered(replies, |posts|)
    ensures out == Answers(replies, |posts|)
  {
    var p := new PktReader(input);
    posts, out := [], [];
    ghost var all := SessionRequests(input);
    assert Continues(all, [], input);
    while true
      invariant fresh(p)
      invariant Continues(all, posts, p.input)
      invariant AllAnswered(replies, |posts|)
      invariant out == Answers(replies, |posts|)
      decreases |p.input|
    {
      var r := NextRequest(p, all, posts);
      if r.Request? {
        posts := posts + [r.bytes];
        if !Answered(replies, |posts| - 1) {
          return posts, out, false;
        }
        out := out + replies[|posts| - 1].value;
      } else {
        return posts, out, r.NoMore? || IsEof(r.error);
      }
    }
  }

  /** One request block, or the end of the session. */
  method NextRequest(p: PktReader, ghost all: Requests, ghost posts: seq<Bytes>) returns (r: RequestBlock)
    requires Continues(all, posts, p.input)
    modifies p
    ensures r.Request? ==> Continues(all, posts + [r.bytes], p.input) && |p.input| < |old(p.input)|
    ensures r.Request? ==> posts + [r.bytes] <= all.blocks
    ensures !r.Request? ==> all.blocks == posts && (all.clean <==> r.NoMore? || IsEof(r.error))
  {
    ghost var here := p.input;
    r := p.ReadRequestBlock();
    if r.Request? {
      BlockContinues(all, posts, here);
    } else {
      NothingContinues(all, posts, here);
    }
  }

  /** The whole session is what was posted so far and the session of what is left. */
  ghost predicate Continues(all: Requests, posts: seq<Bytes>, s: Bytes) {
    all == SessionRequests(s).(blocks := posts + SessionRequests(s).blocks)
  }

  lemma NothingContinues(all: Requests, posts: seq<Bytes>, s: Bytes)
    requires Continues(all, posts, s)
    requires NextBlock(s).NoBlock? || NextBlock(s).bytes == FLUSH
    ensures all.blocks == posts
    ensures all.clean <==> NextBlock(s).Block? || IsEof(NextBlock(s).error)
  {
    assert posts + [] == posts;
  }

  lemma BlockContinues(all: Requests, posts: seq<Bytes>, s: Bytes)
    requires Continues(all, posts, s)
    requires NextBlock(s).Block? && NextBlock(s).bytes != FLUSH
    ensures Continues(all, posts + [NextBlock(s).bytes], NextBlock(s).rest)
    ensures |posts| < |all.blocks| && all.blocks[..|posts| + 1] == posts + [NextBlock(s).bytes]
  {
    var bytes, more := NextBlock(s).bytes, SessionRequests(NextBlock(s).rest).blocks;
    assert posts + ([bytes] + more) == (posts + [bytes]) + more;
  }

  // ------------------------------------------------------------------
  // Exactly git's blocks
  // ------------------------------------------------------------------

  /** The bytes git writes for these command blocks. */
  function Written(blocks: seq<seq<Bytes>>): Bytes {
    if blocks == [] then [] else BlockOf(blocks[0]) + Written(blocks[1..])
  }

  /** The same, block by block. */
  function BlockBytes(blocks: seq<seq<Bytes>>): seq<Bytes> {
    if blocks == [] then [] else [BlockOf(blocks[0])] + BlockBytes(blocks[1..])
  }

  ghost predicate Commands(blocks: seq<seq<Bytes>>) {
    forall i :: 0 <= i < |blocks| ==> Inner(blocks[i]) && blocks[i] != []
  }

  lemma BareBlock()
    ensures BlockOf([]) == FLUSH
  {
  }

  lemma CommandIsNotBare(packets: seq<Bytes>)
    requires Inner(packets) && packets != []
    ensures BlockOf(packets) != FLUSH
  {
    assert IsPacket(packets[0]);
    assert |Join(packets)| >= |packets[0]| >= 4;
  }

  lemma CommandIsOneRequest(packets: seq<Bytes>, rest: Bytes)
    requires Inner(packets) && packets != []
    ensures SessionRequests(BlockOf(packets) + rest)
         == SessionRequests(rest).(blocks := [BlockOf(packets)] + SessionRequests(rest).blocks)
  {
    BlockReadsBack(packets, rest);
    CommandIsNotBare(packets);
  }

  lemma SplitsNext(packets: seq<Bytes>, more: seq<seq<Bytes>>, tail: Bytes)
    ensures Written([packets] + more) + tail == BlockOf(packets) + (Written(more) + tail)
    ensures BlockBytes([packets] + more) == [BlockOf(packets)] + BlockBytes(more)
  {
    assert ([packets] + more)[1..] == more;
  }

  /** Whatever follows git's command blocks, the requests are those blocks and then those of what follows. */
  lemma {:induction false} RequestsAreGitsBlocks(blocks: seq<seq<Bytes>>, tail: Bytes)
    requires Commands(blocks)
    ensures SessionRequests(Written(blocks) + tail) ==
      SessionRequests(tail).(blocks := BlockBytes(blocks) + SessionRequests(tail).blocks)
  {
    if blocks == [] {
      assert Written(blocks) + tail == tail;
      assert BlockBytes(blocks) + SessionRequests(tail).blocks == SessionRequests(tail).blocks;
    } else {
      var first, more := blocks[0], blocks[1..];
      assert blocks == [first] + more;
      SplitsNext(first, more, tail);
      CommandIsOneRequest(first, Written(more) + tail);
      RequestsAreGitsBlocks(more, tail);
      Regroup(BlockOf(first), BlockBytes(more), SessionRequests(tail).blocks);
    }
  }

  lemma Regroup(head: Bytes, middle: seq<Bytes>, end: seq<Bytes>)
    ensures [head] + (middle + end) == [head] + middle + end
  {
  }

  /** A session git ends with a bare flush: its blocks are posted byte for byte, and nothing behind the flush is read. */
  lemma SessionEndedByFlush(blocks: seq<seq<Bytes>>, behind: Bytes)
    requires Commands(blocks)
    ensures SessionRequests(Written(blocks) + (FLUSH + behind)) == Requests(BlockBytes(blocks), true, behind)
  {
    RequestsAreGitsBlocks(blocks, FLUSH + behind);
    BlockReadsBack([], behind);
    assert BlockOf([]) == FLUSH;
    assert BlockBytes(blocks) + [] == BlockBytes(blocks);
  }

  /**
  A session whose stream ends, or breaks, inside a block: the complete blocks
  are posted, the incomplete one never is. It counts as a clean end when the
  stream stops at a packet boundary, or right behind a length field.
  */
  lemma SessionCutShort(blocks: seq<seq<Bytes>>, partial: seq<Bytes>, end: Bytes)
    requires Commands(blocks) && Inner(partial) && NextPacket(end).Stopped?
    ensures SessionRequests(Written(blocks) + (Join(partial) + end))
      == Requests(BlockBytes(blocks), IsEof(NextPacket(end).error), NextPacket(end).left)
  {
    RequestsAreGitsBlocks(blocks, Join(partial) + end);
    CutBlockIsNone(partial, end);
    assert BlockBytes(blocks) + [] == BlockBytes(blocks);
  }

  /** And for every stream at all: the requests are a prefix of it, cut into non-empty flush-ended blocks. */
  lemma {:induction false} EveryStreamSplits(s: Bytes) returns (blocks: seq<seq<Bytes>>, tail: Bytes)
    ensures Commands(blocks) && s == Written(blocks) + tail
    ensures SessionRequests(s).blocks == BlockBytes(blocks)
    ensures NextBlock(tail).NoBlock? || NextBlock(tail).bytes == FLUSH
    decreases |s|
  {
    match NextBlock(s)
    case NoBlock(_, _) =>
      blocks, tail := [], s;
    case Block(bytes, rest) =>
      if bytes == FLUSH {
        blocks, tail := [], s;
      } else {
        var packets := CommandOf(s);
        var more, last := EveryStreamSplits(rest);
        blocks, tail := [packets] + more, last;
        SplitsNext(packets, more, tail);
      }
  }

  /** A block that is not a bare flush is some packets and a flush. */
  lemma CommandOf(s: Bytes) returns (packets: seq<Bytes>)
    requires NextBlock(s).Block? && NextBlock(s).bytes != FLUSH
    ensures packets != [] && Inner(packets) && NextBlock(s).bytes == BlockOf(packets)
  {
    packets := BlocksDecompose(s);
    BareBlock();
  }

  // ------------------------------------------------------------------
  // The advertisement
  // ------------------------------------------------------------------

  /** "# service=" */
  const SERVICE: Bytes := [35, 32, 115, 101, 114, 118, 105, 99, 101, 61]

  /** "version 2" */
  const VERSION_2: Bytes := [118, 101, 114, 115, 105, 111, 110, 32, 50]

  predicate IsServicePacket(p: Bytes) {
    |p| >= 4 && HasPrefix(p[4..], SERVICE)
  }

  /** What is cut off in front: a service packet with the flush behind it, or nothing. */
  function ServiceHeader(body: Bytes): Bytes {
    var first := NextPacket(body);
    if first.Got? && IsServicePacket(first.raw) && NextPacket(first.rest).Got? && NextPacket(first.rest).raw == FLUSH
    then first.raw + FLUSH else []
  }

  /** The body with any such header gone. */
  lemma HeaderCut(body: Bytes)
    ensures |ServiceHeader(body)| <= |body| && body == ServiceHeader(body) + body[|ServiceHeader(body)|..]
    ensures ServiceHeader(body) == [] ==> body[|ServiceHeader(body)|..] == body
    ensures ServiceHeader(body) != [] ==> body[|ServiceHeader(body)|..] == NextPacket(NextPacket(body).rest).rest
  {
    var h := ServiceHeader(body);
    if h != [] {
      var first := NextPacket(body);
      var next := NextPacket(first.rest);
      CutTwice(body, first.raw, first.rest, next.rest);
    }
  }

  lemma CutTwice(body: Bytes, a: Bytes, more: Bytes, rest: Bytes)
    requires body == a + more && more == FLUSH + rest
    ensures |a + FLUSH| <= |body| && body[|a + FLUSH|..] == rest && body == a + FLUSH + rest
  {
  }

  /** The advertisement without that header, provided a packet of the asked-for version opens it. */
  function Relayed(body: Bytes, v2: bool): Option<Bytes> {
    var h := ServiceHeader(body);
    if |h| > |body| then None else Opened(body[|h|..], h == [], v2)
  }

  /** rest, if a packet opens it that may stand there: no service packet without its flush, and version 2 if asked. */
  function Opened(rest: Bytes, bare: bool, v2: bool): Option<Bytes> {
    var opening := NextPacket(rest);
    if opening.Stopped? || (bare && IsServicePacket(opening.raw)) || (v2 && !HasPrefix(opening.raw[4..], VERSION_2)) then None
    else Some(rest)
  }

  /** The first packet git may read, behind at most one service packet and its flush. */
  method FirstAdvertisedPacket(p: PktReader) returns (first: PacketRead)
    modifies p
    ensures var body := old(p.input);
            var h := ServiceHeader(body);
            && (first.Stopped? <==> |h| > |body| || Opened(body[|h|..], h == [], false).None?)
            && (first.Got? ==> first == NextPacket(body[|h|..]) && p.input == first.rest)
  {
    ghost var body := p.input;
    HeaderCut(body);
    first := p.ReadPacket();
    if first.Got? && HasPrefix(first.raw[4..], SERVICE) {
      var next := p.ReadPacket();
      if next.Stopped? || next.raw != FLUSH {
        return Stopped(Broken, p.input);
      }
      first := p.ReadPacket();
    }
  }

  /** What relayAdvertisement writes to git; None when it fails. */
  method RelayAdvertisement(body: Bytes, v2: bool) returns (out: Option<Bytes>)
    ensures out == Relayed(body, v2)
  {
    var p := new PktReader(body);
    var first := FirstAdvertisedPacket(p);
    if first.Stopped? || (v2 && !HasPrefix(first.raw[4..], VERSION_2)) {
      return None;
    }
    out := Some(first.raw + p.input);
  }

  /** git reads the advertisement minus at most one leading service packet and its flush. */
  lemma AdvertisementIsASuffix(body: Bytes, v2: bool)
    ensures Relayed(body, v2).Some? ==> body == ServiceHeader(body) + Relayed(body, v2).value
    ensures ServiceHeader(body) == [] || exists p :: IsPacket(p) && IsServicePacket(p) && ServiceHeader(body) == p + FLUSH
  {
    HeaderCut(body);
    if ServiceHeader(body) != [] {
      ReadsWholePackets(body);
      var p := NextPacket(body).raw;
      assert IsPacket(p) && IsServicePacket(p) && ServiceHeader(body) == p + FLUSH;
    }
  }

  lemma HeaderIsRecognized(service: Bytes, advertisement: Bytes)
    requires IsPacket(service) && IsServicePacket(service)
    ensures ServiceHeader(service + (FLUSH + advertisement)) == service + FLUSH
  {
    PacketReadsBack(service, FLUSH + advertisement);
    FlushIsPacket();
    PacketReadsBack(FLUSH, advertisement);
  }

  lemma RelayedBehind(header: Bytes, rest: Bytes, v2: bool)
    requires ServiceHeader(header + rest) == header
    ensures Relayed(header + rest, v2) == Opened(rest, header == [], v2)
  {
    assert (header + rest)[|header|..] == rest;
  }

  lemma RelayedWithHeader(service: Bytes, advertisement: Bytes, v2: bool)
    requires IsPacket(service) && IsServicePacket(service)
    ensures Relayed(service + (FLUSH + advertisement), v2) == Opened(advertisement, false, v2)
  {
    HeaderIsRecognized(service, advertisement);
    var header := service + FLUSH;
    assert service + (FLUSH + advertisement) == header + advertisement;
    RelayedBehind(header, advertisement, v2);
  }

  lemma RelayedBare(advertisement: Bytes, v2: bool)
    requires NextPacket(advertisement).Got? && !IsServicePacket(NextPacket(advertisement).raw)
    ensures Relayed(advertisement, v2) == Opened(advertisement, true, v2)
  {
    assert [] + advertisement == advertisement;
    RelayedBehind([], advertisement, v2);
  }

  lemma OpenedEitherWay(rest: Bytes, v2: bool)
    requires NextPacket(rest).Got? && !IsServicePacket(NextPacket(rest).raw)
    ensures Opened(rest, true, v2) == Opened(rest, false, v2)
  {
  }

  /** A server that sends the header and one that omits it look the same to git. */
  lemma HeaderMakesNoDifference(service: Bytes, advertisement: Bytes, v2: bool)
    requires IsPacket(service) && IsServicePacket(service)
    requires NextPacket(advertisement).Got? && !IsServicePacket(NextPacket(advertisement).raw)
    ensures Relayed(service + (FLUSH + advertisement), v2) == Relayed(advertisement, v2)
  {
    RelayedWithHeader(service, advertisement, v2);
    RelayedBare(advertisement, v2);
    OpenedEitherWay(advertisement, v2);
  }

  lemma ServiceText(p: Bytes)
    requires |p| >= 4
    ensures IsServicePacket(p) <==> Says(p[4..], "# service=")
  {
    assert Text(SERVICE) == "# service=";
    SamePrefix(p[4..], SERVICE, "# service=");
  }

  lemma VersionText(payload: Bytes)
    ensures HasPrefix(payload, VERSION_2) <==> Says(payload, "version 2")
  {
    assert Text(VERSION_2) == "version 2";
    SamePrefix(payload, VERSION_2, "version 2");
  }

  /**
  In the protocol's own terms: with or without a packet that says "# service="
  and its 0000 in front, git reads the advertisement, unless version 2 was
  asked for and its first packet does not say "version 2".
  */
  lemma RelayInGitsTerms(service: Bytes, flush: Bytes, advertisement: Bytes, v2: bool)
    requires IsPacket(service) && Says(service[4..], "# service=") && Text(flush) == "0000"
    requires NextPacket(advertisement).Got? && !Says(NextPacket(advertisement).raw[4..], "# service=")
    ensures var relayed := if v2 && !Says(NextPacket(advertisement).raw[4..], "version 2") then None else Some(advertisement);
            Relayed(service + (flush + advertisement), v2) == relayed && Relayed(advertisement, v2) == relayed
  {
    ControlPackets(flush, []);
    ServiceText(service);
    ServiceText(NextPacket(advertisement).raw);
    HeaderMakesNoDifference(service, advertisement, v2);
    RelayedBare(advertisement, v2);
    VersionText(NextPacket(advertisement).raw[4..]);
  }
}
