/**
The cap-broker's wire frames: a 4-byte big-endian length and that many bytes,
capped (cmd/capbroker/protocol.go:19-26, 65-112). Bodies are opaque bytes.
*/
module Frames {
  import opened ByteStrings
  import opened Wrappers

  const MAX_FRAME_SIZE: nat := 1024 * 1024
  const WIDTH: int := 0x1_0000_0000

  /** binary.BigEndian.PutUint32(uint32(n)): the conversion keeps the low 32 bits. */
  function Header(n: nat): (h: Bytes)
    ensures |h| == 4
  {
    var m := n % WIDTH;
    [(m / 0x100_0000) as byte, (m / 0x1_0000 % 0x100) as byte, (m / 0x100 % 0x100) as byte, (m % 0x100) as byte]
  }

  function Length(h: Bytes): (n: nat)
    requires |h| == 4
    ensures n < WIDTH
  {
    h[0] as int * 0x100_0000 + h[1] as int * 0x1_0000 + h[2] as int * 0x100 + h[3] as int
  }

  lemma LengthOfHeader(n: nat)
    ensures Length(Header(n)) == n % WIDTH
  {
    var m := n % WIDTH;
    assert m == 0x100 * (m / 0x100) + m % 0x100;
    assert m / 0x100 == 0x100 * (m / 0x1_0000) + m / 0x100 % 0x100;
    assert m / 0x1_0000 == 0x100 * (m / 0x100_0000) + m / 0x1_0000 % 0x100;
  }

  lemma HeaderOfLength(h: Bytes)
    requires |h| == 4
    ensures Header(Length(h)) == h
  {
    var n := Length(h);
    assert n / 0x100_0000 == h[0] as int;
    assert n / 0x1_0000 == h[0] as int * 0x100 + h[1] as int;
    assert n / 0x100 == h[0] as int * 0x1_0000 + h[1] as int * 0x100 + h[2] as int;
  }

  // ------------------------------------------------------------------
  // What is written and what is read
  // ------------------------------------------------------------------

  function Encode(body: Bytes): Bytes {
    Header(|body|) + body
  }

  datatype Read =
    | Frame(body: Bytes)
    | EndOfStream        // no header byte at all: io.EOF, verbatim
    | HeaderCut
    | OverCap(length: nat)
    | BodyCut(nothing: bool)  // nothing: not one body byte came, so the error wraps io.EOF

  /** What readFrame makes of a stream that holds data, and what it leaves unread. */
  function Decode(data: Bytes, maxSize: nat): (Read, Bytes) {
    if data == [] then (EndOfStream, [])
    else if |data| < 4 then (HeaderCut, [])
    else
      var n := Length(data[..4]);
      if n > maxSize then (OverCap(n), data[4..])
      else if |data| < 4 + n then (BodyCut(|data| == 4), [])
      else (Frame(data[4..4 + n]), data[4 + n..])
  }

  // ------------------------------------------------------------------
  // The two procedures, on a stream
  // ------------------------------------------------------------------

  /** A byte stream: writes append, reads consume. */
  class Stream {
    var data: Bytes

    constructor ()
      ensures data == []
    {
      data := [];
    }

    method Write(p: Bytes)
      modifies this
      ensures data == old(data) + p
    {
      data := data + p;
    }

    /** io.ReadFull: n bytes, or whatever there is when that is less. */
    method ReadFull(n: nat) returns (buf: Bytes)
      modifies this
      ensures |buf| <= n && old(data) == buf + data
      ensures |buf| < n ==> data == []
    {
      var k := if n <= |data| then n else |data|;
      buf := data[..k];
      data := data[k..];
    }
  }

  method WriteFrame(w: Stream, body: Bytes, maxSize: nat) returns (ok: bool)
    modifies w
    ensures ok <==> |body| <= maxSize
    ensures w.data == old(w.data) + if ok then Encode(body) else []
  {
    if |body| > maxSize {
      assert w.data == w.data + [];
      return false;
    }
    w.Write(Header(|body|));
    w.Write(body);
    assert old(w.data) + Header(|body|) + body == old(w.data) + Encode(body);
    ok := true;
  }

  method ReadFrame(r: Stream, maxSize: nat) returns (res: Read)
    modifies r
    ensures (res, r.data) == Decode(old(r.data), maxSize)
  {
    ghost var data := r.data;
    var header := r.ReadFull(4);
    if |header| < 4 {
      return if header == [] then EndOfStream else HeaderCut;
    }
    assert header == data[..4] && r.data == data[4..];
    var n := Length(header);
    if n > maxSize {
      return OverCap(n);
    }
    var body := r.ReadFull(n);
    if |body| < n {
      return BodyCut(body == []);
    }
    assert data == header + body + r.data;
    res := Frame(body);
  }

  // ------------------------------------------------------------------
  // Laws
  // ------------------------------------------------------------------

  /** A frame read back is the body written, and what follows it is untouched. */
  lemma RoundTrip(body: Bytes, rest: Bytes, maxSize: nat)
    requires |body| <= maxSize && |body| < WIDTH
    ensures Decode(Encode(body) + rest, maxSize) == (Frame(body), rest)
  {
    var data := Encode(body) + rest;
    LengthOfHeader(|body|);
    assert data[..4] == Header(|body|);
    assert data[4..4 + |body|] == body;
    assert data[4 + |body|..] == rest;
  }

  /** A body that reads back came from exactly its own encoding. */
  lemma OnlyEncodingsDecode(data: Bytes, maxSize: nat)
    requires Decode(data, maxSize).0.Frame?
    ensures var (frame, rest) := Decode(data, maxSize);
      data == Encode(frame.body) + rest && |frame.body| <= maxSize
  {
    HeaderOfLength(data[..4]);
    var n := Length(data[..4]);
    assert data == data[..4] + data[4..4 + n] + data[4 + n..];
  }

  function EncodeAll(bodies: seq<Bytes>): Bytes {
    if bodies == [] then [] else Encode(bodies[0]) + EncodeAll(bodies[1..])
  }

  /** Reads count frames off data, stopping at the first that is none. */
  function DecodeMany(data: Bytes, count: nat, maxSize: nat): (seq<Bytes>, Bytes) {
    if count == 0 then ([], data)
    else
      var (frame, rest) := Decode(data, maxSize);
      if !frame.Frame? then ([], data)
      else
        var (bodies, last) := DecodeMany(rest, count - 1, maxSize);
        ([frame.body] + bodies, last)
  }

  /** Any frames within the cap, written one after the other, read back in order. */
  lemma {:induction false} ManyRoundTrip(bodies: seq<Bytes>, rest: Bytes, maxSize: nat)
    requires maxSize < WIDTH
    requires forall i :: 0 <= i < |bodies| ==> |bodies[i]| <= maxSize
    ensures DecodeMany(EncodeAll(bodies) + rest, |bodies|, maxSize) == (bodies, rest)
  {
    if bodies == [] {
      assert EncodeAll(bodies) + rest == rest;
    } else {
      var tail := EncodeAll(bodies[1..]) + rest;
      assert EncodeAll(bodies) + rest == Encode(bodies[0]) + tail;
      RoundTrip(bodies[0], tail, maxSize);
      ManyRoundTrip(bodies[1..], rest, maxSize);
      assert [bodies[0]] + bodies[1..] == bodies;
    }
  }

  /** A frame cut anywhere is never taken for a frame. */
  lemma CutNeverReads(body: Bytes, k: nat, maxSize: nat)
    requires |body| < WIDTH && k < |Encode(body)|
    ensures !Decode(Encode(body)[..k], maxSize).0.Frame?
  {
    LengthOfHeader(|body|);
    if k >= 4 {
      assert Encode(body)[..k][..4] == Header(|body|);
    }
  }

  /** The reader refuses a length over the cap exactly when the writer refuses a body of it. */
  lemma SidesRefuseAlike(body: Bytes, maxSize: nat)
    requires |body| < WIDTH
    ensures Decode(Encode(body), maxSize).0.OverCap? <==> |body| > maxSize
  {
    LengthOfHeader(|body|);
    assert Encode(body)[..4] == Header(|body|);
  }

  /** io.EOF is what errors.Is finds in the result of a read. */
  predicate LooksLikeEof(r: Read) {
    r.EndOfStream? || (r.BodyCut? && r.nothing)
  }

  /**
  The verbatim end-of-stream comes from the empty stream alone. Under
  errors.Is, though, a bare header announcing a body reads as a clean close too.
  */
  lemma CleanCloseExactly(data: Bytes, maxSize: nat)
    ensures Decode(data, maxSize).0.EndOfStream? <==> data == []
    ensures LooksLikeEof(Decode(data, maxSize).0) <==> data == [] || (|data| == 4 && 0 < Length(data) <= maxSize)
  {
    if |data| == 4 {
      assert data[..4] == data;
    }
  }
}
