/**
Reading git's pkt-lines off a stream without changing a byte of them
(cmd/gitssh/pktline.go). A packet is a four-digit hexadecimal length that
counts itself, then the payload; 0000 is the flush packet, 0001 and 0002 are
control packets without payload (gitprotocol-common, "pkt-line Format").
*/
module PktLine {
  import opened ByteStrings
  import opened Wrappers

  const FLUSH: Bytes := [ZERO, ZERO, ZERO, ZERO]

  /** The errors a read can end with, as far as errors.Is(err, io.EOF) sees them. */
  datatype Error =
    | Eof         // the stream ended at a packet boundary
    | WrappedEof  // a complete length field with not one payload byte behind it
    | Broken      // anything else

  predicate IsEof(e: Error) {
    e.Eof? || e.WrappedEof?
  }

  // ------------------------------------------------------------------
  // One packet
  // ------------------------------------------------------------------

  function HexDigit(b: byte): Option<nat> {
    if 48 <= b <= 57 then Some(b as int - 48)
    else if 97 <= b <= 102 then Some(b as int - 87)
    else if 65 <= b <= 70 then Some(b as int - 55)
    else None
  }

  /** strconv.ParseUint(h, 16, 32) of a length field. */
  function HexValue(h: Bytes): Option<nat> {
    if h == [] then Some(0)
    else
      var high, low := HexValue(h[..|h| - 1]), HexDigit(h[|h| - 1]);
      if high.Some? && low.Some? then Some(high.value * 16 + low.value) else None
  }

  datatype PacketRead = Got(raw: Bytes, rest: Bytes) | Stopped(error: Error, left: Bytes)

  /** What readPacket makes of the bytes s. The payload is raw[4..], empty for a control packet. */
  function NextPacket(s: Bytes): (r: PacketRead)
    ensures r.Got? ==> s == r.raw + r.rest && |r.raw| >= 4
  {
    if s == [] then Stopped(Eof, [])
    else if |s| < 4 then Stopped(Broken, [])
    else
      var n := HexValue(s[..4]);
      if n.None? || n.value == 3 then Stopped(Broken, s[4..])
      else if n.value < 4 then Got(s[..4], s[4..])
      else if |s| < n.value then Stopped(if |s| == 4 then WrappedEof else Broken, [])
      else Got(s[..n.value], s[n.value..])
  }

  /** p is one whole packet. */
  predicate IsPacket(p: Bytes) {
    NextPacket(p) == Got(p, [])
  }

  // ------------------------------------------------------------------
  // The format, from the writer's side
  // ------------------------------------------------------------------

  /** The hexadecimal digit of d, in either case. */
  function DigitChar(d: nat, upper: bool): byte
    requires d < 16
  {
    if d < 10 then (48 + d) as byte else if upper then (55 + d) as byte else (87 + d) as byte
  }

  /** Which of the four digits are written in upper case. */
  type Cases = (bool, bool, bool, bool)

  /** The four digits of n, most significant first. */
  function LengthField(n: nat, cases: Cases): Bytes
    requires n < 65536
  {
    [DigitChar(n / 4096 % 16, cases.0), DigitChar(n / 256 % 16, cases.1),
     DigitChar(n / 16 % 16, cases.2), DigitChar(n % 16, cases.3)]
  }

  /** A packet as git writes one: its length, itself included, and its payload. */
  function WritePacket(payload: Bytes, cases: Cases): Bytes
    requires |payload| <= 65531
  {
    LengthField(|payload| + 4, cases) + payload
  }

  lemma DigitReads(d: nat, upper: bool)
    requires d < 16
    ensures HexDigit(DigitChar(d, upper)) == Some(d)
  {
  }

  lemma FourDigits(h: Bytes)
    requires |h| == 4
    ensures HexValue(h).Some? <==> forall i :: 0 <= i < 4 ==> HexDigit(h[i]).Some?
    ensures HexValue(h).Some? ==>
              HexValue(h).value == HexDigit(h[0]).value * 4096 + HexDigit(h[1]).value * 256
                                   + HexDigit(h[2]).value * 16 + HexDigit(h[3]).value
  {
    var h3, h2, h1, h0 := h[..3], h[..2], h[..1], h[..0];
    assert h3[..2] == h2 && h2[..1] == h1 && h1[..0] == h0 && h0 == [];
    assert HexValue(h0) == Some(0);
    assert HexValue(h1) == HexDigit(h[0]);
    assert HexValue(h2).Some? <==> HexDigit(h[0]).Some? && HexDigit(h[1]).Some?;
    assert HexValue(h3).Some? <==> HexValue(h2).Some? && HexDigit(h[2]).Some?;
  }

  lemma DigitsOf(n: nat)
    requires n < 65536
    ensures n == n / 4096 % 16 * 4096 + n / 256 % 16 * 256 + n / 16 % 16 * 16 + n % 16
  {
    assert n / 16 == n / 256 * 16 + n / 16 % 16;
    assert n / 256 == n / 4096 * 16 + n / 256 % 16;
    assert n / 4096 % 16 == n / 4096;
  }

  /** A length field is read as the number it writes, in any mix of cases. */
  lemma LengthReads(n: nat, cases: Cases)
    requires n < 65536
    ensures HexValue(LengthField(n, cases)) == Some(n)
  {
    DigitReads(n / 4096 % 16, cases.0);
    DigitReads(n / 256 % 16, cases.1);
    DigitReads(n / 16 % 16, cases.2);
    DigitReads(n % 16, cases.3);
    FourDigits(LengthField(n, cases));
    DigitsOf(n);
  }

  /** Every packet git can write is read whole, whatever follows, with the payload it was given. */
  lemma WrittenPacketReads(payload: Bytes, cases: Cases, rest: Bytes)
    requires |payload| <= 65531
    ensures NextPacket(WritePacket(payload, cases) + rest) == Got(WritePacket(payload, cases), rest)
    ensures IsPacket(WritePacket(payload, cases)) && WritePacket(payload, cases)[4..] == payload
  {
    var p := WritePacket(payload, cases);
    LengthReads(|payload| + 4, cases);
    assert (p + rest)[..4] == LengthField(|payload| + 4, cases) && p[..4] == LengthField(|payload| + 4, cases);
    assert (p + rest)[..|p|] == p && (p + rest)[|p|..] == rest;
    assert p[..|p|] == p && p[|p|..] == [];
  }

  /** A written packet cut short never reads as one; nothing, or a bare length field, passes for an end of stream. */
  lemma CutPacketStops(payload: Bytes, cases: Cases, k: nat)
    requires |payload| <= 65531 && k < |payload| + 4
    ensures NextPacket(WritePacket(payload, cases)[..k])
         == Stopped(if k == 0 then Eof else if k == 4 then WrappedEof else Broken, [])
  {
    var p := WritePacket(payload, cases);
    LengthReads(|payload| + 4, cases);
    if k >= 4 {
      assert p[..k][..4] == LengthField(|payload| + 4, cases);
    }
  }

  const LOWER: Cases := (false, false, false, false)

  lemma SmallFields()
    ensures Text(LengthField(0, LOWER)) == "0000" && Text(LengthField(1, LOWER)) == "0001"
    ensures Text(LengthField(2, LOWER)) == "0002" && Text(LengthField(3, LOWER)) == "0003"
  {
  }

  lemma FieldRead(n: nat, rest: Bytes)
    requires n < 4
    ensures NextPacket(LengthField(n, LOWER) + rest)
         == if n == 3 then Stopped(Broken, rest) else Got(LengthField(n, LOWER), rest)
  {
    var field := LengthField(n, LOWER);
    LengthReads(n, LOWER);
    assert (field + rest)[..4] == field && (field + rest)[4..] == rest;
  }

  /** 0000, 0001 and 0002 are packets without payload, 0000 is the flush, and 0003 is refused. */
  lemma ControlPackets(field: Bytes, rest: Bytes)
    ensures Text(field) == "0000" || Text(field) == "0001" || Text(field) == "0002" ==>
              NextPacket(field + rest) == Got(field, rest)
    ensures Text(field) == "0003" ==> NextPacket(field + rest) == Stopped(Broken, rest)
    ensures Text(field) == "0000" <==> field == FLUSH
  {
    SmallFields();
    SamePrefix(field, LengthField(0, LOWER), "0000");
    SamePrefix(field, LengthField(1, LOWER), "0001");
    SamePrefix(field, LengthField(2, LOWER), "0002");
    SamePrefix(field, LengthField(3, LOWER), "0003");
    FieldRead(0, rest);
    FieldRead(1, rest);
    FieldRead(2, rest);
    FieldRead(3, rest);
  }

  lemma HexCharacter(b: byte)
    requires HexDigit(b).Some?
    ensures (b as int) as char in "0123456789abcdefABCDEF"
  {
    var i := if b <= 57 then b as int - 48 else if b >= 97 then b as int - 87 else b as int - 49;
    assert "0123456789abcdefABCDEF"[i] == (b as int) as char;
  }

  /** A length field with any other character in it is refused. */
  lemma OtherFieldsRefused(field: Bytes, rest: Bytes, i: nat)
    requires |field| == 4 && i < 4 && Text(field)[i] !in "0123456789abcdefABCDEF"
    ensures NextPacket(field + rest) == Stopped(Broken, rest)
  {
    assert (field + rest)[..4] == field && (field + rest)[4..] == rest;
    if HexDigit(field[i]).Some? {
      HexCharacter(field[i]);
    }
    FourDigits(field);
  }

  /** And nothing else is read: a packet is a control packet, or what git writes for its payload. */
  lemma OnlyWrittenPackets(s: Bytes) returns (cases: Cases)
    requires NextPacket(s).Got?
    ensures var raw := NextPacket(s).raw;
            || Text(raw) == "0000" || Text(raw) == "0001" || Text(raw) == "0002"
            || (4 <= |raw| <= 65535 && raw == WritePacket(raw[4..], cases))
  {
    var field, raw := s[..4], NextPacket(s).raw;
    var n := HexValue(field).value;
    FourDigits(field);
    cases := (field[0] <= 70, field[1] <= 70, field[2] <= 70, field[3] <= 70);
    WritesBack(field, cases);
    if n >= 4 {
      assert raw[..4] == field && raw == raw[..4] + raw[4..];
    } else {
      SmallField(n, cases);
    }
  }

  lemma SmallField(n: nat, cases: Cases)
    requires n <= 2
    ensures Text(LengthField(n, cases)) == if n == 0 then "0000" else if n == 1 then "0001" else "0002"
  {
  }

  lemma WritesBack(field: Bytes, cases: Cases)
    requires |field| == 4 && HexValue(field).Some?
    requires cases == (field[0] <= 70, field[1] <= 70, field[2] <= 70, field[3] <= 70)
    ensures HexValue(field).value < 65536 && field == LengthField(HexValue(field).value, cases)
  {
    FourDigits(field);
    var a, b, c, d := HexDigit(field[0]).value, HexDigit(field[1]).value, HexDigit(field[2]).value, HexDigit(field[3]).value;
    DigitsApart(a, b, c, d);
  }

  lemma DigitsApart(a: nat, b: nat, c: nat, d: nat)
    requires a < 16 && b < 16 && c < 16 && d < 16
    ensures var n := a * 4096 + b * 256 + c * 16 + d;
            n < 65536 && n / 4096 % 16 == a && n / 256 % 16 == b && n / 16 % 16 == c && n % 16 == d
  {
    var n := a * 4096 + b * 256 + c * 16 + d;
    assert n / 16 == a * 256 + b * 16 + c;
    assert n / 256 == a * 16 + b;
    assert n / 4096 == a;
  }

  /** A packet is read off the front whatever follows it. */
  lemma PacketReadsBack(p: Bytes, rest: Bytes)
    requires IsPacket(p)
    ensures NextPacket(p + rest) == Got(p, rest)
  {
    var s := p + rest;
    assert |p| >= 4 && s[..4] == p[..4];
    assert s[..|p|] == p && s[|p|..] == rest;
  }

  /** Whatever is read off the front is one whole packet. */
  lemma ReadsWholePackets(s: Bytes)
    requires NextPacket(s).Got?
    ensures IsPacket(NextPacket(s).raw)
  {
    var p := NextPacket(s).raw;
    assert p[..4] == s[..4];
    assert p[..|p|] == p && p[|p|..] == [];
  }

  lemma FlushIsPacket()
    ensures IsPacket(FLUSH)
  {
    assert FLUSH[..4] == FLUSH && FLUSH[4..] == [];
    assert FLUSH[..3] == [ZERO, ZERO, ZERO] && [ZERO, ZERO, ZERO][..2] == [ZERO, ZERO] && [ZERO, ZERO][..1] == [ZERO];
    assert HexValue([ZERO]) == Some(0);
    assert HexValue([ZERO, ZERO]) == Some(0);
    assert HexValue([ZERO, ZERO, ZERO]) == Some(0);
  }

  // ------------------------------------------------------------------
  // Blocks
  // ------------------------------------------------------------------

  datatype BlockRead = Block(bytes: Bytes, rest: Bytes) | NoBlock(error: Error, left: Bytes)

  /** What readRawBlock makes of s: the packets through the first flush. */
  function NextBlock(s: Bytes): (r: BlockRead)
    ensures r.Block? ==> s == r.bytes + r.rest && |r.bytes| >= 4
    decreases |s|
  {
    match NextPacket(s)
    case Stopped(e, left) => NoBlock(e, left)
    case Got(raw, rest) =>
      if raw == FLUSH then Block(raw, rest)
      else
        match NextBlock(rest)
        case NoBlock(e, left) => NoBlock(e, left)
        case Block(bytes, last) =>
          assert s == raw + bytes + last;
          Block(raw + bytes, last)
  }

  /** Packets one after the other. */
  function Join(packets: seq<Bytes>): Bytes {
    if packets == [] then [] else packets[0] + Join(packets[1..])
  }

  /** Packets none of which is a flush: delim and response-end are allowed. */
  ghost predicate Inner(packets: seq<Bytes>) {
    forall i :: 0 <= i < |packets| ==> IsPacket(packets[i]) && packets[i] != FLUSH
  }

  /** The bytes of a block: its inner packets and the flush that ends it. */
  function BlockOf(packets: seq<Bytes>): Bytes {
    Join(packets) + FLUSH
  }

  /** A block reads back byte for byte, and reading stops right behind its flush. */
  lemma {:induction false} BlockReadsBack(packets: seq<Bytes>, rest: Bytes)
    requires Inner(packets)
    ensures NextBlock(BlockOf(packets) + rest) == Block(BlockOf(packets), rest)
  {
    if packets == [] {
      FlushIsPacket();
      PacketReadsBack(FLUSH, rest);
      assert BlockOf(packets) == FLUSH;
    } else {
      var tail := BlockOf(packets[1..]);
      assert BlockOf(packets) == packets[0] + tail;
      assert BlockOf(packets) + rest == packets[0] + (tail + rest);
      PacketReadsBack(packets[0], tail + rest);
      BlockReadsBack(packets[1..], rest);
    }
  }

  /** Packets without a flush behind them, then something no packet starts, are no block. */
  lemma {:induction false} CutBlockIsNone(packets: seq<Bytes>, end: Bytes)
    requires Inner(packets) && NextPacket(end).Stopped?
    ensures NextBlock(Join(packets) + end) == NoBlock(NextPacket(end).error, NextPacket(end).left)
  {
    if packets == [] {
      assert Join(packets) + end == end;
    } else {
      assert Join(packets) + end == packets[0] + (Join(packets[1..]) + end);
      PacketReadsBack(packets[0], Join(packets[1..]) + end);
      CutBlockIsNone(packets[1..], end);
    }
  }

  /** Whatever is read as a block is inner packets and one flush. */
  lemma {:induction false} BlocksDecompose(s: Bytes) returns (packets: seq<Bytes>)
    requires NextBlock(s).Block?
    ensures Inner(packets) && NextBlock(s).bytes == BlockOf(packets)
    decreases |s|
  {
    var raw, rest := NextPacket(s).raw, NextPacket(s).rest;
    if raw == FLUSH {
      packets := [];
    } else {
      ReadsWholePackets(s);
      var more := BlocksDecompose(rest);
      packets := [raw] + more;
      assert packets[1..] == more;
      assert BlockOf(packets) == raw + BlockOf(more);
    }
  }

  // ------------------------------------------------------------------
  // The reader
  // ------------------------------------------------------------------

  datatype RequestBlock = Request(bytes: Bytes) | NoMore | Failed(error: Error)

  /** pktReader: a stream whose position advances over whole packets. */
  class PktReader {
    var input: Bytes  // what has not been read yet

    constructor (s: Bytes)
      ensures input == s
    {
      input := s;
    }

    method ReadPacket() returns (r: PacketRead)
      modifies this
      ensures r == NextPacket(old(input))
      ensures input == if r.Got? then r.rest else r.left
    {
      r := NextPacket(input);
      input := if r.Got? then r.rest else r.left;
    }

    method ReadRawBlock() returns (block: Bytes, error: Option<Error>)
      modifies this
      ensures match NextBlock(old(input))
        case Block(bytes, rest) => error == None && block == bytes && input == rest
        case NoBlock(e, left) => error == Some(e) && block == [] && input == left
    {
      var buf: Bytes := [];
      ghost var start := input;
      while true
        invariant NextBlock(start) == match NextBlock(input)
          case NoBlock(e, left) => NoBlock(e, left)
          case Block(bytes, rest) => Block(buf + bytes, rest)
        decreases |input|
      {
        ghost var here := input;
        var r := ReadPacket();
        if r.Stopped? {
          return [], Some(r.error);
        }
        if r.raw == FLUSH {
          return buf + r.raw, None;
        }
        ghost var more := NextBlock(input);
        assert more.Block? ==> buf + (r.raw + more.bytes) == (buf + r.raw) + more.bytes;
        buf := buf + r.raw;
      }
    }

    /** readRequestBlock: a block that is only its flush names the end of the requests. */
    method ReadRequestBlock() returns (r: RequestBlock)
      modifies this
      ensures match NextBlock(old(input))
        case Block(bytes, rest) => input == rest && r == if bytes == FLUSH then NoMore else Request(bytes)
        case NoBlock(e, left) => r == Failed(e)
      ensures |input| <= |old(input)| && (r.Request? ==> |input| < |old(input)|)
    {
      ghost var start := input;
      var block, error := ReadRawBlock();
      LeftIsShorter(start);
      if error.Some? {
        return Failed(error.value);
      }
      OnlyTheFlushIsShort(start);
      if |block| == 4 {
        return NoMore;
      }
      r := Request(block);
    }
  }

  lemma LeftIsShorter(s: Bytes)
    ensures NextBlock(s).NoBlock? ==> |NextBlock(s).left| <= |s|
    decreases |s|
  {
    match NextPacket(s)
    case Stopped(_, _) =>
    case Got(raw, rest) => LeftIsShorter(rest);
  }

  lemma OnlyTheFlushIsShort(s: Bytes)
    requires NextBlock(s).Block?
    ensures |NextBlock(s).bytes| == 4 <==> NextBlock(s).bytes == FLUSH
  {
  }
}
