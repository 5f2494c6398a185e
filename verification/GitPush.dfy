/**
The push side of the bridge: the ref-update commands are read up to their
flush, and what they say decides whether the rest of git's stream is part of
the one POST (cmd/gitssh/bridge.go:102-136, 269-328; gitprotocol-pack,
"Reference Update Request and Packfile Transfer").
*/
module GitPush {
  import opened ByteStrings
  import opened Wrappers
  import opened PktLine

  /** "push-options" */
  const PUSH_OPTIONS: Bytes := [112, 117, 115, 104, 45, 111, 112, 116, 105, 111, 110, 115]

  // ------------------------------------------------------------------
  // What the scan recognizes in one line
  // ------------------------------------------------------------------

  /** isZeroOID: all zeros, whatever the width. */
  predicate IsZeroOid(s: Bytes) {
    forall i :: 0 <= i < |s| ==> s[i] == ZERO
  }

  /** The line without the capabilities behind its first NUL. */
  function CommandText(payload: Bytes): Bytes {
    payload[..IndexByte(payload, NUL)]
  }

  /** The capability list a line carries, if any. */
  function CapabilitiesOf(payload: Bytes): Option<Bytes> {
    var i := IndexByte(payload, NUL);
    if i < |payload| then Some(payload[i + 1..]) else None
  }

  /** Three fields, the second no zero id: a ref update that brings objects. */
  predicate BringsPack(payload: Bytes) {
    var fields := Fields(CommandText(payload));
    |fields| == 3 && !IsZeroOid(fields[1])
  }

  /** hasCapability: a field that is want, or want with a value. */
  predicate HasCapability(capabilities: Bytes, want: Bytes) {
    exists i :: 0 <= i < |Fields(capabilities)| && Names(Fields(capabilities)[i], want)
  }

  predicate Names(field: Bytes, want: Bytes) {
    field == want || HasPrefix(field, want + [61])
  }

  // ------------------------------------------------------------------
  // readPushCommands
  // ------------------------------------------------------------------

  datatype Scan = Scan(block: Bytes, pack: bool, capabilities: Option<Bytes>, rest: Bytes) | ScanFailed(error: Error)

  /** The command block through its flush, and what its lines said. */
  function ScanCommands(s: Bytes): Scan
    decreases |s|
  {
    match NextPacket(s)
    case Stopped(e, _) => ScanFailed(e)
    case Got(raw, rest) =>
      if raw == FLUSH then Scan(raw, false, None, rest)
      else
        match ScanCommands(rest)
        case ScanFailed(e) => ScanFailed(e)
        case Scan(block, pack, capabilities, last) =>
          Scan(raw + block, BringsPack(raw[4..]) || pack,
               if CapabilitiesOf(raw[4..]).Some? then CapabilitiesOf(raw[4..]) else capabilities, last)
  }

  datatype Push = Push(block: Bytes, pack: bool, rest: Bytes) | PushFailed(error: Error)

  /** The block to send, with the push options behind it when no pack follows that would carry them. */
  function PushCommands(s: Bytes): Push {
    match ScanCommands(s)
    case ScanFailed(e) => PushFailed(e)
    case Scan(block, pack, capabilities, rest) =>
      if pack || capabilities.None? || !HasCapability(capabilities.value, PUSH_OPTIONS) then Push(block, pack, rest)
      else
        match NextBlock(rest)
        case NoBlock(e, _) => PushFailed(e)
        case Block(options, last) => Push(block + options, false, last)
  }

  /** The loop's look at one line. */
  method InspectLine(payload: Bytes) returns (brings: bool, listed: Option<Bytes>)
    ensures brings == BringsPack(payload) && listed == CapabilitiesOf(payload)
  {
    var line := payload;
    listed := None;
    var i := IndexByte(line, NUL);
    if i < |line| {
      listed := Some(line[i + 1..]);
      line := line[..i];
    } else {
      assert line[..i] == line;
    }
    var fields := Fields(line);
    brings := |fields| == 3 && !IsZeroOid(fields[1]);
  }

  /** Go's loop: buffer, capability string and flag are updated packet by packet. */
  method ReadPushCommands(p: PktReader) returns (r: Push)
    modifies p
    ensures r == PushCommands(old(p.input))
    ensures r.Push? ==> p.input == r.rest
  {
    var buf: Bytes, pack, capabilities := [], false, None;
    ghost var start := p.input;
    while true
      invariant Scanned(start, buf, pack, capabilities, p.input)
      decreases |p.input|
    {
      ghost var here := p.input;
      var packet := p.ReadPacket();
      if packet.Stopped? {
        return PushFailed(packet.error);
      }
      ScannedOneMore(start, buf, pack, capabilities, here);
      buf := buf + packet.raw;
      if packet.raw == FLUSH {
        break;
      }
      var brings, listed := InspectLine(packet.raw[4..]);
      pack := pack || brings;
      capabilities := if capabilities.Some? then capabilities else listed;
    }
    if !pack && capabilities.Some? && HasCapability(capabilities.value, PUSH_OPTIONS) {
      var options, error := p.ReadRawBlock();
      if error.Some? {
        return PushFailed(error.value);
      }
      return Push(buf + options, false, p.input);
    }
    r := Push(buf, pack, p.input);
  }

  /** What scanning all of start yields, given what was scanned so far and what is left. */
  ghost predicate Scanned(start: Bytes, buf: Bytes, pack: bool, capabilities: Option<Bytes>, left: Bytes) {
    ScanCommands(start) == match ScanCommands(left)
      case ScanFailed(e) => ScanFailed(e)
      case Scan(block, more, later, rest) => Scan(buf + block, pack || more, if capabilities.Some? then capabilities else later, rest)
  }

  lemma ScannedOneMore(start: Bytes, buf: Bytes, pack: bool, capabilities: Option<Bytes>, left: Bytes)
    requires Scanned(start, buf, pack, capabilities, left) && NextPacket(left).Got?
    ensures var raw, rest := NextPacket(left).raw, NextPacket(left).rest;
      if raw == FLUSH then ScanCommands(start) == Scan(buf + raw, pack, capabilities, rest)
      else Scanned(start, buf + raw, pack || BringsPack(raw[4..]), if capabilities.Some? then capabilities else CapabilitiesOf(raw[4..]), rest)
  {
    var raw, rest := NextPacket(left).raw, NextPacket(left).rest;
    if raw != FLUSH && ScanCommands(rest).Scan? {
      assert buf + (raw + ScanCommands(rest).block) == (buf + raw) + ScanCommands(rest).block;
    }
  }

  // ------------------------------------------------------------------
  // bridgePush
  // ------------------------------------------------------------------

  /** The POST the push makes, if it makes one, and what it leaves unread on git's stream. */
  datatype Posted = Posted(body: Bytes, unread: Bytes) | NothingToPush | PushError

  method BridgePush(input: Bytes) returns (r: Posted)
    ensures r == PushPosts(input)
  {
    var p := new PktReader(input);
    var commands := ReadPushCommands(p);
    match commands
    case PushFailed(e) =>
      r := if IsEof(e) then NothingToPush else PushError;
    case Push(block, pack, _) =>
      // with a pack, the body goes on to the end of git's stream
      r := if pack then Posted(block + p.input, []) else Posted(block, p.input);
  }

  function PushPosts(s: Bytes): Posted {
    match PushCommands(s)
    case PushFailed(e) => if IsEof(e) then NothingToPush else PushError
    case Push(block, pack, rest) => if pack then Posted(block + rest, []) else Posted(block, rest)
  }

  /** Nothing is lost or invented: the body is a prefix of git's stream and the rest is still there. */
  lemma PostIsAPrefix(s: Bytes)
    ensures PushPosts(s).Posted? ==> s == PushPosts(s).body + PushPosts(s).unread
  {
    ScanIsAPrefix(s);
  }

  lemma {:induction false} ScanIsAPrefix(s: Bytes)
    ensures ScanCommands(s).Scan? ==> s == ScanCommands(s).block + ScanCommands(s).rest
    decreases |s|
  {
    if NextPacket(s).Got? && NextPacket(s).raw != FLUSH {
      ScanIsAPrefix(NextPacket(s).rest);
    }
  }

  // ------------------------------------------------------------------
  // Plain pushes: ref updates and shallow lines
  // ------------------------------------------------------------------

  datatype Line =
    | Update(oldOid: Bytes, newOid: Bytes, ref: Bytes, capabilities: Option<Bytes>, newline: bool)
    | Shallow(oid: Bytes, newline: bool)

  /** "shallow" */
  const SHALLOW: Bytes := [115, 104, 97, 108, 108, 111, 119]

  ghost predicate IsOid(s: Bytes) {
    s != [] && forall i :: 0 <= i < |s| ==> HexDigit(s[i]).Some?
  }

  ghost predicate WellFormed(l: Line) {
    match l
    case Update(oldOid, newOid, ref, _, _) => IsOid(oldOid) && IsOid(newOid) && NUL !in ref
    case Shallow(oid, _) => IsOid(oid)
  }

  function LineEnd(newline: bool): Bytes {
    if newline then [NEWLINE] else []
  }

  function UpdateText(oldOid: Bytes, newOid: Bytes, tail: Bytes): Bytes {
    oldOid + [SPACE] + (newOid + [SPACE] + tail)
  }

  /** The bytes git sends for a line, behind the length field. */
  function Payload(l: Line): Bytes {
    match l
    case Update(oldOid, newOid, ref, capabilities, newline) =>
      if capabilities.Some? then UpdateText(oldOid, newOid, ref) + [NUL] + (capabilities.value + LineEnd(newline))
      else UpdateText(oldOid, newOid, ref + LineEnd(newline))
    case Shallow(oid, newline) => SHALLOW + [SPACE] + (oid + LineEnd(newline))
  }

  /** An update to a ref that will exist afterwards: its objects have to be sent. */
  predicate SendsObjects(l: Line) {
    l.Update? && exists j :: 0 <= j < |l.newOid| && l.newOid[j] != 48
  }

  /** An update whose new id is all zero digits, of any width, is never seen. */
  lemma DeletionNeverSeen(l: Line)
    requires WellFormed(l) && l.Update? && forall j :: 0 <= j < |l.newOid| ==> Text(l.newOid)[j] == '0'
    ensures !BringsPack(Payload(l))
  {
    UpdateSeenExactly(l);
    assert forall j :: 0 <= j < |l.newOid| ==> Text(l.newOid)[j] == (l.newOid[j] as int) as char;
  }

  /** The scan sees such an update only when Go splits the ref name into exactly one field. */
  predicate SeenAsUpdate(l: Line) {
    SendsObjects(l) && |Fields(l.ref)| == 1
  }

  lemma OidSolid(s: Bytes)
    requires IsOid(s)
    ensures Solid(s) && NUL !in s
  {
    AsciiSolid(s);
  }

  lemma LineEndFields(s: Bytes, newline: bool)
    ensures Fields(s + LineEnd(newline)) == Fields(s)
  {
    if newline {
      FieldsBeforeNewline([], s);
    } else {
      assert s + [] == s;
    }
  }

  lemma UpdateFields(oldOid: Bytes, newOid: Bytes, tail: Bytes)
    requires IsOid(oldOid) && IsOid(newOid)
    ensures Fields(UpdateText(oldOid, newOid, tail)) == [oldOid, newOid] + Fields(tail)
  {
    OidSolid(oldOid);
    OidSolid(newOid);
    FieldsAfterWord(oldOid, newOid + [SPACE] + tail);
    FieldsAfterWord(newOid, tail);
    assert [oldOid] + ([newOid] + Fields(tail)) == [oldOid, newOid] + Fields(tail);
  }

  /** Exactly when the scan takes a line for an update that brings objects. */
  lemma UpdateSeenExactly(l: Line)
    requires WellFormed(l) && l.Update?
    ensures BringsPack(Payload(l)) <==> SeenAsUpdate(l)
    ensures CapabilitiesOf(Payload(l)).Some? <==> l.capabilities.Some?
    ensures l.capabilities.Some? ==> CapabilitiesOf(Payload(l)).value == l.capabilities.value + LineEnd(l.newline)
  {
    OidSolid(l.oldOid);
    OidSolid(l.newOid);
    var tail := if l.capabilities.Some? then l.ref else l.ref + LineEnd(l.newline);
    var text := UpdateText(l.oldOid, l.newOid, tail);
    UpdateFields(l.oldOid, l.newOid, tail);
    LineEndFields(l.ref, l.newline);
    assert NUL !in text;
    if l.capabilities.Some? {
      var behind := l.capabilities.value + LineEnd(l.newline);
      IndexByteAt(text, NUL, behind);
      assert Payload(l)[..|text|] == text;
      assert Payload(l)[|text| + 1..] == behind;
    } else {
      IndexByteAbsent(text, NUL);
      assert CommandText(text) == text;
    }
  }

  lemma ShallowNeverSeen(l: Line)
    requires WellFormed(l) && l.Shallow?
    ensures !BringsPack(Payload(l)) && CapabilitiesOf(Payload(l)).None?
  {
    OidSolid(l.oid);
    AsciiSolid(SHALLOW);
    IndexByteAbsent(Payload(l), NUL);
    assert CommandText(Payload(l)) == Payload(l);
    FieldsAfterWord(SHALLOW, l.oid + LineEnd(l.newline));
    LineEndFields(l.oid, l.newline);
    FieldsOfWord(l.oid);
  }

  /** Packets that carry these lines. */
  ghost predicate Carries(packets: seq<Bytes>, lines: seq<Line>) {
    && |packets| == |lines|
    && forall i :: 0 <= i < |lines| ==> WellFormed(lines[i]) && IsPacket(packets[i]) && packets[i][4..] == Payload(lines[i])
  }

  predicate AnySeen(lines: seq<Line>) {
    exists i :: 0 <= i < |lines| && SeenAsUpdate(lines[i])
  }

  predicate AnySends(lines: seq<Line>) {
    exists i :: 0 <= i < |lines| && SendsObjects(lines[i])
  }

  function LineCapabilities(l: Line): Option<Bytes> {
    if l.Update? && l.capabilities.Some? then Some(l.capabilities.value + LineEnd(l.newline)) else None
  }

  /** The capabilities are those of the first line that has any. */
  function SentCapabilities(lines: seq<Line>): Option<Bytes> {
    if lines == [] then None
    else if LineCapabilities(lines[0]).Some? then LineCapabilities(lines[0])
    else SentCapabilities(lines[1..])
  }

  lemma LineReads(l: Line)
    requires WellFormed(l)
    ensures BringsPack(Payload(l)) <==> SeenAsUpdate(l)
    ensures CapabilitiesOf(Payload(l)) == LineCapabilities(l)
    ensures |Payload(l)| > 0
  {
    if l.Update? {
      UpdateSeenExactly(l);
    } else {
      ShallowNeverSeen(l);
    }
  }

  /** Scanning past one line. */
  lemma ScanOneLine(packet: Bytes, rest: Bytes, more: Scan)
    requires IsPacket(packet) && packet != FLUSH && ScanCommands(rest) == more && more.Scan?
    ensures ScanCommands(packet + rest) ==
      Scan(packet + more.block, BringsPack(packet[4..]) || more.pack,
           if CapabilitiesOf(packet[4..]).Some? then CapabilitiesOf(packet[4..]) else more.capabilities, more.rest)
  {
    PacketReadsBack(packet, rest);
  }

  lemma CarriesFirst(packets: seq<Bytes>, lines: seq<Line>)
    requires Carries(packets, lines) && lines != []
    ensures Carries(packets[1..], lines[1..])
    ensures IsPacket(packets[0]) && packets[0] != FLUSH
    ensures BringsPack(packets[0][4..]) <==> SeenAsUpdate(lines[0])
    ensures CapabilitiesOf(packets[0][4..]) == LineCapabilities(lines[0])
  {
    LineReads(lines[0]);
  }

  lemma JoinFirst(packets: seq<Bytes>, rest: Bytes)
    requires packets != []
    ensures BlockOf(packets) == packets[0] + BlockOf(packets[1..])
    ensures BlockOf(packets) + rest == packets[0] + (BlockOf(packets[1..]) + rest)
  {
  }

  lemma ScanNoLines(rest: Bytes)
    ensures ScanCommands(BlockOf([]) + rest) == Scan(BlockOf([]), false, None, rest)
  {
    FlushIsPacket();
    PacketReadsBack(FLUSH, rest);
    assert BlockOf([]) == FLUSH;
  }

  lemma {:induction false} ScanReadsTheLines(packets: seq<Bytes>, lines: seq<Line>, rest: Bytes)
    requires Carries(packets, lines)
    ensures ScanCommands(BlockOf(packets) + rest) == Scan(BlockOf(packets), AnySeen(lines), SentCapabilities(lines), rest)
  {
    if lines == [] {
      ScanNoLines(rest);
    } else {
      CarriesFirst(packets, lines);
      ScanReadsTheLines(packets[1..], lines[1..], rest);
      JoinFirst(packets, rest);
      FirstLineSeen(lines);
      ScanOneLine(packets[0], BlockOf(packets[1..]) + rest, ScanCommands(BlockOf(packets[1..]) + rest));
    }
  }

  lemma FirstLineSeen(lines: seq<Line>)
    requires lines != []
    ensures AnySeen(lines) <==> SeenAsUpdate(lines[0]) || AnySeen(lines[1..])
  {
    if i :| 0 <= i < |lines| && SeenAsUpdate(lines[i]) && i > 0 {
      assert SeenAsUpdate(lines[1..][i - 1]);
    }
    if i :| 0 <= i < |lines[1..]| && SeenAsUpdate(lines[1..][i]) {
      assert SeenAsUpdate(lines[i + 1]);
    }
  }

  // ------------------------------------------------------------------
  // What is posted
  // ------------------------------------------------------------------

  /** The push options git sends behind the commands when the capability was agreed on. */
  ghost predicate Options(lines: seq<Line>, options: seq<Bytes>, behind: Bytes, rest: Bytes) {
    if SentCapabilities(lines).Some? && HasCapability(SentCapabilities(lines).value, PUSH_OPTIONS)
    then Inner(options) && rest == BlockOf(options) + behind
    else options == [] && rest == behind
  }

  function OptionsBlock(lines: seq<Line>, options: seq<Bytes>): Bytes {
    if SentCapabilities(lines).Some? && HasCapability(SentCapabilities(lines).value, PUSH_OPTIONS) then BlockOf(options) else []
  }

  /** A capability list as git writes one. */
  function JoinWords(words: seq<Bytes>): Bytes {
    if words == [] then [] else if |words| == 1 then words[0] else words[0] + [SPACE] + JoinWords(words[1..])
  }

  ghost predicate SolidWords(words: seq<Bytes>) {
    forall i :: 0 <= i < |words| ==> words[i] != [] && Solid(words[i])
  }

  lemma {:induction false} FieldsOfWords(words: seq<Bytes>)
    requires SolidWords(words)
    ensures Fields(JoinWords(words)) == words
  {
    if |words| == 1 {
      FieldsOfWord(words[0]);
    } else if |words| > 1 {
      FieldsAfterWord(words[0], JoinWords(words[1..]));
      FieldsOfWords(words[1..]);
    } else {
      assert Fields([]) == [];
    }
  }

  /** A word that agrees on push options: the name, alone or with a value. */
  predicate AgreesOnOptions(word: Bytes) {
    Text(word) == "push-options" || Says(word, "push-options=")
  }

  lemma OptionsText()
    ensures Text(PUSH_OPTIONS) == "push-options" && Text(PUSH_OPTIONS + [61]) == "push-options="
  {
  }

  lemma NamesOptions(word: Bytes)
    ensures Names(word, PUSH_OPTIONS) <==> AgreesOnOptions(word)
  {
    OptionsText();
    SamePrefix(word, PUSH_OPTIONS, "push-options");
    SamePrefix(word, PUSH_OPTIONS + [61], "push-options=");
  }

  /** The capability is agreed on exactly when some word of the list says so, whatever newline ends the line. */
  lemma PushOptionsAgreed(words: seq<Bytes>, newline: bool)
    requires SolidWords(words)
    ensures HasCapability(JoinWords(words) + LineEnd(newline), PUSH_OPTIONS)
            <==> exists i :: 0 <= i < |words| && AgreesOnOptions(words[i])
  {
    FieldsOfWords(words);
    LineEndFields(JoinWords(words), newline);
    forall i | 0 <= i < |words|
      ensures Names(words[i], PUSH_OPTIONS) <==> AgreesOnOptions(words[i])
    {
      NamesOptions(words[i]);
    }
  }

  /**
  The whole push in the protocol's own terms. Packets are what git writes for
  the lines, the first line lists the capabilities word by word, refs have no
  white space. The stream is posted whole if some new id has a digit other
  than 0; otherwise the POST is the commands and, if a word is push-options or
  push-options=..., the options block behind them.
  */
  lemma PushInGitsTerms(lines: seq<Line>, cases: seq<Cases>, words: seq<Bytes>, options: seq<Bytes>, behind: Bytes)
    requires |lines| == |cases| > 0 && SolidWords(words) && Inner(options)
    requires forall i :: 0 <= i < |lines| ==> WellFormed(lines[i]) && |Payload(lines[i])| <= 65531
    requires forall i :: 0 <= i < |lines| && lines[i].Update? ==> lines[i].ref != [] && Solid(lines[i].ref)
    requires lines[0].Update? && lines[0].capabilities == Some(JoinWords(words))
    ensures var packets := seq(|lines|, i requires 0 <= i < |lines| => WritePacket(Payload(lines[i]), cases[i]));
            var agreed := exists i :: 0 <= i < |words| && AgreesOnOptions(words[i]);
            var sends := exists i, j :: 0 <= i < |lines| && lines[i].Update? && 0 <= j < |lines[i].newOid| && lines[i].newOid[j] != 48;
            var opts := if agreed then BlockOf(options) else [];
            PushPosts(BlockOf(packets) + (opts + behind))
            == if sends then Posted(BlockOf(packets) + (opts + behind), []) else Posted(BlockOf(packets) + opts, behind)
  {
    var packets := seq(|lines|, i requires 0 <= i < |lines| => WritePacket(Payload(lines[i]), cases[i]));
    forall i | 0 <= i < |lines|
      ensures IsPacket(packets[i]) && packets[i][4..] == Payload(lines[i])
    {
      WrittenPacketReads(Payload(lines[i]), cases[i], []);
    }
    PushOptionsAgreed(words, lines[0].newline);
    var agreed := HasCapability(JoinWords(words) + LineEnd(lines[0].newline), PUSH_OPTIONS);
    assert SentCapabilities(lines) == Some(JoinWords(words) + LineEnd(lines[0].newline));
    var opts := if agreed then BlockOf(options) else [];
    assert !agreed ==> opts + behind == behind;
    SolidRefsArePosted(packets, lines, if agreed then options else [], behind, opts + behind);
    assert OptionsBlock(lines, if agreed then options else []) == opts;
  }

  /**
  For every push of ref updates and shallow lines: the POST is the whole of
  git's stream when an update is seen, and otherwise exactly the commands and
  the push options, with nothing read beyond them.
  */
  lemma PushPostsExactly(packets: seq<Bytes>, lines: seq<Line>, options: seq<Bytes>, behind: Bytes, rest: Bytes)
    requires Carries(packets, lines) && Options(lines, options, behind, rest)
    ensures PushPosts(BlockOf(packets) + rest) ==
      if AnySeen(lines) then Posted(BlockOf(packets) + rest, [])
      else Posted(BlockOf(packets) + OptionsBlock(lines, options), behind)
  {
    ScanReadsTheLines(packets, lines, rest);
    if OptionsBlock(lines, options) != [] {
      BlockReadsBack(options, behind);
    }
    assert BlockOf(packets) + [] == BlockOf(packets);
  }

  /**
  The promise, "a push that sends objects is posted whole", holds exactly when
  some update that sends objects has a ref name of one field. Otherwise the
  pack, here behind, is left unread and never reaches the server.
  */
  lemma PackPostedExactlyWhen(packets: seq<Bytes>, lines: seq<Line>, options: seq<Bytes>, behind: Bytes, rest: Bytes)
    requires Carries(packets, lines) && Options(lines, options, behind, rest)
    requires AnySends(lines) && behind != []
    ensures PushPosts(BlockOf(packets) + rest) == Posted(BlockOf(packets) + rest, []) <==> AnySeen(lines)
    ensures !AnySeen(lines) ==> PushPosts(BlockOf(packets) + rest) == Posted(BlockOf(packets) + OptionsBlock(lines, options), behind)
  {
    PushPostsExactly(packets, lines, options, behind, rest);
  }

  /** For ref names without white space, git's every push, the promise holds as it stands. */
  lemma SolidRefsArePosted(packets: seq<Bytes>, lines: seq<Line>, options: seq<Bytes>, behind: Bytes, rest: Bytes)
    requires Carries(packets, lines) && Options(lines, options, behind, rest)
    requires forall i :: 0 <= i < |lines| && lines[i].Update? ==> lines[i].ref != [] && Solid(lines[i].ref)
    ensures PushPosts(BlockOf(packets) + rest) ==
      if exists i, j :: 0 <= i < |lines| && lines[i].Update? && 0 <= j < |lines[i].newOid| && lines[i].newOid[j] != 48
      then Posted(BlockOf(packets) + rest, [])
      else Posted(BlockOf(packets) + OptionsBlock(lines, options), behind)
  {
    PushPostsExactly(packets, lines, options, behind, rest);
    if i, j :| 0 <= i < |lines| && lines[i].Update? && 0 <= j < |lines[i].newOid| && lines[i].newOid[j] != 48 {
      assert SendsObjects(lines[i]);
    }
    forall i | 0 <= i < |lines| && SendsObjects(lines[i])
      ensures SeenAsUpdate(lines[i])
    {
      FieldsOfWord(lines[i].ref);
    }
  }

  lemma NoBreakSpaceSplits()
    ensures |Fields([97, 0xC2, 0xA0, 98])| == 2
  {
    var ref: Bytes := [97, 0xC2, 0xA0, 98];
    assert ref[1..] == [0xC2, 0xA0, 98] && [0xC2, 0xA0, 98 as byte][2..] == [98];
    assert [98 as byte][1..] == [] && [] + [98 as byte] == [98] && [] + [97 as byte] == [97];
    assert FieldsFrom([98], []) == [[98]];
    assert FieldsFrom([], [98]) == FieldsFrom([98], []);
    assert FieldsFrom([97], [0xC2, 0xA0, 98]) == [[97]] + FieldsFrom([], [98]);
    assert FieldsFrom([], ref) == FieldsFrom([97], ref[1..]);
  }

  /** A branch named with a no-break space, which git allows, is not seen: "a", U+00A0, "b". */
  lemma NoBreakSpaceHidesAnUpdate(oldOid: Bytes, newOid: Bytes)
    requires IsOid(oldOid) && IsOid(newOid) && exists j :: 0 <= j < |newOid| && newOid[j] != 48
    ensures var l := Update(oldOid, newOid, [97] + Utf8(0xA0) + [98], None, true);
      WellFormed(l) && SendsObjects(l) && !BringsPack(Payload(l))
  {
    var ref: Bytes := [97, 0xC2, 0xA0, 98];
    assert [97] + Utf8(0xA0) + [98] == ref;
    NoBreakSpaceSplits();
    UpdateSeenExactly(Update(oldOid, newOid, ref, None, true));
  }
}
