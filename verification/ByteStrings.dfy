/**
Byte strings, and the parts of Go's strings and bytes packages the git bridge
uses. White space is Unicode's, as strings.Fields and strings.TrimSpace read
it: six ASCII bytes and the UTF-8 forms of U+0085, U+00A0, U+1680,
U+2000-U+200A, U+2028, U+2029, U+202F, U+205F and U+3000. Their lead bytes
never occur inside another rune, so matching them byte-wise is exact.
*/
module ByteStrings {
  import opened Wrappers

  newtype byte = b: int | 0 <= b < 256

  type Bytes = seq<byte>

  const NUL: byte := 0
  const NEWLINE: byte := 10
  const SPACE: byte := 32
  const QUOTE: byte := 39
  const SLASH: byte := 47
  const ZERO: byte := 48
  const BACKSLASH: byte := 92

  predicate HasPrefix(s: Bytes, p: Bytes) {
    p <= s
  }

  predicate HasSuffix(s: Bytes, p: Bytes) {
    |p| <= |s| && s[|s| - |p|..] == p
  }

  /** The bytes as text, one character each. */
  function Text(s: Bytes): (t: string)
    ensures |t| == |s| && forall i :: 0 <= i < |s| ==> t[i] == (s[i] as int) as char
  {
    seq(|s|, i requires 0 <= i < |s| => (s[i] as int) as char)
  }

  /** s begins with this text. */
  predicate Says(s: Bytes, text: string) {
    |text| <= |s| && Text(s[..|text|]) == text
  }

  /** The named bytes are the characters their names say. */
  lemma NamedBytes()
    ensures Text([NEWLINE, SPACE, QUOTE, SLASH, ZERO, BACKSLASH]) == "\n '/0\\" && NUL == 0
  {
  }

  lemma SamePrefix(s: Bytes, p: Bytes, text: string)
    requires Text(p) == text
    ensures HasPrefix(s, p) <==> Says(s, text)
    ensures s == p <==> Text(s) == text
  {
    if Says(s, text) {
      assert forall i :: 0 <= i < |p| ==> Text(s[..|p|])[i] == text[i] && Text(p)[i] == text[i];
      assert s[..|p|] == p;
    }
    if HasPrefix(s, p) {
      assert s[..|p|] == p;
    }
    if Text(s) == text {
      assert forall i :: 0 <= i < |p| ==> Text(s)[i] == Text(p)[i];
      assert s == p;
    }
  }

  /** bytes.IndexByte, with |s| for "not found". */
  function IndexByte(s: Bytes, b: byte): (i: nat)
    ensures i <= |s|
    ensures b !in s[..i]
    ensures i < |s| ==> s[i] == b
  {
    if s == [] || s[0] == b then 0
    else
      var i := 1 + IndexByte(s[1..], b);
      assert s[..i] == [s[0]] + s[1..][..i - 1];
      i
  }

  /** The first occurrence is where it was put, if nothing before it matches. */
  lemma IndexByteAt(a: Bytes, b: byte, rest: Bytes)
    requires b !in a
    ensures IndexByte(a + [b] + rest, b) == |a|
  {
    assert (a + [b] + rest)[|a|] == b;
  }

  lemma IndexByteAbsent(a: Bytes, b: byte)
    requires b !in a
    ensures IndexByte(a, b) == |a|
  {
  }

  // ------------------------------------------------------------------
  // White space
  // ------------------------------------------------------------------

  /** The width of the white-space rune s starts with, 0 when it starts with none. */
  function SpaceLen(s: Bytes): (n: nat)
    ensures n <= |s| && n <= 3
  {
    if s == [] then 0
    else if 9 <= s[0] <= 13 || s[0] == 32 then 1
    else if |s| >= 2 && s[0] == 0xC2 && (s[1] == 0x85 || s[1] == 0xA0) then 2
    else if |s| >= 3 && IsWideSpace(s[0], s[1], s[2]) then 3
    else 0
  }

  predicate IsWideSpace(a: byte, b: byte, c: byte) {
    || (a == 0xE1 && b == 0x9A && c == 0x80)
    || (a == 0xE2 && b == 0x80 && (0x80 <= c <= 0x8A || c == 0xA8 || c == 0xA9 || c == 0xAF))
    || (a == 0xE2 && b == 0x81 && c == 0x9F)
    || (a == 0xE3 && b == 0x80 && c == 0x80)
  }

  /** The code points with Unicode's White_Space property. */
  predicate WhiteSpace(cp: nat) {
    || 0x9 <= cp <= 0xD || cp == 0x20 || cp == 0x85 || cp == 0xA0 || cp == 0x1680 || 0x2000 <= cp <= 0x200A
    || cp == 0x2028 || cp == 0x2029 || cp == 0x202F || cp == 0x205F || cp == 0x3000
  }

  /** The UTF-8 form of a code point. */
  function Utf8(cp: nat): (s: Bytes)
    requires cp < 0x110000
    ensures 1 <= |s| <= 4
  {
    if cp < 0x80 then [cp as byte]
    else if cp < 0x800 then [(0xC0 + cp / 64) as byte, (0x80 + cp % 64) as byte]
    else if cp < 0x10000 then [(0xE0 + cp / 4096) as byte, (0x80 + cp / 64 % 64) as byte, (0x80 + cp % 64) as byte]
    else
      [(0xF0 + cp / 262144) as byte, (0x80 + cp / 4096 % 64) as byte, (0x80 + cp / 64 % 64) as byte, (0x80 + cp % 64) as byte]
  }

  /** White space is recognized exactly, for every code point and whatever follows. */
  lemma SpaceLenExactly(cp: nat, rest: Bytes)
    requires cp < 0x110000
    ensures SpaceLen(Utf8(cp) + rest) == if WhiteSpace(cp) then |Utf8(cp)| else 0
  {
    var u := Utf8(cp);
    var s := u + rest;
    assert s[0] == u[0] && (|u| >= 2 ==> s[1] == u[1]) && (|u| >= 3 ==> s[2] == u[2]);
    if 0x800 <= cp < 0x10000 {
      assert cp == cp / 4096 * 4096 + cp / 64 % 64 * 64 + cp % 64;
    }
  }

  /** What follows does not matter when it starts with an ASCII byte. */
  lemma SpaceLenBefore(a: Bytes, b: Bytes)
    requires a != [] && (b == [] || b[0] < 0x80)
    ensures SpaceLen(a + b) == SpaceLen(a)
  {
    if b == [] {
      assert a + b == a;
    }
  }

  // ------------------------------------------------------------------
  // strings.Fields
  // ------------------------------------------------------------------

  function Fields(s: Bytes): seq<Bytes> {
    FieldsFrom([], s)
  }

  /** The fields of s, the first of which has already begun with current. */
  function FieldsFrom(current: Bytes, s: Bytes): seq<Bytes>
    decreases |s|
  {
    if s == [] then Emit(current)
    else
      var n := SpaceLen(s);
      if n > 0 then Emit(current) + FieldsFrom([], s[n..])
      else FieldsFrom(current + [s[0]], s[1..])
  }

  function Emit(current: Bytes): seq<Bytes> {
    if current == [] then [] else [current]
  }

  /** No white space starts anywhere in s. */
  ghost predicate Solid(s: Bytes) {
    forall i :: 0 <= i < |s| ==> SpaceLen(s[i..]) == 0
  }

  lemma SolidTail(s: Bytes)
    requires Solid(s) && s != []
    ensures Solid(s[1..]) && SpaceLen(s) == 0
  {
    assert s[0..] == s;
    forall i | 0 <= i < |s[1..]|
      ensures SpaceLen(s[1..][i..]) == 0
    {
      assert s[1..][i..] == s[i + 1..];
    }
  }

  /** Letters, digits and punctuation of ASCII are solid. */
  lemma AsciiSolid(s: Bytes)
    requires forall i :: 0 <= i < |s| ==> 32 < s[i] < 0x80
    ensures Solid(s)
  {
    forall i | 0 <= i < |s|
      ensures SpaceLen(s[i..]) == 0
    {
      assert s[i..][0] == s[i];
    }
  }

  /** A byte that opens no white space joins the field begun. */
  lemma FieldsJoin(current: Bytes, b: byte, s: Bytes)
    requires SpaceLen([b] + s) == 0
    ensures FieldsFrom(current, [b] + s) == FieldsFrom(current + [b], s)
  {
    assert ([b] + s)[1..] == s;
  }

  lemma Regroup(current: Bytes, word: Bytes, rest: Bytes)
    requires word != []
    ensures word + rest == [word[0]] + (word[1..] + rest) && current + [word[0]] + word[1..] == current + word
  {
  }

  /** A solid word runs to the ASCII byte after it. */
  lemma {:induction false} FieldsWord(current: Bytes, word: Bytes, rest: Bytes)
    requires Solid(word) && (rest == [] || rest[0] < 0x80)
    ensures FieldsFrom(current, word + rest) == FieldsFrom(current + word, rest)
    decreases |word|
  {
    if word == [] {
      assert word + rest == rest && current + word == current;
    } else {
      var b, more := word[0], word[1..];
      SolidTail(word);
      SpaceLenBefore(word, rest);
      Regroup(current, word, rest);
      FieldsJoin(current, b, more + rest);
      FieldsWord(current + [b], more, rest);
    }
  }

  /** A word and a space in front add one field. */
  lemma FieldsAfterWord(word: Bytes, rest: Bytes)
    requires word != [] && Solid(word)
    ensures Fields(word + [SPACE] + rest) == [word] + Fields(rest)
  {
    assert word + [SPACE] + rest == word + ([SPACE] + rest);
    FieldsWord([], word, [SPACE] + rest);
    assert [] + word == word;
    assert ([SPACE] + rest)[1..] == rest;
  }

  lemma FieldsOfWord(word: Bytes)
    requires word != [] && Solid(word)
    ensures Fields(word) == [word]
  {
    assert word + [] == word && [] + word == word;
    FieldsWord([], word, []);
  }

  /** A final newline changes nothing. */
  lemma {:induction false} FieldsBeforeNewline(current: Bytes, s: Bytes)
    ensures FieldsFrom(current, s + [NEWLINE]) == FieldsFrom(current, s)
    decreases |s|
  {
    if s == [] {
      assert s + [NEWLINE] == [NEWLINE];
      assert [NEWLINE][1..] == [];
      assert FieldsFrom([], []) == [];
    } else {
      SpaceLenBefore(s, [NEWLINE]);
      var n := SpaceLen(s);
      if n > 0 {
        assert (s + [NEWLINE])[n..] == s[n..] + [NEWLINE];
        FieldsBeforeNewline([], s[n..]);
      } else {
        assert (s + [NEWLINE])[1..] == s[1..] + [NEWLINE];
        FieldsBeforeNewline(current + [s[0]], s[1..]);
      }
    }
  }

  // ------------------------------------------------------------------
  // strings.TrimSpace, Trim, TrimSuffix and Cut
  // ------------------------------------------------------------------

  /** The width of the white-space rune s ends with, 0 when it ends with none. */
  function SpaceLenEnd(s: Bytes): (n: nat)
    ensures n <= |s|
  {
    var k := |s|;
    if k >= 1 && (9 <= s[k - 1] <= 13 || s[k - 1] == 32) then 1
    else if k >= 2 && s[k - 2] == 0xC2 && (s[k - 1] == 0x85 || s[k - 1] == 0xA0) then 2
    else if k >= 3 && IsWideSpace(s[k - 3], s[k - 2], s[k - 1]) then 3
    else 0
  }

  function TrimSpace(s: Bytes): Bytes
    decreases |s|
  {
    var n, m := SpaceLen(s), SpaceLenEnd(s);
    if n > 0 then TrimSpace(s[n..])
    else if m > 0 then TrimSpace(s[..|s| - m])
    else s
  }

  /** Text with a visible ASCII byte at each end is left alone. */
  lemma TrimSpaceNothing(s: Bytes)
    requires s != [] && 32 < s[0] < 0x80 && 32 < s[|s| - 1] < 0x80
    ensures TrimSpace(s) == s
  {
  }

  /** strings.Trim(s, "/"). */
  function TrimSlashes(s: Bytes): Bytes
    decreases |s|
  {
    if s == [] then s
    else if s[0] == SLASH then TrimSlashes(s[1..])
    else if s[|s| - 1] == SLASH then TrimSlashes(s[..|s| - 1])
    else s
  }

  function TrimSuffix(s: Bytes, p: Bytes): Bytes {
    if HasSuffix(s, p) then s[..|s| - |p|] else s
  }
}
