/**
Release versions: v, three runs of digits separated by dots, each within the
range of a 64-bit int. Anything else is not a release.
*/
module Releases {
  import opened Wrappers

  datatype Release = Release(major: nat, minor: nat, patch: nat)

  /** The largest int strconv.Atoi returns. */
  const MAX_INT: nat := 0x7FFF_FFFF_FFFF_FFFF

  predicate Digit(c: char) {
    '0' <= c <= '9'
  }

  function DigitOf(c: char): nat
    requires Digit(c)
  {
    (c as int) - ('0' as int)
  }

  predicate Digits(s: string) {
    s != [] && forall i :: 0 <= i < |s| ==> Digit(s[i])
  }

  /** strings.Split(s, "."). */
  function Split(s: string): (parts: seq<string>)
    ensures |parts| >= 1
  {
    if s == [] then [[]]
    else
      var rest := Split(s[1..]);
      if s[0] == '.' then [[]] + rest else [[s[0]] + rest[0]] + rest[1..]
  }

  /** The number a run of digits writes. */
  function Value(s: string): nat
    requires forall i :: 0 <= i < |s| ==> Digit(s[i])
  {
    if s == [] then 0 else 10 * Value(s[..|s| - 1]) + DigitOf(s[|s| - 1])
  }

  /** v matches the release tag pattern. */
  predicate ReleaseTag(v: string) {
    v != [] && v[0] == 'v' && var parts := Split(v[1..]);
    |parts| == 3 && Digits(parts[0]) && Digits(parts[1]) && Digits(parts[2])
  }

  function ParseRelease(v: string): (r: Option<Release>) {
    if !ReleaseTag(v) then None
    else
      var parts := Split(v[1..]);
      var r := Release(Value(parts[0]), Value(parts[1]), Value(parts[2]));
      if r.major > MAX_INT || r.minor > MAX_INT || r.patch > MAX_INT then None else Some(r)
  }

  /** slices.Compare on the three numbers. */
  function CompareNumbers(a: Release, b: Release): int {
    if a.major != b.major then (if a.major < b.major then -1 else 1)
    else if a.minor != b.minor then (if a.minor < b.minor then -1 else 1)
    else if a.patch != b.patch then (if a.patch < b.patch then -1 else 1)
    else 0
  }

  /** None when either is not a release. */
  function CompareReleases(a: string, b: string): (c: Option<int>) {
    var x, y := ParseRelease(a), ParseRelease(b);
    if x.Some? && y.Some? then Some(CompareNumbers(x.value, y.value)) else None
  }

  predicate Newer(a: string, b: string) {
    CompareReleases(a, b) == Some(1)
  }

  /** x comes after y: by the first of major, minor and patch that differs. */
  predicate Later(x: Release, y: Release) {
    || x.major > y.major
    || (x.major == y.major && x.minor > y.minor)
    || (x.major == y.major && x.minor == y.minor && x.patch > y.patch)
  }

  /** Both are releases and a's numbers come after b's. */
  predicate LaterRelease(a: string, b: string) {
    ParseRelease(a).Some? && ParseRelease(b).Some? && Later(ParseRelease(a).value, ParseRelease(b).value)
  }

  lemma NewerIsLater(a: string, b: string)
    ensures Newer(a, b) <==> LaterRelease(a, b)
    ensures CompareReleases(a, b) == Some(-1) <==> LaterRelease(b, a)
  {
  }

  // ------------------------------------------------------------------
  // The order
  // ------------------------------------------------------------------

  /** A total preorder on releases: comparable exactly when both are, antisymmetric, transitive. */
  lemma ComparePreorder(a: string, b: string, c: string)
    ensures CompareReleases(a, b).Some? <==> ParseRelease(a).Some? && ParseRelease(b).Some?
    ensures CompareReleases(a, b).Some? ==> CompareReleases(b, a) == Some(-CompareReleases(a, b).value)
    ensures CompareReleases(a, b) == Some(0) <==> ParseRelease(a).Some? && ParseRelease(a) == ParseRelease(b)
    ensures CompareReleases(a, b).Some? && CompareReleases(b, c).Some?
              && CompareReleases(a, b).value >= 0 && CompareReleases(b, c).value >= 0
            ==> CompareReleases(a, c).Some? && CompareReleases(a, c).value >= 0
                && (CompareReleases(a, c).value == 0
                    <==> CompareReleases(a, b).value == 0 && CompareReleases(b, c).value == 0)
  {
  }

  lemma LaterIsTransitive(a: string, b: string, c: string)
    requires LaterRelease(a, b) && LaterRelease(b, c)
    ensures LaterRelease(a, c) && a != c
  {
  }

  // ------------------------------------------------------------------
  // What a release is written like
  // ------------------------------------------------------------------

  function Join(a: string, b: string, c: string): string {
    a + "." + b + "." + c
  }

  lemma {:induction false} SplitWord(a: string)
    requires '.' !in a
    ensures Split(a) == [a]
  {
    if a != [] {
      SplitWord(a[1..]);
      assert [a[0]] + a[1..] == a;
    }
  }

  lemma {:induction false} SplitAfter(a: string, rest: string)
    requires '.' !in a
    ensures Split(a + "." + rest) == [a] + Split(rest)
  {
    var s := a + "." + rest;
    if a == [] {
      assert s[1..] == rest;
    } else {
      assert s[1..] == a[1..] + "." + rest;
      SplitAfter(a[1..], rest);
      assert [a[0]] + a[1..] == a;
      assert ([a[1..]] + Split(rest))[1..] == Split(rest);
    }
  }

  lemma NoDotInDigits(s: string)
    requires Digits(s)
    ensures '.' !in s
  {
  }

  /** The digits any numbers are written with decide the release, and only the range can refuse it. */
  lemma WrittenReleaseParses(a: string, b: string, c: string)
    requires Digits(a) && Digits(b) && Digits(c)
    ensures ParseRelease("v" + Join(a, b, c))
         == if Value(a) <= 9223372036854775807 && Value(b) <= 9223372036854775807 && Value(c) <= 9223372036854775807
            then Some(Release(Value(a), Value(b), Value(c))) else None
  {
    NoDotInDigits(a);
    NoDotInDigits(b);
    NoDotInDigits(c);
    assert ("v" + Join(a, b, c))[1..] == Join(a, b, c) == a + "." + (b + "." + c);
    SplitAfter(a, b + "." + c);
    SplitAfter(b, c);
    SplitWord(c);
  }

  function JoinAll(parts: seq<string>): string {
    if parts == [] then "" else if |parts| == 1 then parts[0] else parts[0] + "." + JoinAll(parts[1..])
  }

  lemma {:induction false} SplitJoins(s: string)
    ensures JoinAll(Split(s)) == s
  {
    if s != [] {
      SplitJoins(s[1..]);
      assert s == [s[0]] + s[1..];
      var rest := Split(s[1..]);
      if s[0] == '.' {
        assert Split(s)[1..] == rest;
        assert "" + "." + s[1..] == s;
      } else {
        PrependFirst(s[0], rest);
      }
    }
  }

  lemma PrependFirst(c: char, parts: seq<string>)
    requires parts != []
    ensures JoinAll([[c] + parts[0]] + parts[1..]) == [c] + JoinAll(parts)
  {
    assert ([[c] + parts[0]] + parts[1..])[1..] == parts[1..];
    if |parts| > 1 {
      assert [c] + parts[0] + "." + JoinAll(parts[1..]) == [c] + (parts[0] + "." + JoinAll(parts[1..]));
    }
  }

  lemma JoinThree(a: string, b: string, c: string)
    ensures JoinAll([a, b, c]) == Join(a, b, c)
  {
    assert [a, b, c][1..] == [b, c] && [b, c][1..] == [c];
    assert JoinAll([b, c]) == b + "." + c;
    assert a + "." + (b + "." + c) == a + "." + b + "." + c;
  }

  /** Nothing else is a release. */
  lemma OnlyWrittenReleasesParse(v: string) returns (a: string, b: string, c: string)
    requires ParseRelease(v).Some?
    ensures Digits(a) && Digits(b) && Digits(c) && v == "v" + Join(a, b, c)
  {
    var parts := Split(v[1..]);
    SplitJoins(v[1..]);
    a, b, c := parts[0], parts[1], parts[2];
    assert parts == [a, b, c];
    JoinThree(a, b, c);
    assert v == "v" + v[1..];
  }

  function Decimal(n: nat): (s: string)
    ensures Digits(s)
  {
    var last := '0' + (n % 10) as char;
    if n < 10 then [last] else Decimal(n / 10) + [last]
  }

  lemma {:induction false} DecimalValue(n: nat)
    ensures Value(Decimal(n)) == n
  {
    var s := Decimal(n);
    if n < 10 {
      assert s[..0] == [];
    } else {
      DecimalValue(n / 10);
      assert s[..|s| - 1] == Decimal(n / 10);
    }
  }

  /** A release as its numbers are written. */
  function Written(r: Release): string {
    "v" + Join(Decimal(r.major), Decimal(r.minor), Decimal(r.patch))
  }

  predicate InRange(r: Release) {
    r.major <= 9223372036854775807 && r.minor <= 9223372036854775807 && r.patch <= 9223372036854775807
  }

  /** Writing numbers out and parsing them gives them back, up to the largest 64-bit int and no further. */
  lemma ReleaseRoundTrip(r: Release)
    ensures ParseRelease(Written(r)) == if InRange(r) then Some(r) else None
  {
    DecimalValue(r.major);
    DecimalValue(r.minor);
    DecimalValue(r.patch);
    WrittenReleaseParses(Decimal(r.major), Decimal(r.minor), Decimal(r.patch));
  }

  /** Written releases compare as their numbers do: major first, then minor, then patch. */
  lemma CompareWritten(x: Release, y: Release)
    requires InRange(x) && InRange(y)
    ensures CompareReleases(Written(x), Written(y)) == Some(1)
            <==> || x.major > y.major
                 || (x.major == y.major && x.minor > y.minor)
                 || (x.major == y.major && x.minor == y.minor && x.patch > y.patch)
    ensures CompareReleases(Written(x), Written(y)) == Some(0) <==> x == y
    ensures CompareReleases(Written(x), Written(y)) == Some(-1) <==> Later(y, x)
  {
    ReleaseRoundTrip(x);
    ReleaseRoundTrip(y);
  }
}
