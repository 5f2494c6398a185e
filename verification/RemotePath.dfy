/**
The command git asks ssh to run: a service name and a shell-quoted repository
path, reduced to the owner/repo pair the proxy gates on.
*/
module RemotePath {
  import opened ByteStrings
  import opened Wrappers

  // ------------------------------------------------------------------
  // Undoing the shell's quoting
  // ------------------------------------------------------------------

  datatype Unquoted = Path(bytes: Bytes) | UnterminatedQuote | TrailingEscape

  function After(head: Bytes, r: Unquoted): Unquoted {
    if r.Path? then Path(head + r.bytes) else r
  }

  /** A quoted stretch stands for itself, an escaped byte for that byte, any other byte for itself. */
  function Shell(s: Bytes): Unquoted
    decreases |s|
  {
    if s == [] then Path([])
    else if s[0] == QUOTE then
      var i := IndexByte(s[1..], QUOTE);
      if i == |s| - 1 then UnterminatedQuote
      else After(s[1..1 + i], Shell(s[2 + i..]))
    else if s[0] == BACKSLASH then
      if |s| == 1 then TrailingEscape else After([s[1]], Shell(s[2..]))
    else After([s[0]], Shell(s[1..]))
  }

  /** Text that does not open with a quote is taken as it is. */
  function Unquote(s: Bytes): Unquoted {
    if HasPrefix(s, [QUOTE]) then Shell(s) else Path(s)
  }

  lemma AfterAfter(a: Bytes, b: Bytes, r: Unquoted)
    ensures After(a, After(b, r)) == After(a + b, r)
  {
    if r.Path? {
      assert a + (b + r.bytes) == a + b + r.bytes;
    }
  }

  /** Copies the quoted stretch that begins at start, up to its closing quote or the end. */
  method CopyQuoted(s: Bytes, start: nat) returns (stretch: Bytes, i: nat)
    requires start <= |s|
    ensures i == start + IndexByte(s[start..], QUOTE)
    ensures start <= i <= |s| && stretch == s[start..i]
  {
    stretch, i := [], start;
    while i < |s| && s[i] != QUOTE
      invariant start <= i <= |s|
      invariant stretch == s[start..i]
      invariant QUOTE !in stretch
    {
      stretch := stretch + [s[i]];
      i := i + 1;
    }
    if i < |s| {
      assert s[start..] == s[start..i] + [QUOTE] + s[i + 1..];
      IndexByteAt(s[start..i], QUOTE, s[i + 1..]);
    } else {
      assert s[start..] == s[start..i];
      IndexByteAbsent(s[start..], QUOTE);
    }
  }

  /** From a quote, its stretch and what follows the closing quote; or no closing quote. */
  lemma ShellFromQuote(s: Bytes, i: nat, stop: nat)
    requires i < |s| && s[i] == QUOTE && stop == i + 1 + IndexByte(s[i + 1..], QUOTE)
    ensures stop < |s| ==> Shell(s[i..]) == After(s[i + 1..stop], Shell(s[stop + 1..]))
    ensures stop >= |s| ==> Shell(s[i..]) == UnterminatedQuote
  {
    var rest := s[i..];
    assert rest[1..] == s[i + 1..];
    if stop < |s| {
      assert rest[1..stop - i] == s[i + 1..stop] && rest[stop - i + 1..] == s[stop + 1..];
    }
  }

  lemma ShellFromEscape(s: Bytes, i: nat)
    requires i < |s| && s[i] == BACKSLASH
    ensures i + 1 < |s| ==> Shell(s[i..]) == After([s[i + 1]], Shell(s[i + 2..]))
    ensures i + 1 == |s| ==> Shell(s[i..]) == TrailingEscape
  {
    if i + 1 < |s| {
      assert s[i..][2..] == s[i + 2..];
    }
  }

  lemma ShellFromPlain(s: Bytes, i: nat)
    requires i < |s| && s[i] != QUOTE && s[i] != BACKSLASH
    ensures Shell(s[i..]) == After([s[i]], Shell(s[i + 1..]))
  {
    assert s[i..][1..] == s[i + 1..];
  }

  method UnquotePath(s: Bytes) returns (r: Unquoted)
    ensures r == Unquote(s)
  {
    if !HasPrefix(s, [QUOTE]) {
      return Path(s);
    }
    var b: Bytes, i: nat := [], 0;
    assert s[0..] == s;
    ghost var whole := Shell(s);
    while i < |s|
      invariant i <= |s|
      invariant whole == After(b, Shell(s[i..]))
    {
      if s[i] == QUOTE {
        var stretch, stop := CopyQuoted(s, i + 1);
        ShellFromQuote(s, i, stop);
        if stop >= |s| {
          return UnterminatedQuote;
        }
        AfterAfter(b, stretch, Shell(s[stop + 1..]));
        b, i := b + stretch, stop + 1;
      } else if s[i] == BACKSLASH {
        ShellFromEscape(s, i);
        if i + 1 >= |s| {
          return TrailingEscape;
        }
        AfterAfter(b, [s[i + 1]], Shell(s[i + 2..]));
        b, i := b + [s[i + 1]], i + 2;
      } else {
        ShellFromPlain(s, i);
        AfterAfter(b, [s[i]], Shell(s[i + 1..]));
        b, i := b + [s[i]], i + 1;
      }
    }
    r := Path(b);
  }

  // ------------------------------------------------------------------
  // Git's quoting, and the round trip
  // ------------------------------------------------------------------

  /** Quotes p, closing, escaping and reopening at each byte of esc (git's own esc is ' and !). */
  function Quote(p: Bytes, esc: set<byte>): Bytes {
    [QUOTE] + Inside(p, esc) + [QUOTE]
  }

  function Inside(p: Bytes, esc: set<byte>): Bytes {
    if p == [] then []
    else (if p[0] in esc then [QUOTE, BACKSLASH, p[0], QUOTE] else [p[0]]) + Inside(p[1..], esc)
  }

  /** How far p runs before its first escaped byte. */
  function Plain(p: Bytes, esc: set<byte>): (n: nat)
    ensures n <= |p|
    ensures forall i :: 0 <= i < n ==> p[i] !in esc
    ensures n < |p| ==> p[n] in esc
  {
    if p == [] || p[0] in esc then 0 else 1 + Plain(p[1..], esc)
  }

  lemma {:induction false} InsideSplit(p: Bytes, esc: set<byte>, n: nat)
    requires n <= |p| && forall i :: 0 <= i < n ==> p[i] !in esc
    ensures Inside(p, esc) == p[..n] + Inside(p[n..], esc)
  {
    if n == 0 {
      assert p[0..] == p;
    } else {
      InsideSplit(p[1..], esc, n - 1);
      assert p[1..][n - 1..] == p[n..];
      assert [p[0]] + p[1..][..n - 1] == p[..n];
    }
  }

  /** One quoted stretch, closed where it was closed. */
  lemma ShellStretch(stretch: Bytes, rest: Bytes)
    requires QUOTE !in stretch
    ensures Shell([QUOTE] + stretch + [QUOTE] + rest) == After(stretch, Shell(rest))
  {
    var s := [QUOTE] + stretch + [QUOTE] + rest;
    assert s[1..] == stretch + [QUOTE] + rest;
    IndexByteAt(stretch, QUOTE, rest);
    assert s[1..1 + |stretch|] == stretch && s[2 + |stretch|..] == rest;
  }

  /** The stretch before the first escaped byte c, then c, then the quoting of the rest. */
  lemma QuoteSplit(head: Bytes, c: byte, more: Bytes, esc: set<byte>, rest: Bytes)
    requires c in esc && forall i :: 0 <= i < |head| ==> head[i] !in esc
    ensures Quote(head + [c] + more, esc) + rest
         == [QUOTE] + head + [QUOTE] + ([BACKSLASH, c] + (Quote(more, esc) + rest))
  {
    var p := head + [c] + more;
    InsideSplit(p, esc, |head|);
    assert p[..|head|] == head && p[|head|..] == [c] + more && ([c] + more)[1..] == more;
    assert Inside(p, esc) == head + ([QUOTE, BACKSLASH, c, QUOTE] + Inside(more, esc));
  }

  lemma EscapedThen(head: Bytes, c: byte, more: Bytes, remainder: Bytes, r: Unquoted)
    requires QUOTE !in head && Shell(remainder) == After(more, r)
    ensures Shell([QUOTE] + head + [QUOTE] + ([BACKSLASH, c] + remainder)) == After(head + [c] + more, r)
  {
    var escaped := [BACKSLASH, c] + remainder;
    ShellStretch(head, escaped);
    assert escaped[2..] == remainder;
    AfterAfter([c], more, r);
    AfterAfter(head, [c] + more, r);
    assert head + ([c] + more) == head + [c] + more;
  }

  lemma {:induction false} QuoteReadsBack(p: Bytes, esc: set<byte>, rest: Bytes)
    requires QUOTE in esc
    ensures Shell(Quote(p, esc) + rest) == After(p, Shell(rest))
    decreases |p|
  {
    var n := Plain(p, esc);
    if n == |p| {
      InsideSplit(p, esc, n);
      assert p[n..] == [] && p[..n] == p;
      assert Quote(p, esc) + rest == [QUOTE] + p + [QUOTE] + rest;
      ShellStretch(p, rest);
    } else {
      var head, c, more := p[..n], p[n], p[n + 1..];
      assert p == head + [c] + more;
      QuoteSplit(head, c, more, esc, rest);
      QuoteReadsBack(more, esc, rest);
      EscapedThen(head, c, more, Quote(more, esc) + rest, Shell(rest));
    }
  }

  /** Unquoting git's quoting of any byte string gives the string back. */
  lemma UnquoteQuote(p: Bytes, esc: set<byte>)
    requires QUOTE in esc
    ensures Unquote(Quote(p, esc)) == Path(p)
  {
    QuoteReadsBack(p, esc, []);
    assert Quote(p, esc) + [] == Quote(p, esc);
    assert p + [] == p;
  }

  // ------------------------------------------------------------------
  // owner/repo
  // ------------------------------------------------------------------

  const DOT_GIT: Bytes := [46, 103, 105, 116]

  predicate SegmentByte(c: byte) {
    97 <= c <= 122 || 65 <= c <= 90 || 48 <= c <= 57 || c == 46 || c == 95 || c == 45
  }

  /** The proxy's own admission rule. */
  predicate ValidRepoSegment(s: Bytes) {
    && s != []
    && (forall i :: 0 <= i < |s| - 1 ==> !(s[i] == 46 && s[i + 1] == 46))
    && (forall i :: 0 <= i < |s| ==> SegmentByte(s[i]))
  }

  /** An admissible segment is not empty, holds only letters, digits, dot, underscore and dash, and no two dots in a row. */
  lemma SegmentRule(s: Bytes)
    ensures ValidRepoSegment(s)
            <==> && s != []
                 && (forall i :: 0 <= i < |s| ==>
                       'a' <= Text(s)[i] <= 'z' || 'A' <= Text(s)[i] <= 'Z' || '0' <= Text(s)[i] <= '9'
                       || Text(s)[i] == '.' || Text(s)[i] == '_' || Text(s)[i] == '-')
                 && (forall i :: 0 <= i < |s| - 1 ==> Text(s)[i] != '.' || Text(s)[i + 1] != '.')
  {
    var t := Text(s);
    assert forall i :: 0 <= i < |s| ==> t[i] == (s[i] as int) as char;
  }

  lemma DotGitText()
    ensures Text(DOT_GIT) == ".git"
  {
  }

  datatype Pair = Pair(owner: Bytes, repo: Bytes)

  function SplitOwnerRepo(path: Bytes): (r: Option<Pair>) {
    var trimmed := TrimSuffix(TrimSlashes(path), DOT_GIT);
    var i := IndexByte(trimmed, SLASH);
    if i == |trimmed| then None
    else
      var owner, repo := trimmed[..i], trimmed[i + 1..];
      if ValidRepoSegment(owner) && ValidRepoSegment(repo) then Some(Pair(owner, repo)) else None
  }

  /** n copies of b. */
  function Repeat(b: byte, n: nat): (s: Bytes)
    ensures |s| == n && forall i :: 0 <= i < n ==> s[i] == b
  {
    seq(n, i => b)
  }

  /** One way to write a repository's path. */
  datatype Spelling = Spelling(leading: nat, trailing: nat, dotGit: bool)

  function Spell(pair: Pair, how: Spelling): Bytes {
    Repeat(SLASH, how.leading)
      + (pair.owner + [SLASH] + pair.repo + (if how.dotGit then DOT_GIT else []))
      + Repeat(SLASH, how.trailing)
  }

  /** The pair is written so that stripping one ".git" gives it back. */
  predicate Faithful(pair: Pair, how: Spelling) {
    how.dotGit || !HasSuffix(pair.repo, DOT_GIT)
  }

  predicate ValidPair(pair: Pair) {
    ValidRepoSegment(pair.owner) && ValidRepoSegment(pair.repo)
  }

  predicate Trimmed(core: Bytes) {
    core == [] || (core[0] != SLASH && core[|core| - 1] != SLASH)
  }

  lemma {:induction false} TrimSlashesStrips(a: nat, core: Bytes, b: nat)
    requires core != [] && Trimmed(core)
    ensures TrimSlashes(Repeat(SLASH, a) + core + Repeat(SLASH, b)) == core
    decreases a + b
  {
    var s := Repeat(SLASH, a) + core + Repeat(SLASH, b);
    if a > 0 {
      assert s[1..] == Repeat(SLASH, a - 1) + core + Repeat(SLASH, b);
      TrimSlashesStrips(a - 1, core, b);
    } else {
      assert s == core + Repeat(SLASH, b);
      if b > 0 {
        assert s[..|s| - 1] == Repeat(SLASH, a) + core + Repeat(SLASH, b - 1);
        TrimSlashesStrips(a, core, b - 1);
      } else {
        assert s == core;
      }
    }
  }

  lemma {:induction false} TrimSlashesLeaves(s: Bytes) returns (a: nat, b: nat)
    ensures Trimmed(TrimSlashes(s))
    ensures s == Repeat(SLASH, a) + TrimSlashes(s) + Repeat(SLASH, b)
    decreases |s|
  {
    if s == [] {
      a, b := 0, 0;
    } else if s[0] == SLASH {
      a, b := TrimSlashesLeaves(s[1..]);
      a := a + 1;
      assert s == [SLASH] + s[1..];
      assert Repeat(SLASH, a) == [SLASH] + Repeat(SLASH, a - 1);
    } else if s[|s| - 1] == SLASH {
      a, b := TrimSlashesLeaves(s[..|s| - 1]);
      b := b + 1;
      assert s == s[..|s| - 1] + [SLASH];
      assert Repeat(SLASH, b) == Repeat(SLASH, b - 1) + [SLASH];
    } else {
      a, b := 0, 0;
    }
  }

  lemma NoSlashInSegment(s: Bytes)
    requires ValidRepoSegment(s)
    ensures SLASH !in s && s[0] != SLASH && s[|s| - 1] != SLASH
    ensures 32 < s[0] < 0x80
  {
  }

  lemma SuffixOfTail(a: Bytes, repo: Bytes)
    requires ValidRepoSegment(repo)
    ensures HasSuffix(a + [SLASH] + repo, DOT_GIT) <==> HasSuffix(repo, DOT_GIT)
  {
    var s := a + [SLASH] + repo;
    if |repo| >= 4 {
      assert s[|s| - 4..] == repo[|repo| - 4..];
    } else if |s| >= 4 {
      assert s[|s| - 4..][3 - |repo|] == SLASH;
    }
  }

  /** Cutting the trimmed text gives the pair back exactly when it was written faithfully. */
  lemma CutCore(pair: Pair, dotGit: bool)
    requires ValidPair(pair)
    ensures var core := pair.owner + [SLASH] + pair.repo + (if dotGit then DOT_GIT else []);
            var cut := TrimSuffix(core, DOT_GIT);
            cut == pair.owner + [SLASH] + pair.repo <==> dotGit || !HasSuffix(pair.repo, DOT_GIT)
  {
    var plain := pair.owner + [SLASH] + pair.repo;
    SuffixOfTail(pair.owner, pair.repo);
    if dotGit {
      assert (plain + DOT_GIT)[|plain|..] == DOT_GIT;
      assert (plain + DOT_GIT)[..|plain|] == plain;
    } else {
      assert plain + [] == plain;
    }
  }

  lemma SplitAtSlash(pair: Pair)
    requires ValidPair(pair)
    ensures var s := pair.owner + [SLASH] + pair.repo;
            var i := IndexByte(s, SLASH);
            i == |pair.owner| && s[..i] == pair.owner && s[i + 1..] == pair.repo
  {
    NoSlashInSegment(pair.owner);
    IndexByteAt(pair.owner, SLASH, pair.repo);
  }

  /** Every spelling of a pair is read as that pair, unless it leaves a repository's own ".git" bare. */
  lemma SpellingsAgree(pair: Pair, how: Spelling)
    requires ValidPair(pair)
    ensures SplitOwnerRepo(Spell(pair, how)) == Some(pair) <==> Faithful(pair, how)
  {
    var core := pair.owner + [SLASH] + pair.repo + (if how.dotGit then DOT_GIT else []);
    NoSlashInSegment(pair.owner);
    NoSlashInSegment(pair.repo);
    assert Trimmed(core);
    TrimSlashesStrips(how.leading, core, how.trailing);
    CutCore(pair, how.dotGit);
    SplitAtSlash(pair);
    var cut := TrimSuffix(core, DOT_GIT);
    if SplitOwnerRepo(Spell(pair, how)) == Some(pair) {
      var i := IndexByte(cut, SLASH);
      assert cut == cut[..i] + [SLASH] + cut[i + 1..];
    }
  }

  /** Nothing else is read: an accepted path is a faithful spelling of the pair it gives. */
  lemma OnlySpellingsSplit(path: Bytes) returns (how: Spelling)
    requires SplitOwnerRepo(path).Some?
    ensures var pair := SplitOwnerRepo(path).value;
            ValidPair(pair) && path == Spell(pair, how) && Faithful(pair, how)
  {
    var a, b := TrimSlashesLeaves(path);
    var core := TrimSlashes(path);
    how := Spelling(a, b, HasSuffix(core, DOT_GIT));
    var cut := TrimSuffix(core, DOT_GIT);
    var pair := SplitOwnerRepo(path).value;
    assert cut == pair.owner + [SLASH] + pair.repo;
    assert core == cut + (if how.dotGit then DOT_GIT else []);
    SuffixOfTail(pair.owner, pair.repo);
  }

  // ------------------------------------------------------------------
  // The whole command
  // ------------------------------------------------------------------

  datatype Remote = Remote(service: Bytes, pair: Pair)

  /** strings.Cut at the first space, each part trimmed as the source trims it. */
  function ParseRemoteCommand(command: Bytes): (r: Option<Remote>) {
    var text := TrimSpace(command);
    var i := IndexByte(text, SPACE);
    if i == |text| then None
    else
      var path := Unquote(TrimSpace(text[i + 1..]));
      if !path.Path? then None
      else
        var pair := SplitOwnerRepo(path.bytes);
        if pair.None? then None else Some(Remote(text[..i], pair.value))
  }

  predicate Visible(s: Bytes) {
    s != [] && 32 < s[0] < 0x80 && 32 < s[|s| - 1] < 0x80
  }

  lemma TrimFront(s: Bytes)
    requires s != [] && s[0] == SPACE
    ensures TrimSpace(s) == TrimSpace(s[1..])
  {
  }

  lemma TrimBack(s: Bytes)
    requires s != [] && 32 < s[0] < 0x80 && s[|s| - 1] == SPACE
    ensures TrimSpace(s) == TrimSpace(s[..|s| - 1])
  {
  }

  lemma {:induction false} TrimSpaceStrips(a: nat, core: Bytes, b: nat)
    requires Visible(core)
    ensures TrimSpace(Repeat(SPACE, a) + core + Repeat(SPACE, b)) == core
    decreases a + b
  {
    var s := Repeat(SPACE, a) + core + Repeat(SPACE, b);
    if a > 0 {
      assert s[1..] == Repeat(SPACE, a - 1) + core + Repeat(SPACE, b);
      TrimFront(s);
      TrimSpaceStrips(a - 1, core, b);
    } else if b > 0 {
      assert s[..|s| - 1] == Repeat(SPACE, a) + core + Repeat(SPACE, b - 1);
      assert s[0] == core[0];
      TrimBack(s);
      TrimSpaceStrips(a, core, b - 1);
    } else {
      assert s == core;
      TrimSpaceNothing(core);
    }
  }

  /** What git passes to ssh for a path: bare, or quoted with any set of escapes. */
  datatype Writing = Bare | Quoted(esc: set<byte>)

  function Written(path: Bytes, writing: Writing): Bytes {
    if writing.Bare? then path else Quote(path, writing.esc)
  }

  lemma WrittenReads(pair: Pair, how: Spelling, writing: Writing)
    requires ValidPair(pair) && (writing.Quoted? ==> QUOTE in writing.esc)
    ensures Visible(Written(Spell(pair, how), writing))
    ensures Unquote(Written(Spell(pair, how), writing)) == Path(Spell(pair, how))
  {
    var path := Spell(pair, how);
    NoSlashInSegment(pair.owner);
    NoSlashInSegment(pair.repo);
    if writing.Quoted? {
      UnquoteQuote(path, writing.esc);
    } else {
      SpellEnds(pair, how);
    }
  }

  lemma SpellEnds(pair: Pair, how: Spelling)
    requires ValidPair(pair)
    ensures Visible(Spell(pair, how)) && Spell(pair, how)[0] != QUOTE
  {
    var path := Spell(pair, how);
    assert path[0] == if how.leading > 0 then SLASH else pair.owner[0];
    assert path[|path| - 1] ==
      if how.trailing > 0 then SLASH
      else if how.dotGit then DOT_GIT[3]
      else pair.repo[|pair.repo| - 1];
  }

  /**
  Spaces around and between, bare or quoted, with any number of slashes and
  with or without ".git": the command names that service and that repository
  exactly when the spelling is faithful.
  */
  lemma CommandNamesTheRepository(
    service: Bytes, pair: Pair, how: Spelling, writing: Writing, before: nat, between: nat, behind: nat
  )
    requires Visible(service) && SPACE !in service
    requires ValidPair(pair) && (writing.Quoted? ==> QUOTE in writing.esc)
    ensures var arg := Repeat(SPACE, between) + Written(Spell(pair, how), writing);
            var command := Repeat(SPACE, before) + (service + [SPACE] + arg) + Repeat(SPACE, behind);
            ParseRemoteCommand(command) == Some(Remote(service, pair)) <==> Faithful(pair, how)
  {
    var arg := Written(Spell(pair, how), writing);
    WrittenReads(pair, how, writing);
    var tail := Repeat(SPACE, between) + arg;
    var text := service + [SPACE] + tail;
    assert text[0] == service[0] && text[|text| - 1] == arg[|arg| - 1];
    TrimSpaceStrips(before, text, behind);
    IndexByteAt(service, SPACE, tail);
    assert text[..|service|] == service && text[|service| + 1..] == tail;
    assert tail == tail + Repeat(SPACE, 0);
    TrimSpaceStrips(between, arg, 0);
    SpellingsAgree(pair, how);
  }
}
