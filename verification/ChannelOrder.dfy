/**
The order of a team's Slack channel list: three sort keys, two directions,
every order ending in the channel id. Channels with distinct ids have exactly
one sorted order, so offset paging over repeated reads skips and repeats none.
*/
module ChannelOrder {
  import opened ByteStrings
  import opened Wrappers

  datatype Tracker = Tracker(team: string, isPrimary: bool)

  datatype Channel = Channel(
    channelId: Bytes, // Slack's id
    id: string, // the registry row's, empty when there is none
    name: Bytes,
    workspace: string,
    source: Source,
    tracked: bool,
    isPrimary: bool,
    trackedBy: seq<Tracker>,
    lastMention: Option<int>,
    isPrivate: bool,
    botIsMember: bool)

  datatype Source = Unset | FromTracked | FromSighting | FromSlack

  datatype SortKey = ByDefault | ByName | ByLastMention | ByPrimary

  datatype Order = Order(key: SortKey, desc: bool)

  // ------------------------------------------------------------------
  // The comparator
  // ------------------------------------------------------------------

  /** strings.Compare. */
  function CompareBytes(a: Bytes, b: Bytes): int {
    if a == [] then (if b == [] then 0 else -1)
    else if b == [] then 1
    else if a[0] != b[0] then (if a[0] < b[0] then -1 else 1)
    else CompareBytes(a[1..], b[1..])
  }

  function CompareInts(a: int, b: int): int {
    if a < b then -1 else if a == b then 0 else 1
  }

  /** The direction turns a comparison round. */
  function Toward(c: int, desc: bool): int {
    if desc then -c else c
  }

  /** The first comparison that tells the two apart. */
  function Then(first: int, second: int): int {
    if first != 0 then first else second
  }

  /** Named before unnamed, in both directions. */
  function CompareNamed(a: Channel, b: Channel): int {
    CompareInts(if a.name == [] then 1 else 0, if b.name == [] then 1 else 0)
  }

  function CompareChannelNames(a: Channel, b: Channel, desc: bool): int {
    Then(CompareNamed(a, b),
         Then(Toward(CompareBytes(a.name, b.name), desc), CompareBytes(a.channelId, b.channelId)))
  }

  function CompareLastMention(a: Channel, b: Channel, desc: bool): int {
    match (a.lastMention, b.lastMention)
    case (None, None) => 0
    case (None, Some(_)) => 1
    case (Some(_), None) => -1
    case (Some(x), Some(y)) => Toward(CompareInts(x, y), desc)
  }

  /** Whose primary the channel is: this team's, no team's though watched, another team's, unwatched. */
  function PrimaryRank(c: Channel): int {
    if c.isPrimary then 0
    else if exists i :: 0 <= i < |c.trackedBy| && c.trackedBy[i].isPrimary then 2
    else if c.trackedBy != [] then 1
    else 3
  }

  function CompareChannels(a: Channel, b: Channel, order: Order): int {
    match order.key
    case ByName => CompareChannelNames(a, b, order.desc)
    case ByLastMention => Then(CompareLastMention(a, b, order.desc), CompareChannelNames(a, b, false))
    case ByPrimary =>
      Then(Toward(CompareInts(PrimaryRank(a), PrimaryRank(b)), order.desc), CompareChannelNames(a, b, false))
    case ByDefault => CompareChannelNames(a, b, false)
  }

  // ------------------------------------------------------------------
  // A strict total order
  // ------------------------------------------------------------------

  /** The three comparisons of a, b and c fit together, in both directions. */
  predicate Chain(ab: int, bc: int, ac: int) {
    && (ab <= 0 && bc <= 0 ==> ac <= 0 && (ac == 0 ==> ab == 0 && bc == 0))
    && (ab >= 0 && bc >= 0 ==> ac >= 0 && (ac == 0 ==> ab == 0 && bc == 0))
  }

  lemma {:induction false} BytesAntisymmetric(a: Bytes, b: Bytes)
    ensures CompareBytes(b, a) == -CompareBytes(a, b)
    ensures CompareBytes(a, b) == 0 <==> a == b
  {
    if a != [] && b != [] {
      BytesAntisymmetric(a[1..], b[1..]);
      assert a == [a[0]] + a[1..] && b == [b[0]] + b[1..];
    }
  }

  lemma {:induction false} BytesChain(a: Bytes, b: Bytes, c: Bytes)
    ensures Chain(CompareBytes(a, b), CompareBytes(b, c), CompareBytes(a, c))
  {
    if a != [] && b != [] && c != [] {
      BytesChain(a[1..], b[1..], c[1..]);
    }
  }

  lemma ThenChain(ab: int, bc: int, ac: int, ab2: int, bc2: int, ac2: int)
    requires Chain(ab, bc, ac) && Chain(ab2, bc2, ac2)
    ensures Chain(Then(ab, ab2), Then(bc, bc2), Then(ac, ac2))
  {
  }

  lemma TowardChain(ab: int, bc: int, ac: int, desc: bool)
    requires Chain(ab, bc, ac)
    ensures Chain(Toward(ab, desc), Toward(bc, desc), Toward(ac, desc))
  {
  }

  lemma NamesChain(a: Channel, b: Channel, c: Channel, desc: bool)
    ensures Chain(CompareChannelNames(a, b, desc), CompareChannelNames(b, c, desc), CompareChannelNames(a, c, desc))
  {
    BytesChain(a.name, b.name, c.name);
    BytesChain(a.channelId, b.channelId, c.channelId);
  }

  lemma MentionChain(a: Channel, b: Channel, c: Channel, desc: bool)
    ensures Chain(CompareLastMention(a, b, desc), CompareLastMention(b, c, desc), CompareLastMention(a, c, desc))
  {
  }

  lemma NamesAntisymmetric(a: Channel, b: Channel, desc: bool)
    ensures CompareChannelNames(b, a, desc) == -CompareChannelNames(a, b, desc)
    ensures CompareChannelNames(a, b, desc) == 0 ==> a.channelId == b.channelId
  {
    BytesAntisymmetric(a.name, b.name);
    BytesAntisymmetric(a.channelId, b.channelId);
  }

  lemma MentionAntisymmetric(a: Channel, b: Channel, desc: bool)
    ensures CompareLastMention(b, a, desc) == -CompareLastMention(a, b, desc)
  {
  }

  /** Turning a pair round turns its comparison round. */
  lemma Antisymmetric(a: Channel, b: Channel, order: Order)
    ensures CompareChannels(b, a, order) == -CompareChannels(a, b, order)
  {
    NamesAntisymmetric(a, b, false);
    match order.key
    case ByName => NamesAntisymmetric(a, b, order.desc);
    case ByLastMention => MentionAntisymmetric(a, b, order.desc);
    case ByPrimary => RankAntisymmetric(PrimaryRank(a), PrimaryRank(b), order.desc);
    case ByDefault =>
  }

  lemma RankAntisymmetric(a: int, b: int, desc: bool)
    ensures Toward(CompareInts(b, a), desc) == -Toward(CompareInts(a, b), desc)
  {
  }

  lemma Transitive(a: Channel, b: Channel, c: Channel, order: Order)
    ensures Chain(CompareChannels(a, b, order), CompareChannels(b, c, order), CompareChannels(a, c, order))
  {
    NamesChain(a, b, c, false);
    var ab, bc, ac :=
      CompareChannelNames(a, b, false), CompareChannelNames(b, c, false), CompareChannelNames(a, c, false);
    match order.key
    case ByName => NamesChain(a, b, c, order.desc);
    case ByLastMention =>
      var desc := order.desc;
      MentionChain(a, b, c, desc);
      ThenChain(CompareLastMention(a, b, desc), CompareLastMention(b, c, desc), CompareLastMention(a, c, desc), ab, bc, ac);
    case ByPrimary => RankChain(PrimaryRank(a), PrimaryRank(b), PrimaryRank(c), order.desc, ab, bc, ac);
    case ByDefault =>
  }

  lemma RankChain(x: int, y: int, z: int, desc: bool, ab: int, bc: int, ac: int)
    requires Chain(ab, bc, ac)
    ensures Chain(Then(Toward(CompareInts(x, y), desc), ab), Then(Toward(CompareInts(y, z), desc), bc),
                  Then(Toward(CompareInts(x, z), desc), ac))
  {
    TowardChain(CompareInts(x, y), CompareInts(y, z), CompareInts(x, z), desc);
    ThenChain(Toward(CompareInts(x, y), desc), Toward(CompareInts(y, z), desc), Toward(CompareInts(x, z), desc), ab, bc, ac);
  }

  /** No order leaves two channels of different ids tied. */
  lemma TiesShareTheId(a: Channel, b: Channel, order: Order)
    requires CompareChannels(a, b, order) == 0
    ensures a.channelId == b.channelId
  {
    NamesAntisymmetric(a, b, order.desc);
    NamesAntisymmetric(a, b, false);
  }

  /** The value key orders by, absent when the channel has none; the direction turns only values. */
  ghost predicate Valued(c: Channel, key: SortKey) {
    match key
    case ByName => c.name != []
    case ByLastMention => c.lastMention.Some?
    case ByPrimary => true
    case ByDefault => false
  }

  /** Both have a value of the key and the values differ. */
  ghost predicate ValuesDiffer(a: Channel, b: Channel, key: SortKey) {
    && Valued(a, key) && Valued(b, key)
    && match key
       case ByName => a.name != b.name
       case ByLastMention => a.lastMention != b.lastMention
       case ByPrimary => PrimaryRank(a) != PrimaryRank(b)
       case ByDefault => false
  }

  /**
  A missing value sorts last in both directions, descending reverses exactly
  the pairs whose values differ, and every other pair keeps its ascending order.
  */
  lemma DirectionTurnsValuesOnly(a: Channel, b: Channel, key: SortKey)
    ensures var up, down := CompareChannels(a, b, Order(key, false)), CompareChannels(a, b, Order(key, true));
            && down == (if ValuesDiffer(a, b, key) then -up else up)
            && (!key.ByDefault? && Valued(a, key) && !Valued(b, key) ==> up < 0)
  {
    BytesAntisymmetric(a.name, b.name);
  }

  /** Where the key does not tell two channels apart, the default order does. */
  lemma TiesGoByName(a: Channel, b: Channel, order: Order)
    requires Valued(a, order.key) == Valued(b, order.key) && !ValuesDiffer(a, b, order.key)
    ensures CompareChannels(a, b, order) == CompareChannels(a, b, Order(ByDefault, false))
  {
    BytesAntisymmetric(a.name, b.name);
  }

  // ------------------------------------------------------------------
  // Which way is up
  // ------------------------------------------------------------------

  /** a is a proper prefix of b, or has the smaller byte where they first differ. */
  ghost predicate SmallerText(a: Bytes, b: Bytes) {
    || (|a| < |b| && b[..|a|] == a)
    || exists k :: 0 <= k < |a| && k < |b| && a[..k] == b[..k] && a[k] < b[k]
  }

  lemma {:induction false} CompareBytesMeans(a: Bytes, b: Bytes)
    requires SmallerText(a, b)
    ensures CompareBytes(a, b) == -1
  {
    if a != [] && b != [] {
      if k :| 0 <= k < |a| && k < |b| && a[..k] == b[..k] && a[k] < b[k] {
        if k > 0 {
          assert a[..k][0] == b[..k][0];
          assert a[1..][..k - 1] == a[..k][1..] && b[1..][..k - 1] == b[..k][1..];
          assert a[1..][k - 1] == a[k] && b[1..][k - 1] == b[k];
          CompareBytesMeans(a[1..], b[1..]);
        }
      } else {
        assert b[..|a|][0] == a[0];
        assert b[1..][..|a[1..]|] == b[..|a|][1..];
        CompareBytesMeans(a[1..], b[1..]);
      }
    }
  }

  lemma NamesAscend(a: Channel, b: Channel)
    ensures a.name != [] && b.name == [] ==> CompareChannelNames(a, b, false) < 0 && CompareChannelNames(a, b, true) < 0
    ensures a.name != [] && b.name != [] && SmallerText(a.name, b.name) ==>
              CompareChannelNames(a, b, false) < 0 && CompareChannelNames(a, b, true) > 0
    ensures a.name == b.name && SmallerText(a.channelId, b.channelId) ==>
              CompareChannelNames(a, b, false) < 0 && CompareChannelNames(a, b, true) < 0
  {
    BytesAntisymmetric(a.name, b.name);
    if SmallerText(a.name, b.name) {
      CompareBytesMeans(a.name, b.name);
    }
    if SmallerText(a.channelId, b.channelId) {
      CompareBytesMeans(a.channelId, b.channelId);
    }
  }

  /** Some tracker of the channel has it as its primary. */
  predicate SomePrimary(c: Channel) {
    exists i :: 0 <= i < |c.trackedBy| && c.trackedBy[i].isPrimary
  }

  /**
  What sorts first. By name and by default: the name smaller at its first
  differing byte, or a proper prefix; between equal names the smaller id in
  either direction. By last mention: the earlier one. By primary: this team's,
  then watched with no primary, then another team's, then unwatched.
  Descending turns each of these round but the ids.
  */
  lemma WhatSortsFirst(a: Channel, b: Channel, desc: bool)
    ensures a.name != [] && b.name != [] && SmallerText(a.name, b.name) ==>
              && CompareChannels(a, b, Order(ByDefault, desc)) < 0
              && if desc then CompareChannels(a, b, Order(ByName, desc)) > 0 else CompareChannels(a, b, Order(ByName, desc)) < 0
    ensures a.name == b.name && SmallerText(a.channelId, b.channelId) ==>
              CompareChannels(a, b, Order(ByDefault, desc)) < 0 && CompareChannels(a, b, Order(ByName, desc)) < 0
    ensures a.lastMention.Some? && b.lastMention.Some? && a.lastMention.value < b.lastMention.value ==>
              if desc then CompareChannels(a, b, Order(ByLastMention, desc)) > 0
              else CompareChannels(a, b, Order(ByLastMention, desc)) < 0
    ensures || (a.isPrimary && !b.isPrimary)
            || (!a.isPrimary && !SomePrimary(a) && a.trackedBy != [] && !b.isPrimary && (SomePrimary(b) || b.trackedBy == []))
            || (!a.isPrimary && SomePrimary(a) && !b.isPrimary && b.trackedBy == [])
            ==> if desc then CompareChannels(a, b, Order(ByPrimary, desc)) > 0
                else CompareChannels(a, b, Order(ByPrimary, desc)) < 0
  {
    NamesAscend(a, b);
  }

  // ------------------------------------------------------------------
  // One sorted order
  // ------------------------------------------------------------------

  ghost predicate DistinctIds(cs: seq<Channel>) {
    forall i, j :: 0 <= i < j < |cs| ==> cs[i].channelId != cs[j].channelId
  }

  ghost predicate Sorted(cs: seq<Channel>, order: Order) {
    forall i, j :: 0 <= i < j < |cs| ==> CompareChannels(cs[i], cs[j], order) <= 0
  }

  /** Neighbours in order are enough. */
  lemma {:induction false} SortedByNeighbours(cs: seq<Channel>, order: Order, i: nat, j: nat)
    requires forall k :: 0 <= k < |cs| - 1 ==> CompareChannels(cs[k], cs[k + 1], order) <= 0
    requires i < j < |cs|
    ensures CompareChannels(cs[i], cs[j], order) <= 0
    decreases j
  {
    if i + 1 < j {
      SortedByNeighbours(cs, order, i, j - 1);
      Transitive(cs[i], cs[j - 1], cs[j], order);
      assert CompareChannels(cs[j - 1], cs[j - 1 + 1], order) <= 0;
    }
  }

  /** What slices.SortFunc promises, whatever its algorithm. */
  ghost predicate SortsTo(cs: seq<Channel>, out: seq<Channel>, order: Order) {
    multiset(out) == multiset(cs) && Sorted(out, order)
  }

  lemma {:induction false} PermutedIds(cs: seq<Channel>, out: seq<Channel>)
    requires DistinctIds(cs) && multiset(out) == multiset(cs)
    ensures DistinctIds(out)
  {
    forall i, j | 0 <= i < j < |out|
      ensures out[i].channelId != out[j].channelId
    {
      if out[i].channelId == out[j].channelId {
        assert out[i] in multiset(cs) && out[j] in multiset(cs);
        var k, l :| 0 <= k < |cs| && 0 <= l < |cs| && cs[k] == out[i] && cs[l] == out[j];
        assert k == l;
        TwiceInMultiset(out, i, j);
        OnceInMultiset(cs, k);
      }
    }
  }

  lemma TwiceInMultiset(s: seq<Channel>, i: nat, j: nat)
    requires i < j < |s| && s[i] == s[j]
    ensures multiset(s)[s[i]] >= 2
  {
    assert s == s[..j] + [s[j]] + s[j + 1..];
    assert s[i] in s[..j];
  }

  lemma OnceInMultiset(s: seq<Channel>, k: nat)
    requires k < |s| && DistinctIds(s)
    ensures multiset(s)[s[k]] <= 1
  {
    assert s == s[..k] + [s[k]] + s[k + 1..];
    assert s[k] !in s[..k] && s[k] !in s[k + 1..];
  }

  /** Two sorted arrangements of the same distinct channels begin with the same one. */
  lemma SameFirst(p: seq<Channel>, q: seq<Channel>, order: Order)
    requires p != [] && DistinctIds(q) && multiset(p) == multiset(q) && Sorted(p, order) && Sorted(q, order)
    ensures q != [] && p[0] == q[0]
  {
    assert p[0] in multiset(q);
    var k :| 0 <= k < |q| && q[k] == p[0];
    assert q[0] in multiset(p);
    var l :| 0 <= l < |p| && p[l] == q[0];
    if k > 0 && l > 0 {
      Antisymmetric(p[0], q[0], order);
      TiesShareTheId(p[0], q[0], order);
    }
  }

  lemma FirstRemoved(p: seq<Channel>)
    requires p != []
    ensures p == [p[0]] + p[1..] && multiset(p[1..]) == multiset(p) - multiset{p[0]}
  {
    assert p == [p[0]] + p[1..];
  }

  lemma {:induction false} SortedOnce(p: seq<Channel>, q: seq<Channel>, order: Order)
    requires DistinctIds(p) && DistinctIds(q) && multiset(p) == multiset(q) && Sorted(p, order) && Sorted(q, order)
    ensures p == q
  {
    if p == [] {
      assert |q| == |multiset(q)| == 0;
    } else {
      SameFirst(p, q, order);
      FirstRemoved(p);
      FirstRemoved(q);
      SortedOnce(p[1..], q[1..], order);
    }
  }

  /** Whatever the algorithm, and whatever order the channels came in, the sorted list is the same. */
  lemma SortIsUnique(cs: seq<Channel>, ds: seq<Channel>, p: seq<Channel>, q: seq<Channel>, order: Order)
    requires DistinctIds(cs) && multiset(cs) == multiset(ds) && SortsTo(cs, p, order) && SortsTo(ds, q, order)
    ensures p == q
  {
    PermutedIds(cs, p);
    PermutedIds(cs, q);
    SortedOnce(p, q, order);
  }

  // ------------------------------------------------------------------
  // Pages
  // ------------------------------------------------------------------

  datatype Page = Page(limit: nat, offset: nat, countOnly: bool)

  function ChannelPage(cs: seq<Channel>, page: Page): seq<Channel> {
    if page.countOnly || page.offset >= |cs| then []
    else if page.offset + page.limit < |cs| then cs[page.offset..page.offset + page.limit]
    else cs[page.offset..]
  }

  /** The offset the next page's token carries, if there is one. */
  function NextPage(page: Page, pageLen: nat, total: nat): Option<nat> {
    if page.offset + pageLen < total && pageLen > 0 then Some(page.offset + pageLen) else None
  }

  /** Follows tokens from offset, each page cut from its own read, and gives all rows served. */
  function Walk(lists: seq<seq<Channel>>, limit: nat, offset: nat): seq<Channel>
    decreases |lists|
  {
    if lists == [] then []
    else
      var page := Page(limit, offset, false);
      var items := ChannelPage(lists[0], page);
      var next := NextPage(page, |items|, |lists[0]|);
      items + if next.None? then [] else Walk(lists[1..], limit, next.value)
  }

  /** A page either ends the list, or its token points right after it. */
  lemma PageEnds(all: seq<Channel>, limit: nat, offset: nat)
    requires limit > 0 && offset <= |all|
    ensures var page := Page(limit, offset, false);
            var items := ChannelPage(all, page);
            match NextPage(page, |items|, |all|)
            case None => items == all[offset..]
            case Some(next) => offset < next <= |all| && all[offset..] == items + all[next..]
  {
    var items := ChannelPage(all, Page(limit, offset, false));
    if offset + |items| < |all| {
      assert all[offset..] == all[offset..offset + |items|] + all[offset + |items|..];
    }
  }

  lemma {:induction false} WalkReadsTheRest(lists: seq<seq<Channel>>, all: seq<Channel>, limit: nat, offset: nat)
    requires limit > 0 && offset <= |all| && |lists| > |all| - offset
    requires forall i :: 0 <= i < |lists| ==> lists[i] == all
    ensures Walk(lists, limit, offset) == all[offset..]
    decreases |lists|
  {
    var page := Page(limit, offset, false);
    var items := ChannelPage(all, page);
    assert lists[0] == all;
    PageEnds(all, limit, offset);
    var next := NextPage(page, |items|, |all|);
    if next.Some? {
      WalkReadsTheRest(lists[1..], all, limit, next.value);
    }
  }

  /**
  Each page read anew, filtered and sorted by any algorithm: following the
  tokens from the first page yields every matching channel once, in order.
  */
  lemma PagesCoverTheList(matched: seq<Channel>, lists: seq<seq<Channel>>, order: Order, limit: nat)
    requires DistinctIds(matched) && limit > 0 && |lists| > |matched|
    requires forall i :: 0 <= i < |lists| ==> SortsTo(matched, lists[i], order)
    ensures SortsTo(matched, Walk(lists, limit, 0), order) && Walk(lists, limit, 0) == lists[0]
  {
    forall i | 0 <= i < |lists|
      ensures lists[i] == lists[0]
    {
      SortIsUnique(matched, matched, lists[i], lists[0], order);
    }
    assert |lists[0]| == |multiset(lists[0])| == |multiset(matched)| == |matched|;
    WalkReadsTheRest(lists, lists[0], limit, 0);
  }
}
