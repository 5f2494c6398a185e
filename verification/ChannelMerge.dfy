/**
The merge behind the channel list: the team's tracked rows, the org's sighting
registry and the live Slack channels, by channel id, then each channel's
trackers; and the filter over the merged set.
*/
module ChannelMerge {
  import opened ByteStrings
  import opened Wrappers
  import opened ChannelOrder

  /** One row of a source. */
  datatype Entry =
    | TrackedRow(channel: Bytes, id: string, isPrimary: bool)
    | SightedRow(channel: Bytes, id: string, name: Bytes, workspace: string, lastMention: Option<int>)
    | LiveRow(channel: Bytes, name: Bytes, workspace: string, isPrivate: bool, botIsMember: bool)
    | TrackersRow(channel: Bytes, trackers: seq<Tracker>)

  function Bare(channel: Bytes): Channel {
    Channel(channel, "", [], "", Unset, false, false, [], None, false, false)
  }

  /** What one row does to its channel's view. */
  function Update(v: Channel, e: Entry): Channel {
    match e
    case TrackedRow(_, id, isPrimary) => v.(id := id, tracked := true, isPrimary := isPrimary, source := FromTracked)
    case SightedRow(_, id, name, workspace, lastMention) =>
      v.(id := id, source := Otherwise(v.source, FromSighting), name := if v.name == [] then name else v.name,
         workspace := if v.workspace == "" then workspace else v.workspace, lastMention := lastMention)
    case LiveRow(_, name, workspace, isPrivate, botIsMember) =>
      v.(source := Otherwise(v.source, FromSlack), name := if v.name == [] then name else v.name,
         workspace := if v.workspace == "" then workspace else v.workspace,
         isPrivate := isPrivate, botIsMember := botIsMember)
    case TrackersRow(_, trackers) => v.(trackedBy := trackers)
  }

  function Otherwise(source: Source, next: Source): Source {
    if source.Unset? then next else source
  }

  /** One channel's view after entries: none until a source names it, and trackers alone do not. */
  function View(entries: seq<Entry>, channel: Bytes): (v: Option<Channel>)
    ensures v.Some? ==> v.value.channelId == channel
  {
    if entries == [] then None
    else
      var before, e := View(entries[..|entries| - 1], channel), entries[|entries| - 1];
      if e.channel != channel then before
      else if before.Some? then Some(Update(before.value, e))
      else if e.TrackersRow? then None
      else Some(Update(Bare(channel), e))
  }

  // ------------------------------------------------------------------
  // The loops
  // ------------------------------------------------------------------

  /** The map holds each channel's view, and seen lists its keys, each once. */
  ghost predicate Holds(merged: map<Bytes, Channel>, seen: seq<Bytes>, entries: seq<Entry>) {
    && (forall c :: c in merged <==> View(entries, c).Some?)
    && (forall c :: c in merged ==> Some(merged[c]) == View(entries, c))
    && (forall c :: c in seen <==> c in merged)
    && (forall i, j :: 0 <= i < j < |seen| ==> seen[i] != seen[j])
  }

  lemma ViewNext(entries: seq<Entry>, e: Entry, c: Bytes)
    ensures c != e.channel ==> View(entries + [e], c) == View(entries, c)
    ensures View(entries, e.channel).Some? ==>
              View(entries + [e], e.channel) == Some(Update(View(entries, e.channel).value, e))
    ensures View(entries, e.channel).None? ==>
              View(entries + [e], e.channel) == if e.TrackersRow? then None else Some(Update(Bare(e.channel), e))
  {
    assert (entries + [e])[..|entries + [e]| - 1] == entries;
  }

  lemma HoldsNext(merged: map<Bytes, Channel>, seen: seq<Bytes>, entries: seq<Entry>, e: Entry)
    requires Holds(merged, seen, entries)
    ensures e.channel in merged ==> Holds(merged[e.channel := Update(merged[e.channel], e)], seen, entries + [e])
    ensures e.channel !in merged && e.TrackersRow? ==> Holds(merged, seen, entries + [e])
    ensures e.channel !in merged && !e.TrackersRow? ==>
              Holds(merged[e.channel := Update(Bare(e.channel), e)], seen + [e.channel], entries + [e])
  {
    forall c
      ensures c != e.channel ==> View(entries + [e], c) == View(entries, c)
    {
      ViewNext(entries, e, c);
    }
    ViewNext(entries, e, e.channel);
  }

  /** One source's rows, each found or created by channel id; trackers of an unknown channel are skipped. */
  method MergeIn(merged: map<Bytes, Channel>, seen: seq<Bytes>, rows: seq<Entry>, ghost done: seq<Entry>)
    returns (merged': map<Bytes, Channel>, seen': seq<Bytes>)
    requires Holds(merged, seen, done)
    ensures Holds(merged', seen', done + rows)
  {
    merged', seen' := merged, seen;
    assert done + rows[..0] == done;
    for n := 0 to |rows|
      invariant Holds(merged', seen', done + rows[..n])
    {
      var e := rows[n];
      assert done + rows[..n + 1] == done + rows[..n] + [e];
      HoldsNext(merged', seen', done + rows[..n], e);
      if e.channel in merged' {
        merged' := merged'[e.channel := Update(merged'[e.channel], e)];
      } else if !e.TrackersRow? {
        merged', seen' := merged'[e.channel := Update(Bare(e.channel), e)], seen' + [e.channel];
      }
    }
    assert rows[..|rows|] == rows;
  }

  /** Every channel some source names, once, with the view its rows make. */
  ghost predicate Merges(out: seq<Channel>, entries: seq<Entry>) {
    && DistinctIds(out)
    && (forall i :: 0 <= i < |out| ==> View(entries, out[i].channelId) == Some(out[i]))
    && (forall c :: View(entries, c).Some? <==> exists i :: 0 <= i < |out| && out[i].channelId == c)
  }

  method MergedChannels(tracked: seq<Entry>, sighted: seq<Entry>, live: seq<Entry>, trackers: seq<Entry>)
    returns (out: seq<Channel>)
    ensures Merges(out, tracked + sighted + live + trackers)
  {
    var merged: map<Bytes, Channel>, seen: seq<Bytes> := map[], [];
    merged, seen := MergeIn(merged, seen, tracked, []);
    assert [] + tracked == tracked;
    merged, seen := MergeIn(merged, seen, sighted, tracked);
    merged, seen := MergeIn(merged, seen, live, tracked + sighted);
    merged, seen := MergeIn(merged, seen, trackers, tracked + sighted + live);
    ghost var entries := tracked + sighted + live + trackers;
    out := [];
    for n := 0 to |seen|
      invariant |out| == n && forall i :: 0 <= i < n ==> Some(out[i]) == View(entries, seen[i])
    {
      assert seen[n] in seen;
      out := out + [merged[seen[n]]];
    }
    forall c | View(entries, c).Some?
      ensures exists i :: 0 <= i < |out| && out[i].channelId == c
    {
      assert c in seen;
      var i :| 0 <= i < |seen| && seen[i] == c;
      assert out[i].channelId == c;
    }
  }

  // ------------------------------------------------------------------
  // What a merged row says
  // ------------------------------------------------------------------

  /** Some row of the kind asked for names the channel. */
  predicate Names(entries: seq<Entry>, channel: Bytes) {
    exists i :: 0 <= i < |entries| && entries[i].channel == channel
  }

  predicate NamesBySource(entries: seq<Entry>, channel: Bytes) {
    exists i :: 0 <= i < |entries| && entries[i].channel == channel && !entries[i].TrackersRow?
  }

  lemma {:induction false} ListedExactly(entries: seq<Entry>, channel: Bytes)
    ensures View(entries, channel).Some? <==> NamesBySource(entries, channel)
  {
    if entries != [] {
      var front, e := entries[..|entries| - 1], entries[|entries| - 1];
      ListedExactly(front, channel);
      assert entries == front + [e];
      assert NamesBySource(front, channel) ==> NamesBySource(entries, channel) by {
        if i :| 0 <= i < |front| && front[i].channel == channel && !front[i].TrackersRow? {
          assert entries[i] == front[i];
        }
      }
      if e.channel == channel && !e.TrackersRow? {
        assert entries[|entries| - 1] == e;
      }
    }
  }

  ghost predicate Only(entries: seq<Entry>, kind: Entry -> bool) {
    forall i :: 0 <= i < |entries| ==> kind(entries[i])
  }

  /** A view whose rows so far are those of one or more kinds says which came first. */
  ghost predicate SourceIs(v: Option<Channel>, inTracked: bool, inSighted: bool) {
    v.Some? ==>
      && (v.value.tracked <==> inTracked)
      && v.value.source == (if inTracked then FromTracked else if inSighted then FromSighting else FromSlack)
  }

  lemma {:induction false} TrackedView(tracked: seq<Entry>, c: Bytes)
    requires Only(tracked, (e: Entry) => e.TrackedRow?)
    ensures View(tracked, c).Some? <==> Names(tracked, c)
    ensures SourceIs(View(tracked, c), Names(tracked, c), false)
  {
    ListedExactly(tracked, c);
    if tracked != [] {
      TrackedView(tracked[..|tracked| - 1], c);
    }
  }

  lemma NamesFront(entries: seq<Entry>, c: Bytes)
    requires entries != []
    ensures Names(entries, c) <==> Names(entries[..|entries| - 1], c) || entries[|entries| - 1].channel == c
  {
    var front := entries[..|entries| - 1];
    if i :| 0 <= i < |front| && front[i].channel == c {
      assert entries[i].channel == c;
    }
    if i :| 0 <= i < |entries| && entries[i].channel == c {
      assert i == |front| || front[i].channel == c;
    }
  }

  lemma {:induction false} SightedView(before: seq<Entry>, sighted: seq<Entry>, c: Bytes, inTracked: bool)
    requires Only(sighted, (e: Entry) => e.SightedRow?)
    requires View(before, c).Some? <==> inTracked
    requires SourceIs(View(before, c), inTracked, false)
    ensures View(before + sighted, c).Some? <==> inTracked || Names(sighted, c)
    ensures SourceIs(View(before + sighted, c), inTracked, Names(sighted, c))
    decreases |sighted|
  {
    if sighted == [] {
      assert before + sighted == before;
    } else {
      var front, e := sighted[..|sighted| - 1], sighted[|sighted| - 1];
      SightedView(before, front, c, inTracked);
      NamesFront(sighted, c);
      assert before + sighted == before + front + [e];
      ViewNext(before + front, e, c);
    }
  }

  lemma {:induction false} LiveView(before: seq<Entry>, live: seq<Entry>, c: Bytes, inTracked: bool, inSighted: bool)
    requires Only(live, (e: Entry) => e.LiveRow?)
    requires View(before, c).Some? <==> inTracked || inSighted
    requires SourceIs(View(before, c), inTracked, inSighted)
    ensures View(before + live, c).Some? <==> inTracked || inSighted || Names(live, c)
    ensures SourceIs(View(before + live, c), inTracked, inSighted)
    decreases |live|
  {
    if live == [] {
      assert before + live == before;
    } else {
      var front, e := live[..|live| - 1], live[|live| - 1];
      LiveView(before, front, c, inTracked, inSighted);
      NamesFront(live, c);
      assert before + live == before + front + [e];
      ViewNext(before + front, e, c);
    }
  }

  lemma {:induction false} TrackersView(before: seq<Entry>, trackers: seq<Entry>, c: Bytes, inTracked: bool, inSighted: bool)
    requires Only(trackers, (e: Entry) => e.TrackersRow?)
    requires SourceIs(View(before, c), inTracked, inSighted)
    ensures View(before + trackers, c).Some? <==> View(before, c).Some?
    ensures SourceIs(View(before + trackers, c), inTracked, inSighted)
    decreases |trackers|
  {
    if trackers == [] {
      assert before + trackers == before;
    } else {
      var front, e := trackers[..|trackers| - 1], trackers[|trackers| - 1];
      TrackersView(before, front, c, inTracked, inSighted);
      assert before + trackers == before + front + [e];
      ViewNext(before + front, e, c);
    }
  }

  /**
  The merged list is the union of the three sources by channel id, and each
  row's source is the first of them to name it.
  */
  lemma UnionOfTheSources(tracked: seq<Entry>, sighted: seq<Entry>, live: seq<Entry>, trackers: seq<Entry>, c: Bytes)
    requires Only(tracked, (e: Entry) => e.TrackedRow?) && Only(sighted, (e: Entry) => e.SightedRow?)
    requires Only(live, (e: Entry) => e.LiveRow?) && Only(trackers, (e: Entry) => e.TrackersRow?)
    ensures var v := View(tracked + sighted + live + trackers, c);
            && (v.Some? <==> Names(tracked, c) || Names(sighted, c) || Names(live, c))
            && SourceIs(v, Names(tracked, c), Names(sighted, c))
  {
    var inTracked, inSighted := Names(tracked, c), Names(sighted, c);
    TrackedView(tracked, c);
    SightedView(tracked, sighted, c, inTracked);
    LiveView(tracked + sighted, live, c, inTracked, inSighted);
    TrackersView(tracked + sighted + live, trackers, c, inTracked, inSighted);
  }

  // ------------------------------------------------------------------
  // Each field, from the rows
  // ------------------------------------------------------------------

  datatype Kind = TrackedKind | SightedKind | LiveKind | TrackersKind

  function KindOf(e: Entry): Kind {
    match e
    case TrackedRow(_, _, _) => TrackedKind
    case SightedRow(_, _, _, _, _) => SightedKind
    case LiveRow(_, _, _, _, _) => LiveKind
    case TrackersRow(_, _) => TrackersKind
  }

  predicate RowOf(e: Entry, c: Bytes, kind: Kind) {
    e.channel == c && KindOf(e) == kind
  }

  /** Where the last row of a kind about c stands. */
  ghost function LastRow(entries: seq<Entry>, c: Bytes, kind: Kind): (r: Option<nat>)
    ensures r.Some? ==> r.value < |entries| && RowOf(entries[r.value], c, kind)
  {
    if entries == [] then None
    else if RowOf(entries[|entries| - 1], c, kind) then Some(|entries| - 1)
    else LastRow(entries[..|entries| - 1], c, kind)
  }

  /** No row of the kind stands behind it, and none at all where there is no last one. */
  lemma {:induction false} LastRowMeans(entries: seq<Entry>, c: Bytes, kind: Kind, j: nat)
    requires j < |entries| && RowOf(entries[j], c, kind)
    ensures LastRow(entries, c, kind).Some? && j <= LastRow(entries, c, kind).value
  {
    if !RowOf(entries[|entries| - 1], c, kind) {
      LastRowMeans(entries[..|entries| - 1], c, kind, j);
    }
  }

  lemma LastRowNext(front: seq<Entry>, e: Entry, c: Bytes, kind: Kind)
    ensures LastRow(front + [e], c, kind) == if RowOf(e, c, kind) then Some(|front|) else LastRow(front, c, kind)
  {
    assert (front + [e])[..|front|] == front;
  }

  /** The row can name its channel, and does. */
  predicate GivesName(e: Entry, c: Bytes) {
    e.channel == c && (e.SightedRow? || e.LiveRow?) && e.name != []
  }

  predicate GivesWorkspace(e: Entry, c: Bytes) {
    e.channel == c && (e.SightedRow? || e.LiveRow?) && e.workspace != ""
  }

  /** Where the first row that names c stands. */
  ghost function FirstName(entries: seq<Entry>, c: Bytes): (r: Option<nat>)
    ensures r.Some? ==> r.value < |entries| && GivesName(entries[r.value], c)
  {
    if entries == [] then None
    else
      var before := FirstName(entries[..|entries| - 1], c);
      if before.Some? then before
      else if GivesName(entries[|entries| - 1], c) then Some(|entries| - 1) else None
  }

  ghost function FirstWorkspace(entries: seq<Entry>, c: Bytes): (r: Option<nat>)
    ensures r.Some? ==> r.value < |entries| && GivesWorkspace(entries[r.value], c)
  {
    if entries == [] then None
    else
      var before := FirstWorkspace(entries[..|entries| - 1], c);
      if before.Some? then before
      else if GivesWorkspace(entries[|entries| - 1], c) then Some(|entries| - 1) else None
  }

  /** No row before it gives one, and none at all where there is no first one. */
  lemma {:induction false} FirstMeans(entries: seq<Entry>, c: Bytes, j: nat)
    requires j < |entries|
    ensures GivesName(entries[j], c) ==> FirstName(entries, c).Some? && FirstName(entries, c).value <= j
    ensures GivesWorkspace(entries[j], c) ==> FirstWorkspace(entries, c).Some? && FirstWorkspace(entries, c).value <= j
  {
    if j < |entries| - 1 {
      FirstMeans(entries[..|entries| - 1], c, j);
    }
  }

  lemma FirstNext(front: seq<Entry>, e: Entry, c: Bytes)
    ensures FirstName(front + [e], c)
         == if FirstName(front, c).Some? then FirstName(front, c) else if GivesName(e, c) then Some(|front|) else None
    ensures FirstWorkspace(front + [e], c)
         == if FirstWorkspace(front, c).Some? then FirstWorkspace(front, c)
            else if GivesWorkspace(e, c) then Some(|front|) else None
  {
    assert (front + [e])[..|front|] == front;
  }

  /** The last sighted row's mention, the last live row's flags, the last tracked row's primary. */
  ghost predicate LatestWins(entries: seq<Entry>, c: Bytes, v: Channel) {
    var sighted, live, tracked := LastRow(entries, c, SightedKind), LastRow(entries, c, LiveKind), LastRow(entries, c, TrackedKind);
    && v.lastMention == (if sighted.Some? then entries[sighted.value].lastMention else None)
    && v.isPrivate == (live.Some? && entries[live.value].isPrivate)
    && v.botIsMember == (live.Some? && entries[live.value].botIsMember)
    && v.isPrimary == (tracked.Some? && entries[tracked.value].isPrimary)
    && v.tracked == tracked.Some?
  }

  /** The first name and the first workspace any sighted or live row gives. */
  ghost predicate EarliestWins(entries: seq<Entry>, c: Bytes, v: Channel) {
    var name, workspace := FirstName(entries, c), FirstWorkspace(entries, c);
    && v.name == (if name.Some? then entries[name.value].name else [])
    && v.workspace == (if workspace.Some? then entries[workspace.value].workspace else "")
  }

  lemma LatestNext(front: seq<Entry>, e: Entry, c: Bytes, v: Channel)
    requires LatestWins(front, c, v)
    ensures LatestWins(front + [e], c, if e.channel == c then Update(v, e) else v)
  {
    LastRowNext(front, e, c, SightedKind);
    LastRowNext(front, e, c, LiveKind);
    LastRowNext(front, e, c, TrackedKind);
  }

  lemma EarliestNext(front: seq<Entry>, e: Entry, c: Bytes, v: Channel)
    requires EarliestWins(front, c, v)
    ensures EarliestWins(front + [e], c, if e.channel == c then Update(v, e) else v)
  {
    FirstNext(front, e, c);
  }

  lemma {:induction false} FieldsFromRows(entries: seq<Entry>, c: Bytes)
    ensures View(entries, c).Some? ==>
              LatestWins(entries, c, View(entries, c).value) && EarliestWins(entries, c, View(entries, c).value)
    ensures View(entries, c).None? ==>
              forall i :: 0 <= i < |entries| && entries[i].channel == c ==> entries[i].TrackersRow?
  {
    if entries != [] {
      var front, e := entries[..|entries| - 1], entries[|entries| - 1];
      assert entries == front + [e];
      FieldsFromRows(front, c);
      if View(front, c).None? {
        NothingBefore(front, c);
      }
      var v := if View(front, c).Some? then View(front, c).value else Bare(c);
      LatestNext(front, e, c, v);
      EarliestNext(front, e, c, v);
      ViewNext(front, e, c);
    }
  }

  lemma NothingBefore(entries: seq<Entry>, c: Bytes)
    requires forall i :: 0 <= i < |entries| && entries[i].channel == c ==> entries[i].TrackersRow?
    ensures LatestWins(entries, c, Bare(c)) && EarliestWins(entries, c, Bare(c))
  {
  }

  /** Trackers come last: the last of c's lists is the one shown, and rows of no other kind touch it. */
  lemma {:induction false} TrackersFromRows(before: seq<Entry>, trackers: seq<Entry>, c: Bytes)
    requires Only(trackers, (e: Entry) => e.TrackersRow?) && Only(before, (e: Entry) => !e.TrackersRow?)
    requires View(before, c).Some?
    ensures View(before + trackers, c).Some?
    ensures var last := LastRow(trackers, c, TrackersKind);
            View(before + trackers, c).value.trackedBy == if last.Some? then trackers[last.value].trackers else []
    decreases |trackers|
  {
    if trackers == [] {
      assert before + trackers == before;
      NoTrackersYet(before, c);
    } else {
      var front, e := trackers[..|trackers| - 1], trackers[|trackers| - 1];
      TrackersFromRows(before, front, c);
      assert before + trackers == before + front + [e];
      ViewNext(before + front, e, c);
    }
  }

  lemma {:induction false} NoTrackersYet(entries: seq<Entry>, c: Bytes)
    requires Only(entries, (e: Entry) => !e.TrackersRow?)
    ensures View(entries, c).Some? ==> View(entries, c).value.trackedBy == []
  {
    if entries != [] {
      NoTrackersYet(entries[..|entries| - 1], c);
    }
  }

  /** The registry id is the last sighted row's, or without one the last tracked row's. */
  lemma {:induction false} IdFromRows(tracked: seq<Entry>, later: seq<Entry>, c: Bytes)
    requires Only(tracked, (e: Entry) => e.TrackedRow?) && Only(later, (e: Entry) => !e.TrackedRow?)
    ensures var v := View(tracked + later, c);
            var sighted, own := LastRow(later, c, SightedKind), LastRow(tracked, c, TrackedKind);
            v.Some? ==> v.value.id == if sighted.Some? then later[sighted.value].id
                                      else if own.Some? then tracked[own.value].id else ""
    decreases |later|
  {
    if later == [] {
      assert tracked + later == tracked;
      TrackedId(tracked, c);
    } else {
      var front, e := later[..|later| - 1], later[|later| - 1];
      IdFromRows(tracked, front, c);
      assert tracked + later == tracked + front + [e];
      ViewNext(tracked + front, e, c);
      if View(tracked + front, c).None? {
        Unlisted(tracked, front, c);
      }
    }
  }

  lemma {:induction false} TrackedId(tracked: seq<Entry>, c: Bytes)
    requires Only(tracked, (e: Entry) => e.TrackedRow?)
    ensures var own := LastRow(tracked, c, TrackedKind);
            && View(tracked, c).Some? == own.Some?
            && (own.Some? ==> View(tracked, c).value.id == tracked[own.value].id)
  {
    if tracked != [] {
      TrackedId(tracked[..|tracked| - 1], c);
    }
  }

  lemma Unlisted(tracked: seq<Entry>, later: seq<Entry>, c: Bytes)
    requires View(tracked + later, c).None?
    ensures LastRow(tracked, c, TrackedKind).None? && LastRow(later, c, SightedKind).None?
  {
    var all := tracked + later;
    FieldsFromRows(all, c);
    assert forall i :: 0 <= i < |tracked| ==> all[i] == tracked[i];
    assert forall i :: 0 <= i < |later| ==> all[|tracked| + i] == later[i];
  }

  // ------------------------------------------------------------------
  // The filter
  // ------------------------------------------------------------------

  /** The narrowing fields, with the search already decided per channel by its name and id. */
  datatype Filter = Filter(tracked: Option<bool>, ids: Option<set<string>>, found: set<Bytes>)

  predicate MatchesFilter(f: Filter, c: Channel) {
    && (f.tracked.Some? ==> c.tracked == f.tracked.value)
    && (f.ids.Some? ==> c.id in f.ids.value)
    && c.channelId in f.found
  }

  /** a comes before b in cs. */
  ghost predicate Before(cs: seq<Channel>, a: Channel, b: Channel) {
    exists k, l :: 0 <= k < l < |cs| && cs[k] == a && cs[l] == b
  }

  /** The matching channels in their given order: each kept once if it matches, and no id repeated. */
  method FilterChannels(cs: seq<Channel>, f: Filter) returns (out: seq<Channel>)
    requires DistinctIds(cs)
    ensures DistinctIds(out)
    ensures forall c :: c in out <==>
              && c in cs && c.channelId in f.found
              && (f.tracked == None || f.tracked == Some(c.tracked)) && (f.ids.Some? ==> c.id in f.ids.value)
    ensures forall i, j :: 0 <= i < j < |out| ==> Before(cs, out[i], out[j])
  {
    out := [];
    ghost var at: seq<nat> := [];
    for n := 0 to |cs|
      invariant |at| == |out|
      invariant forall i :: 0 <= i < |at| ==> at[i] < n && cs[at[i]] == out[i]
      invariant forall i, j :: 0 <= i < j < |at| ==> at[i] < at[j]
      invariant forall c :: c in out <==> c in cs[..n] && MatchesFilter(f, c)
    {
      assert cs[..n + 1] == cs[..n] + [cs[n]];
      if MatchesFilter(f, cs[n]) {
        out, at := out + [cs[n]], at + [n];
      }
    }
    assert cs[..|cs|] == cs;
    forall i, j | 0 <= i < j < |out|
      ensures Before(cs, out[i], out[j])
    {
      assert at[i] < at[j] && cs[at[i]] == out[i] && cs[at[j]] == out[j];
    }
  }
}
