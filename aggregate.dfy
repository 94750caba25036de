/**
 * The aggregation in `main`: the channel results extended in configuration order, then the RSS
 * feed results, sorted newest first by `list.sort(key=published, reverse=True)` and cut to the
 * total cap.
 *
 * Python's sort is stable, also with `reverse=True`: entries with equal keys keep the order they
 * had. The reference definition here is an insertion sort; `StableSortIsUnique` shows that being
 * ordered newest first and keeping, for every timestamp, the entries with that timestamp in their
 * original order determines the result, so any stable sort gives this one.
 */
module Aggregate {

  import opened Wrappers
  import opened Text
  import opened Timestamps
  import opened Entries
  import opened Fetch

  // ---------------------------------------------------------------------------
  // Concatenation of the per-source results (lines 372-382).
  // ---------------------------------------------------------------------------

  function Flatten(lists: seq<seq<Entry>>): seq<Entry>
    decreases |lists|
  {
    if lists == [] then [] else Flatten(lists[..|lists| - 1]) + lists[|lists| - 1]
  }

  function ChannelResults(config: Config, resolve: string -> Option<string>,
                          fetch: string -> FetchOutcome, now: Stamp): (r: seq<seq<Entry>>)
    ensures |r| == |config.channels|
    ensures forall i :: 0 <= i < |r| ==> |r[i]| <= config.perSourceCap
  {
    seq(|config.channels|, i requires 0 <= i < |config.channels| =>
      ChannelFeedEntries(config.channels[i], config.perSourceCap, resolve, fetch, now))
  }

  function FeedResults(config: Config, fetch: string -> FetchOutcome, now: Stamp): (r: seq<seq<Entry>>)
    ensures |r| == |config.feeds|
    ensures forall i :: 0 <= i < |r| ==> |r[i]| <= config.perSourceCap
  {
    seq(|config.feeds|, i requires 0 <= i < |config.feeds| =>
      FeedEntries(config.feeds[i], config.perSourceCap, fetch, now))
  }

  /** `all_entries` before sorting: every channel's entries in configuration order, then every feed's. */
  function AllSourceEntries(config: Config, resolve: string -> Option<string>,
                            fetch: string -> FetchOutcome, now: Stamp): seq<Entry> {
    Flatten(ChannelResults(config, resolve, fetch, now)) + Flatten(FeedResults(config, fetch, now))
  }

  /** Each source contributes at most `perSourceCap` entries. */
  lemma {:induction false} FlattenBound(lists: seq<seq<Entry>>, cap: nat)
    requires forall i :: 0 <= i < |lists| ==> |lists[i]| <= cap
    ensures |Flatten(lists)| <= |lists| * cap
    decreases |lists|
  {
    if lists != [] {
      FlattenBound(lists[..|lists| - 1], cap);
    }
  }

  lemma AllSourceEntriesBound(config: Config, resolve: string -> Option<string>,
                              fetch: string -> FetchOutcome, now: Stamp)
    ensures |AllSourceEntries(config, resolve, fetch, now)|
            <= (|config.channels| + |config.feeds|) * config.perSourceCap
  {
    FlattenBound(ChannelResults(config, resolve, fetch, now), config.perSourceCap);
    FlattenBound(FeedResults(config, fetch, now), config.perSourceCap);
  }

  lemma FlattenStep(lists: seq<seq<Entry>>, i: nat)
    requires i < |lists|
    ensures Flatten(lists[..i + 1]) == Flatten(lists[..i]) + lists[i]
  {
    assert lists[..i + 1][..i] == lists[..i];
  }

  /** The two loops of `main` that `extend` `all_entries` with each source's entries. */
  method CollectEntries(config: Config, resolve: string -> Option<string>,
                        fetch: string -> FetchOutcome, now: Stamp) returns (all: seq<Entry>)
    ensures all == AllSourceEntries(config, resolve, fetch, now)
  {
    ghost var channelResults := ChannelResults(config, resolve, fetch, now);
    ghost var feedResults := FeedResults(config, fetch, now);
    var fromChannels := [];
    for i := 0 to |config.channels|
      invariant fromChannels == Flatten(channelResults[..i])
    {
      var entries := FetchChannelFeed(config.channels[i], config.perSourceCap, resolve, fetch, now);
      FlattenStep(channelResults, i);
      fromChannels := fromChannels + entries;
    }
    assert channelResults[..|config.channels|] == channelResults;
    var fromFeeds := [];
    for i := 0 to |config.feeds|
      invariant fromFeeds == Flatten(feedResults[..i])
    {
      var entries := FetchStandardRssFeed(config.feeds[i], config.perSourceCap, fetch, now);
      FlattenStep(feedResults, i);
      fromFeeds := fromFeeds + entries;
    }
    assert feedResults[..|config.feeds|] == feedResults;
    all := fromChannels + fromFeeds;
  }

  // ---------------------------------------------------------------------------
  // Stable sort, newest first (line 385).
  // ---------------------------------------------------------------------------

  /** No entry is followed by a newer one. */
  predicate NewestFirst(s: seq<Entry>) {
    forall i, j :: 0 <= i < j < |s| ==> !Before(s[i].published, s[j].published)
  }

  /** The entries of `s` published at `t`, in their order in `s`. */
  function WithStamp(s: seq<Entry>, t: DateTime): seq<Entry>
    decreases |s|
  {
    if s == [] then []
    else (if s[0].published == t then [s[0]] else []) + WithStamp(s[1..], t)
  }

  /** `x` placed after every entry of `s` that is not older than it. */
  function Insert(s: seq<Entry>, x: Entry): seq<Entry>
    decreases |s|
  {
    if s == [] then [x]
    else if Before(s[0].published, x.published) then [x] + s
    else [s[0]] + Insert(s[1..], x)
  }

  /** Insertion sort, taking the entries in their original order. */
  function SortedNewestFirst(s: seq<Entry>): seq<Entry>
    decreases |s|
  {
    if s == [] then [] else Insert(SortedNewestFirst(s[..|s| - 1]), s[|s| - 1])
  }

  lemma {:induction false} WithStampConcat(a: seq<Entry>, b: seq<Entry>, t: DateTime)
    ensures WithStamp(a + b, t) == WithStamp(a, t) + WithStamp(b, t)
    decreases |a|
  {
    if a == [] {
      assert a + b == b;
    } else {
      assert (a + b)[1..] == a[1..] + b;
      WithStampConcat(a[1..], b, t);
    }
  }

  lemma {:induction false} WithStampMember(s: seq<Entry>, t: DateTime, x: Entry)
    requires x in WithStamp(s, t)
    ensures x in s && x.published == t
    decreases |s|
  {
    if s[0] == x && s[0].published == t {
    } else {
      WithStampMember(s[1..], t, x);
    }
  }

  lemma {:induction false} WithStampNone(s: seq<Entry>, t: DateTime)
    requires forall i :: 0 <= i < |s| ==> s[i].published != t
    ensures WithStamp(s, t) == []
    decreases |s|
  {
    if s != [] {
      WithStampNone(s[1..], t);
    }
  }

  lemma NewestFirstTail(s: seq<Entry>)
    requires s != [] && NewestFirst(s)
    ensures NewestFirst(s[1..])
  {
    forall i, j | 0 <= i < j < |s[1..]| ensures !Before(s[1..][i].published, s[1..][j].published) {
      assert s[1..][i] == s[i + 1] && s[1..][j] == s[j + 1];
    }
  }

  /** In a sequence ordered newest first, an entry newer than the first is newer than all. */
  lemma NewerThanHead(s: seq<Entry>, x: Entry)
    requires s != [] && NewestFirst(s) && Before(s[0].published, x.published)
    ensures forall k :: 0 <= k < |s| ==> Before(s[k].published, x.published)
    ensures forall k :: 0 <= k < |s| ==> s[k].published != x.published
  {
    forall k | 0 <= k < |s| ensures Before(s[k].published, x.published) {
      if k > 0 && s[0].published != s[k].published {
        BeforeTotal(s[0].published, s[k].published);
        BeforeTransitive(s[k].published, s[0].published, x.published);
      }
    }
    BeforeIrreflexive(x.published);
  }

  lemma {:induction false} InsertPermutes(s: seq<Entry>, x: Entry)
    ensures |Insert(s, x)| == |s| + 1
    ensures multiset(Insert(s, x)) == multiset(s) + multiset{x}
    decreases |s|
  {
    if s != [] && !Before(s[0].published, x.published) {
      InsertPermutes(s[1..], x);
      assert s == [s[0]] + s[1..];
    }
  }

  /** An entry not older than any entry of a sequence ordered newest first can go in front of it. */
  lemma NewestFirstCons(h: Entry, tail: seq<Entry>)
    requires NewestFirst(tail)
    requires forall j :: 0 <= j < |tail| ==> !Before(h.published, tail[j].published)
    ensures NewestFirst([h] + tail)
  {
    var r := [h] + tail;
    forall i, j | 0 <= i < j < |r| ensures !Before(r[i].published, r[j].published) {
      assert r[j] == tail[j - 1];
      if i > 0 {
        assert r[i] == tail[i - 1];
      }
    }
  }

  /** The first entry of a sequence ordered newest first is not older than any other. */
  lemma HeadNotOlder(s: seq<Entry>, y: Entry)
    requires s != [] && NewestFirst(s) && y in s[1..]
    ensures !Before(s[0].published, y.published)
  {
    var k :| 0 <= k < |s[1..]| && s[1..][k] == y;
    assert s[k + 1] == y;
  }

  lemma {:induction false} InsertKeepsOrder(s: seq<Entry>, x: Entry)
    requires NewestFirst(s)
    ensures NewestFirst(Insert(s, x))
    decreases |s|
  {
    if s == [] {
    } else if Before(s[0].published, x.published) {
      NewerThanHead(s, x);
      forall j | 0 <= j < |s| ensures !Before(x.published, s[j].published) {
        BeforeAsymmetric(s[j].published, x.published);
      }
      NewestFirstCons(x, s);
    } else {
      var tail := Insert(s[1..], x);
      NewestFirstTail(s);
      InsertKeepsOrder(s[1..], x);
      InsertPermutes(s[1..], x);
      forall j | 0 <= j < |tail| ensures !Before(s[0].published, tail[j].published) {
        assert tail[j] in multiset(s[1..]) + multiset{x};
        if tail[j] in multiset(s[1..]) {
          HeadNotOlder(s, tail[j]);
        }
      }
      NewestFirstCons(s[0], tail);
    }
  }

  /** Inserting `x` appends it to the entries with its timestamp and changes no other timestamp's
      entries. */
  lemma {:induction false} InsertWithStamp(s: seq<Entry>, x: Entry, t: DateTime)
    requires NewestFirst(s)
    ensures WithStamp(Insert(s, x), t) == WithStamp(s, t) + (if x.published == t then [x] else [])
    decreases |s|
  {
    var r := Insert(s, x);
    if s == [] {
      assert r[1..] == [];
    } else if Before(s[0].published, x.published) {
      assert r[1..] == s;
      if x.published == t {
        NewerThanHead(s, x);
        WithStampNone(s, t);
      }
    } else {
      NewestFirstTail(s);
      InsertWithStamp(s[1..], x, t);
      assert r[1..] == Insert(s[1..], x);
    }
  }

  lemma SortedNewestFirstStep(s: seq<Entry>)
    requires s != []
    ensures SortedNewestFirst(s) == Insert(SortedNewestFirst(s[..|s| - 1]), s[|s| - 1])
  {
  }

  lemma SnocSplit(s: seq<Entry>)
    requires s != []
    ensures s == s[..|s| - 1] + [s[|s| - 1]]
  {
  }

  /** The reference sort is a permutation of its input. */
  lemma {:induction false} SortedNewestFirstPermutes(s: seq<Entry>)
    ensures |SortedNewestFirst(s)| == |s|
    ensures multiset(SortedNewestFirst(s)) == multiset(s)
    decreases |s|
  {
    if s != [] {
      var init, last := s[..|s| - 1], s[|s| - 1];
      SortedNewestFirstStep(s);
      SnocSplit(s);
      SortedNewestFirstPermutes(init);
      InsertPermutes(SortedNewestFirst(init), last);
    }
  }

  /** The reference sort is ordered newest first. */
  lemma {:induction false} SortedNewestFirstOrdered(s: seq<Entry>)
    ensures NewestFirst(SortedNewestFirst(s))
    decreases |s|
  {
    if s != [] {
      var init, last := s[..|s| - 1], s[|s| - 1];
      SortedNewestFirstStep(s);
      SortedNewestFirstOrdered(init);
      InsertKeepsOrder(SortedNewestFirst(init), last);
    }
  }

  /** The reference sort is stable: for every timestamp the entries carrying it appear in their
      original relative order. */
  lemma {:induction false} SortedNewestFirstStable(s: seq<Entry>, t: DateTime)
    ensures WithStamp(SortedNewestFirst(s), t) == WithStamp(s, t)
    decreases |s|
  {
    if s != [] {
      var init, last := s[..|s| - 1], s[|s| - 1];
      SortedNewestFirstStep(s);
      SnocSplit(s);
      SortedNewestFirstStable(init, t);
      SortedNewestFirstOrdered(init);
      InsertWithStamp(SortedNewestFirst(init), last, t);
      WithStampConcat(init, [last], t);
    }
  }

  /** The reference sort is ordered newest first, a permutation of its input, and stable. */
  lemma SortedNewestFirstProperties(s: seq<Entry>)
    ensures |SortedNewestFirst(s)| == |s|
    ensures NewestFirst(SortedNewestFirst(s))
    ensures multiset(SortedNewestFirst(s)) == multiset(s)
    ensures forall t :: WithStamp(SortedNewestFirst(s), t) == WithStamp(s, t)
  {
    SortedNewestFirstPermutes(s);
    SortedNewestFirstOrdered(s);
    forall t ensures WithStamp(SortedNewestFirst(s), t) == WithStamp(s, t) {
      SortedNewestFirstStable(s, t);
    }
  }

  /** Every entry of `a` is in `b` when the two agree timestamp by timestamp. */
  lemma MemberOfOther(a: seq<Entry>, b: seq<Entry>, i: nat)
    requires i < |a|
    requires WithStamp(a, a[i].published) == WithStamp(b, a[i].published)
    ensures a[i] in b
  {
    WithStampConcat(a[..i], a[i..], a[i].published);
    assert a == a[..i] + a[i..];
    assert a[i..] == [a[i]] + a[i + 1..];
    WithStampConcat([a[i]], a[i + 1..], a[i].published);
    WithStampMember(b, a[i].published, a[i]);
  }

  /** Sequences ordered newest first that agree timestamp by timestamp start with the same entry. */
  lemma SameHead(a: seq<Entry>, b: seq<Entry>)
    requires a != [] && b != []
    requires NewestFirst(a) && NewestFirst(b)
    requires forall t :: WithStamp(a, t) == WithStamp(b, t)
    ensures a[0] == b[0]
  {
    var x, y := a[0], b[0];
    MemberOfOther(a, b, 0);
    MemberOfOther(b, a, 0);
    BeforeTotal(x.published, y.published);
    assert x.published == y.published;
    assert WithStamp(a, x.published)[0] == x;
    assert WithStamp(b, x.published)[0] == y;
  }

  /** Dropping equal heads keeps the agreement. */
  lemma SameTails(a: seq<Entry>, b: seq<Entry>, t: DateTime)
    requires a != [] && b != [] && a[0] == b[0]
    requires WithStamp(a, t) == WithStamp(b, t)
    ensures WithStamp(a[1..], t) == WithStamp(b[1..], t)
  {
    var wa, wb := WithStamp(a[1..], t), WithStamp(b[1..], t);
    var h := if a[0].published == t then [a[0]] else [];
    assert WithStamp(a, t) == h + wa;
    assert WithStamp(b, t) == h + wb;
    assert (h + wa)[|h|..] == wa && (h + wb)[|h|..] == wb;
  }

  /** Two sequences ordered newest first that agree, timestamp by timestamp, on which entries carry
      it and in which order are equal: the stable sort's result is unique. */
  lemma {:induction false} StableSortIsUnique(a: seq<Entry>, b: seq<Entry>)
    requires NewestFirst(a) && NewestFirst(b)
    requires forall t :: WithStamp(a, t) == WithStamp(b, t)
    ensures a == b
    decreases |a|
  {
    if a == [] && b != [] {
      MemberOfOther(b, a, 0);
    } else if a != [] && b == [] {
      MemberOfOther(a, b, 0);
    } else if a != [] {
      SameHead(a, b);
      forall t ensures WithStamp(a[1..], t) == WithStamp(b[1..], t) {
        SameTails(a, b, t);
      }
      NewestFirstTail(a);
      NewestFirstTail(b);
      StableSortIsUnique(a[1..], b[1..]);
      assert a == [a[0]] + a[1..] && b == [b[0]] + b[1..];
    }
  }

  /** Passing an entry that is not older than `x` moves the insertion point one step on. */
  lemma InsertSkip(r: seq<Entry>, j: nat, x: Entry)
    requires j < |r| && !Before(r[j].published, x.published)
    ensures r[..j] + Insert(r[j..], x) == r[..j + 1] + Insert(r[j + 1..], x)
  {
    assert r[j..][1..] == r[j + 1..];
    assert r[..j] + [r[j]] == r[..j + 1];
  }

  /** The inner step of the insertion sort: the place after every entry not older than `x`. */
  method InsertionPoint(r: seq<Entry>, x: Entry) returns (j: nat)
    ensures j <= |r|
    ensures Insert(r, x) == r[..j] + [x] + r[j..]
  {
    j := 0;
    while j < |r| && !Before(r[j].published, x.published)
      invariant j <= |r|
      invariant Insert(r, x) == r[..j] + Insert(r[j..], x)
    {
      InsertSkip(r, j, x);
      j := j + 1;
    }
    assert r == r[..0] + r[0..];
  }

  /** `all_entries.sort(key=lambda x: x["published"], reverse=True)`, as an insertion sort: each
      entry in turn is placed after every already-sorted entry that is not older than it. */
  method SortNewestFirst(s: seq<Entry>) returns (r: seq<Entry>)
    ensures r == SortedNewestFirst(s)
    ensures NewestFirst(r) && multiset(r) == multiset(s)
    ensures forall t :: WithStamp(r, t) == WithStamp(s, t)
  {
    r := [];
    for i := 0 to |s|
      invariant r == SortedNewestFirst(s[..i])
    {
      var j := InsertionPoint(r, s[i]);
      r := r[..j] + [s[i]] + r[j..];
      assert s[..i + 1][..i] == s[..i];
    }
    assert s[..|s|] == s;
    SortedNewestFirstProperties(s);
  }

  // ---------------------------------------------------------------------------
  // The cap (line 388).
  // ---------------------------------------------------------------------------

  predicate IsPrefix(a: seq<Entry>, b: seq<Entry>) {
    |a| <= |b| && b[..|a|] == a
  }

  /** The `cap` newest entries, ties in original order. */
  function Newest(all: seq<Entry>, cap: nat): seq<Entry> {
    Take(SortedNewestFirst(all), cap)
  }

  /** The sorted entries are the newest ones followed by the rest. */
  lemma NewestSplit(all: seq<Entry>, cap: nat)
    ensures var sorted := SortedNewestFirst(all);
      && |Newest(all, cap)| <= |sorted|
      && sorted == Newest(all, cap) + sorted[|Newest(all, cap)|..]
  {
    SortedNewestFirstProperties(all);
  }

  lemma NewestOrderAndContent(all: seq<Entry>, cap: nat)
    ensures var r := Newest(all, cap);
      && |r| == Min(cap, |all|)
      && NewestFirst(r)
      && multiset(r) <= multiset(all)
  {
    var sorted := SortedNewestFirst(all);
    SortedNewestFirstProperties(all);
    NewestSplit(all, cap);
    var r := Newest(all, cap);
    assert multiset(sorted) == multiset(r) + multiset(sorted[|r|..]);
  }

  lemma NewestKeepsTies(all: seq<Entry>, cap: nat)
    ensures var r := Newest(all, cap);
      forall t :: IsPrefix(WithStamp(r, t), WithStamp(all, t))
  {
    var sorted := SortedNewestFirst(all);
    SortedNewestFirstProperties(all);
    NewestSplit(all, cap);
    var r := Newest(all, cap);
    forall t ensures IsPrefix(WithStamp(r, t), WithStamp(all, t)) {
      WithStampConcat(r, sorted[|r|..], t);
    }
  }

  /** In a sequence ordered newest first, nothing after position `n` is newer than what precedes it. */
  lemma LaterNotNewer(sorted: seq<Entry>, n: nat, y: Entry, i: nat)
    requires NewestFirst(sorted) && i < n <= |sorted| && y in multiset(sorted[n..])
    ensures !Before(sorted[i].published, y.published)
  {
    assert y in sorted[n..];
    var j :| 0 <= j < |sorted[n..]| && sorted[n..][j] == y;
    assert sorted[n + j] == y;
  }

  lemma NewestAreNewest(all: seq<Entry>, cap: nat)
    ensures var r := Newest(all, cap);
      forall y, i :: y in multiset(all) - multiset(r) && 0 <= i < |r| ==> !Before(r[i].published, y.published)
  {
    var sorted := SortedNewestFirst(all);
    SortedNewestFirstPermutes(all);
    SortedNewestFirstOrdered(all);
    NewestSplit(all, cap);
    var r := Newest(all, cap);
    var n := |r|;
    assert multiset(sorted) == multiset(r) + multiset(sorted[n..]);
    forall y, i | y in multiset(all) - multiset(r) && 0 <= i < |r|
      ensures !Before(r[i].published, y.published)
    {
      assert sorted[i] == r[i];
      LaterNotNewer(sorted, n, y, i);
    }
  }

  /** The capped result has `min(cap, |all|)` entries, all taken from `all`, ordered newest first;
      for each timestamp its entries are the first ones of `all` with that timestamp, in order;
      and no dropped entry is newer than a kept one. */
  lemma NewestProperties(all: seq<Entry>, cap: nat)
    ensures var r := Newest(all, cap);
      && |r| == Min(cap, |all|)
      && NewestFirst(r)
      && multiset(r) <= multiset(all)
      && (forall t :: IsPrefix(WithStamp(r, t), WithStamp(all, t)))
      && (forall y, i :: y in multiset(all) - multiset(r) && 0 <= i < |r| ==> !Before(r[i].published, y.published))
  {
    NewestOrderAndContent(all, cap);
    NewestKeepsTies(all, cap);
    NewestAreNewest(all, cap);
  }

  /** The aggregation of `main` before the feed is built. */
  method AggregateEntries(config: Config, resolve: string -> Option<string>,
                          fetch: string -> FetchOutcome, now: Stamp) returns (top: seq<Entry>)
    ensures top == Newest(AllSourceEntries(config, resolve, fetch, now), config.totalCap)
  {
    var all := CollectEntries(config, resolve, fetch, now);
    all := SortNewestFirst(all);
    top := Take(all, config.totalCap);
  }
}
