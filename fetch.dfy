/**
 * `get_youtube_rss_url`, `fetch_channel_feed` and `fetch_standard_rss_feed`: one source's raw
 * entries, capped, normalised one by one in feed order; a missing channel id or feed url, a parse
 * error, or a datetime that cannot be built (whose exception escapes the loop into the
 * function's `except`) gives no entries at all.
 *
 * The feed parser and the handle lookup are network collaborators, passed in as functions:
 * `fetch(url)` is what `feedparser.parse(url)` produced, `resolve(handle)` what
 * `resolve_handle_to_channel_id(handle)` returned.
 */
module Fetch {

  import opened Wrappers
  import opened Text
  import opened Timestamps
  import opened Entries
  import opened Normalize

  const RssUrlPrefix := "https://www.youtube.com/feeds/videos.xml?channel_id="

  /** `get_youtube_rss_url(channel_id)`. */
  function YoutubeRssUrl(channelId: string): string {
    RssUrlPrefix + channelId
  }

  /** The channel id can be read back from the feed URL, so different channels get different URLs. */
  lemma YoutubeRssUrlInjective(a: string, b: string)
    ensures YoutubeRssUrl(a)[..|RssUrlPrefix|] == RssUrlPrefix
    ensures YoutubeRssUrl(a)[|RssUrlPrefix|..] == a
    ensures YoutubeRssUrl(a) == YoutubeRssUrl(b) ==> a == b
  {
    assert YoutubeRssUrl(a)[|RssUrlPrefix|..] == a;
    assert YoutubeRssUrl(b)[|RssUrlPrefix|..] == b;
  }

  /** Lines 162-170: the configured channel id when it is non-empty; else, when a handle is
      configured, what resolving it gives; `None` when neither yields a non-empty id. */
  function ResolveChannelId(src: ChannelSource, resolve: string -> Option<string>): (r: Option<string>)
    ensures r.Some? ==> r.value != ""
    ensures Truthy(src.channelId) ==> r == src.channelId
    ensures !Truthy(src.channelId) && !Truthy(src.handle) ==> r.None?
    ensures !Truthy(src.channelId) && Truthy(src.handle) ==>
      (r.Some? <==> Truthy(resolve(src.handle.value))) && (r.Some? ==> r == resolve(src.handle.value))
  {
    if Truthy(src.channelId) then src.channelId
    else if Truthy(src.handle) && Truthy(resolve(src.handle.value)) then resolve(src.handle.value)
    else None
  }

  /** Every raw entry normalised, in order; `None` as soon as one of them fails. */
  function NormalizeAll(raws: seq<RawEntry>, normalize: RawEntry -> Option<Entry>): (r: Option<seq<Entry>>)
    ensures r.Some? <==> forall i :: 0 <= i < |raws| ==> normalize(raws[i]).Some?
    ensures r.Some? ==> |r.value| == |raws|
    ensures r.Some? ==> forall i :: 0 <= i < |raws| ==> normalize(raws[i]) == Some(r.value[i])
    decreases |raws|
  {
    if raws == [] then Some([])
    else
      match normalize(raws[0])
      case None => None
      case Some(e) =>
        match NormalizeAll(raws[1..], normalize)
        case None => None
        case Some(rest) => Some([e] + rest)
  }

  /** Normalising stops at the first raw entry that fails. */
  lemma NormalizeAllFails(raws: seq<RawEntry>, normalize: RawEntry -> Option<Entry>, i: nat)
    requires i < |raws| && normalize(raws[i]).None?
    ensures NormalizeAll(raws, normalize).None?
  {
  }

  /** When every raw entry normalises, the result lists their normal forms in order. */
  lemma NormalizeAllSucceeds(raws: seq<RawEntry>, normalize: RawEntry -> Option<Entry>, entries: seq<Entry>)
    requires |entries| == |raws|
    requires forall j :: 0 <= j < |raws| ==> normalize(raws[j]) == Some(entries[j])
    ensures NormalizeAll(raws, normalize) == Some(entries)
  {
    var r := NormalizeAll(raws, normalize);
    assert r.Some?;
    assert |r.value| == |entries|;
    assert forall j :: 0 <= j < |raws| ==> r.value[j] == entries[j];
    assert r.value == entries;
  }

  /** The entries `fetch_channel_feed` returns. */
  function ChannelFeedEntries(src: ChannelSource, cap: nat, resolve: string -> Option<string>,
                              fetch: string -> FetchOutcome, now: Stamp): (r: seq<Entry>)
    ensures |r| <= cap
  {
    match ResolveChannelId(src, resolve)
    case None => []
    case Some(channelId) =>
      match fetch(YoutubeRssUrl(channelId))
      case ParseError => []
      case Parsed(raws) =>
        NormalizeAll(Take(raws, cap), raw => NormalizeVideoEntry(raw, src, channelId, now)).GetOr([])
  }

  /** The entries `fetch_standard_rss_feed` returns. */
  function FeedEntries(src: FeedSource, cap: nat, fetch: string -> FetchOutcome, now: Stamp): (r: seq<Entry>)
    ensures |r| <= cap
  {
    if !Truthy(src.url) then []
    else
      match fetch(src.url.value)
      case ParseError => []
      case Parsed(raws) => NormalizeAll(Take(raws, cap), raw => NormalizeFeedEntry(raw, src, now)).GetOr([])
  }

  /** A channel yields nothing without a channel id or on a parse error; otherwise one entry per raw
      entry among the first `cap`, in feed order, unless one of them has a publish tuple
      `datetime` rejects, in which case it yields nothing. */
  lemma ChannelFeedOutcome(src: ChannelSource, cap: nat, resolve: string -> Option<string>,
                           fetch: string -> FetchOutcome, now: Stamp)
    ensures ResolveChannelId(src, resolve).None? ==> ChannelFeedEntries(src, cap, resolve, fetch, now) == []
    ensures ResolveChannelId(src, resolve).Some? ==>
      var channelId := ResolveChannelId(src, resolve).value;
      var r := ChannelFeedEntries(src, cap, resolve, fetch, now);
      match fetch(YoutubeRssUrl(channelId))
      case ParseError => r == []
      case Parsed(raws) =>
        var n := Min(cap, |raws|);
        if forall i :: 0 <= i < n ==> NormalizeVideoEntry(raws[i], src, channelId, now).Some? then
          |r| == n && forall i :: 0 <= i < n ==> NormalizeVideoEntry(raws[i], src, channelId, now) == Some(r[i])
        else r == []
  {
    match ResolveChannelId(src, resolve)
    case None =>
    case Some(channelId) =>
      match fetch(YoutubeRssUrl(channelId))
      case ParseError =>
      case Parsed(raws) =>
        var head := Take(raws, cap);
        var f := raw => NormalizeVideoEntry(raw, src, channelId, now);
        var all := NormalizeAll(head, f);
        assert forall i :: 0 <= i < |head| ==> head[i] == raws[i];
        if all.None? {
          var i :| 0 <= i < |head| && f(head[i]).None?;
        }
  }

  /** A feed yields nothing without a url or on a parse error; otherwise one entry per raw entry
      among the first `cap`, in feed order, unless a publish tuple cannot be made a datetime. */
  lemma FeedOutcome(src: FeedSource, cap: nat, fetch: string -> FetchOutcome, now: Stamp)
    ensures !Truthy(src.url) ==> FeedEntries(src, cap, fetch, now) == []
    ensures Truthy(src.url) ==>
      var r := FeedEntries(src, cap, fetch, now);
      match fetch(src.url.value)
      case ParseError => r == []
      case Parsed(raws) =>
        var n := Min(cap, |raws|);
        if forall i :: 0 <= i < n ==> NormalizeFeedEntry(raws[i], src, now).Some? then
          |r| == n && forall i :: 0 <= i < n ==> NormalizeFeedEntry(raws[i], src, now) == Some(r[i])
        else r == []
  {
    if Truthy(src.url) {
      match fetch(src.url.value)
      case ParseError =>
      case Parsed(raws) =>
        var head := Take(raws, cap);
        var f := raw => NormalizeFeedEntry(raw, src, now);
        var all := NormalizeAll(head, f);
        assert forall i :: 0 <= i < |head| ==> head[i] == raws[i];
        if all.None? {
          var i :| 0 <= i < |head| && f(head[i]).None?;
        }
    }
  }

  /** `fetch_channel_feed`: the loop over `feed.entries[:cap]` appending one entry per raw entry. */
  method FetchChannelFeed(src: ChannelSource, cap: nat, resolve: string -> Option<string>,
                          fetch: string -> FetchOutcome, now: Stamp) returns (entries: seq<Entry>)
    ensures entries == ChannelFeedEntries(src, cap, resolve, fetch, now)
  {
    var channelId := ResolveChannelId(src, resolve);
    if channelId.None? {
      return [];
    }
    var outcome := fetch(YoutubeRssUrl(channelId.value));
    if outcome.ParseError? {
      return [];
    }
    var head := Take(outcome.entries, cap);
    var normalize := raw => NormalizeVideoEntry(raw, src, channelId.value, now);
    entries := [];
    var i := 0;
    while i < |head|
      invariant 0 <= i <= |head|
      invariant |entries| == i
      invariant forall j :: 0 <= j < i ==> normalize(head[j]) == Some(entries[j])
    {
      var entry := normalize(head[i]);
      if entry.None? {
        // building the datetime raised: the whole feed is dropped
        NormalizeAllFails(head, normalize, i);
        return [];
      }
      entries := entries + [entry.value];
      i := i + 1;
    }
    NormalizeAllSucceeds(head, normalize, entries);
  }

  /** `fetch_standard_rss_feed`: the same loop for a generic feed; each entry's thumbnail comes from
      the media scan. */
  method FetchStandardRssFeed(src: FeedSource, cap: nat, fetch: string -> FetchOutcome, now: Stamp)
    returns (entries: seq<Entry>)
    ensures entries == FeedEntries(src, cap, fetch, now)
  {
    if !Truthy(src.url) {
      return [];
    }
    var outcome := fetch(src.url.value);
    if outcome.ParseError? {
      return [];
    }
    var head := Take(outcome.entries, cap);
    ghost var f := raw => NormalizeFeedEntry(raw, src, now);
    entries := [];
    var i := 0;
    while i < |head|
      invariant 0 <= i <= |head|
      invariant |entries| == i
      invariant forall j :: 0 <= j < i ==> f(head[j]) == Some(entries[j])
    {
      var raw := head[i];
      var published := PublishedAt(FeedTimeTuple(raw), now);
      if published.None? {
        assert f(head[i]).None?;
        NormalizeAllFails(head, f, i);
        return [];
      }
      var thumbnail := SelectThumbnail(raw);
      entries := entries + [FeedEntry(raw, src, published.value, thumbnail)];
      i := i + 1;
    }
    NormalizeAllSucceeds(head, f, entries);
  }
}
