/**
 * Per-entry normalisation: the loop bodies of `fetch_channel_feed` and `fetch_standard_rss_feed`,
 * each turning one raw entry into an `Entry`, or failing where building its `datetime` raises.
 */
module Normalize {

  import opened Wrappers
  import opened Text
  import opened Timestamps
  import opened Entries

  // ---------------------------------------------------------------------------
  // Video id: the `yt_videoid` tag, else the first `v=([a-zA-Z0-9_-]{11})` in the link.
  // ---------------------------------------------------------------------------

  predicate IsIdChar(c: char) {
    ('a' <= c <= 'z') || ('A' <= c <= 'Z') || ('0' <= c <= '9') || c == '_' || c == '-'
  }

  /** The pattern `v=` followed by eleven id characters matches at position `p` of `link`. */
  predicate VideoIdAt(link: string, p: int) {
    0 <= p && p + 13 <= |link| && link[p] == 'v' && link[p + 1] == '='
    && forall k :: p + 2 <= k < p + 13 ==> IsIdChar(link[k])
  }

  /** The leftmost match at or after `i`, as `re.search` scans. */
  function FindVideoIdFrom(link: string, i: nat): (r: Option<nat>)
    ensures r.Some? ==> i <= r.value && VideoIdAt(link, r.value)
    ensures r.Some? ==> forall q :: i <= q < r.value ==> !VideoIdAt(link, q)
    ensures r.None? ==> forall q :: i <= q ==> !VideoIdAt(link, q)
    decreases |link| - i
  {
    if i + 13 > |link| then None
    else if VideoIdAt(link, i) then Some(i)
    else FindVideoIdFrom(link, i + 1)
  }

  /** The first `v=` + 11 id characters in `link`: the eleven characters after `v=` at the leftmost
      position where the pattern matches, or `None` when it matches nowhere. */
  function LinkVideoId(link: string): (r: Option<string>)
    ensures r.None? <==> forall q :: 0 <= q ==> !VideoIdAt(link, q)
    ensures r.Some? ==> |r.value| == 11 && forall k :: 0 <= k < 11 ==> IsIdChar(r.value[k])
    ensures r.Some? ==> exists p :: VideoIdAt(link, p) && r.value == link[p + 2 .. p + 13]
                          && forall q :: 0 <= q < p ==> !VideoIdAt(link, q)
  {
    match FindVideoIdFrom(link, 0)
    case None => None
    case Some(p) =>
      var id := link[p + 2 .. p + 13];
      assert forall k :: 0 <= k < 11 ==> id[k] == link[p + 2 + k];
      Some(id)
  }

  /** Lines 180-186: the tag when it is non-empty, else the id found in the link, else "". */
  function ResolveVideoId(raw: RawEntry): string {
    var tag := raw.ytVideoId.GetOr("");
    if tag != "" then tag else LinkVideoId(raw.link.GetOr("")).GetOr("")
  }

  /** The link is consulted only when the tag is empty; an id taken from the link is eleven id
      characters, and "" results exactly when neither gives one. */
  lemma VideoIdResolution(raw: RawEntry)
    ensures Truthy(raw.ytVideoId) ==> ResolveVideoId(raw) == raw.ytVideoId.value
    ensures !Truthy(raw.ytVideoId) ==> ResolveVideoId(raw) == LinkVideoId(raw.link.GetOr("")).GetOr("")
    ensures !Truthy(raw.ytVideoId) ==>
      (ResolveVideoId(raw) == "" <==> forall q :: 0 <= q ==> !VideoIdAt(raw.link.GetOr(""), q))
    ensures !Truthy(raw.ytVideoId) && ResolveVideoId(raw) != "" ==>
      |ResolveVideoId(raw)| == 11 && forall k :: 0 <= k < 11 ==> IsIdChar(ResolveVideoId(raw)[k])
  {
  }

  // ---------------------------------------------------------------------------
  // URL templates (lines 196-199 and 215).
  // ---------------------------------------------------------------------------

  const ThumbnailPrefix := "https://img.youtube.com/vi/"
  const EmbedPrefix := "https://www.youtube.com/embed/"

  /** `https://img.youtube.com/vi/{video_id}/{size}.jpg`. */
  function ThumbnailUrl(videoId: string, size: string): string {
    ThumbnailPrefix + videoId + "/" + size + ".jpg"
  }

  /** `https://www.youtube.com/embed/{video_id}`. */
  function EmbedUrl(videoId: string): string {
    EmbedPrefix + videoId
  }

  /** The id sits at a fixed place in every derived URL and can be read back from it, the empty id
      included; the four thumbnail sizes give four different URLs. */
  lemma TemplatesCarryVideoId(videoId: string, size: string)
    ensures var u := ThumbnailUrl(videoId, size);
      |u| == |ThumbnailPrefix| + |videoId| + |size| + 5 &&
      u[..|ThumbnailPrefix|] == ThumbnailPrefix &&
      u[|ThumbnailPrefix| .. |ThumbnailPrefix| + |videoId|] == videoId &&
      u[|ThumbnailPrefix| + |videoId| + 1 .. |u| - 4] == size
    ensures EmbedUrl(videoId)[|EmbedPrefix|..] == videoId
  {
    var u := ThumbnailUrl(videoId, size);
    assert u == ThumbnailPrefix + videoId + "/" + size + ".jpg";
  }

  // ---------------------------------------------------------------------------
  // Published time (lines 110-114 and 189-193).
  // ---------------------------------------------------------------------------

  /** The parsed tuple made into a datetime, or the clock reading when there is none; `None` where
      `datetime(*published[:6])` raises. */
  function PublishedAt(parsed: Option<TimeTuple>, now: Stamp): (r: Option<Stamp>)
    ensures parsed.None? ==> r == Some(now)
    ensures parsed.Some? ==> r == FromTuple(parsed.value)
  {
    match parsed
    case None => Some(now)
    case Some(t) => FromTuple(t)
  }

  // ---------------------------------------------------------------------------
  // Channel entries (lines 178-217).
  // ---------------------------------------------------------------------------

  /** One entry of a channel feed, for the channel whose resolved id is `channelId`. */
  function NormalizeVideoEntry(raw: RawEntry, src: ChannelSource, channelId: string, now: Stamp): (r: Option<Entry>)
    ensures r.None? <==> (raw.publishedParsed.Some? && FromTuple(raw.publishedParsed.value).None?)
    ensures r.Some? ==> var e := r.value;
      && e.videoId == Some(ResolveVideoId(raw))
      && e.thumbDefault == ThumbnailUrl(e.videoId.value, "default")
      && e.thumbMedium == ThumbnailUrl(e.videoId.value, "mqdefault")
      && e.thumbHigh == ThumbnailUrl(e.videoId.value, "hqdefault")
      && e.thumbMaxres == ThumbnailUrl(e.videoId.value, "maxresdefault")
      && e.embedUrl == Some(EmbedUrl(e.videoId.value))
      && e.channelId == Some(channelId)
      && e.contentType == "video"
      && e.description == raw.summary.GetOr("")
      && (raw.publishedParsed.None? ==> e.published == now)
      && (raw.publishedParsed.Some? ==> e.published == FromTuple(raw.publishedParsed.value).value)
  {
    match PublishedAt(raw.publishedParsed, now)
    case None => None
    case Some(published) =>
      var videoId := ResolveVideoId(raw);
      Some(Entry(
        title := raw.title.GetOr("Untitled"),
        link := raw.link.GetOr(""),
        videoId := Some(videoId),
        description := raw.summary.GetOr(""),
        published := published,
        publishedText := raw.published.GetOr(""),
        author := raw.author.GetOr(src.name.GetOr("Skratch")),
        channelName := src.name.GetOr("Unknown"),
        channelId := Some(channelId),
        thumbDefault := ThumbnailUrl(videoId, "default"),
        thumbMedium := ThumbnailUrl(videoId, "mqdefault"),
        thumbHigh := ThumbnailUrl(videoId, "hqdefault"),
        thumbMaxres := ThumbnailUrl(videoId, "maxresdefault"),
        embedUrl := Some(EmbedUrl(videoId)),
        contentType := "video"))
  }

  /** Title, link, author and channel name fall back as the `.get` defaults of lines 202-209 do:
      a missing title reads "Untitled" and a missing link ""; a missing author is the channel's
      name (or "Skratch"), while an author that is present but empty stays empty, as there is no
      `or` here; a missing channel name reads "Unknown". */
  lemma VideoEntryDefaults(raw: RawEntry, src: ChannelSource, channelId: string, now: Stamp)
    requires NormalizeVideoEntry(raw, src, channelId, now).Some?
    ensures var e := NormalizeVideoEntry(raw, src, channelId, now).value;
      && (raw.title.None? ==> e.title == "Untitled")
      && (raw.title.Some? ==> e.title == raw.title.value)
      && (raw.link.None? ==> e.link == "")
      && (raw.link.Some? ==> e.link == raw.link.value)
      && (raw.author.Some? ==> e.author == raw.author.value)
      && (raw.author.None? ==> e.author == src.name.GetOr("Skratch"))
      && e.channelName == src.name.GetOr("Unknown")
      && e.publishedText == raw.published.GetOr("")
  {
  }

  // ---------------------------------------------------------------------------
  // Generic feed description: `re.sub(r'<[^>]+>', '', d)[:500]` (lines 127-129).
  // ---------------------------------------------------------------------------

  /** `<[^>]+>` matches at the start of `s`: a `<`, at least one character other than `>`, then a `>`. */
  predicate TagAt(s: string) {
    |s| >= 3 && s[0] == '<' && s[1] != '>' && '>' in s[2..]
  }

  /** Index of the first `>` in `s` from position `i` on (`|s|` when there is none). */
  function CloseFrom(s: string, i: nat): (k: nat)
    requires i <= |s|
    ensures i <= k <= |s| && (k < |s| ==> s[k] == '>')
    ensures forall j :: i <= j < k ==> s[j] != '>'
    decreases |s| - i
  {
    if i == |s| || s[i] == '>' then i else CloseFrom(s, i + 1)
  }

  /** Every match of `<[^>]+>` removed, scanning left to right as `re.sub` does. */
  function StripTags(s: string): string
    decreases |s|
  {
    if s == [] then ""
    else if TagAt(s) then
      var close := CloseFrom(s, 1);
      StripTags(s[close + 1..])
    else [s[0]] + StripTags(s[1..])
  }

  /** No match of the tag pattern starts anywhere in `s`. */
  predicate NoTags(s: string) {
    forall i :: 0 <= i < |s| ==> !TagAt(s[i..])
  }

  lemma {:induction false} StripTagsKeepsChars(s: string)
    ensures |StripTags(s)| <= |s|
    ensures forall c :: c in StripTags(s) ==> c in s
    decreases |s|
  {
    if s != [] {
      if TagAt(s) {
        var close := CloseFrom(s, 1);
        assert '>' in s[2..];
        var k :| 2 <= k < |s| && s[k] == '>';
        assert close < |s|;
        StripTagsKeepsChars(s[close + 1..]);
        forall c | c in s[close + 1..] ensures c in s {
          var j :| 0 <= j < |s[close + 1..]| && s[close + 1..][j] == c;
          assert s[close + 1 + j] == c;
        }
      } else {
        StripTagsKeepsChars(s[1..]);
      }
    }
  }

  /** After the substitution no tag is left: the pattern matches nowhere in the result. */
  lemma {:induction false} StripTagsLeavesNoTag(s: string)
    ensures NoTags(StripTags(s))
    decreases |s|
  {
    if s != [] {
      if TagAt(s) {
        var k :| 2 <= k < |s| && s[k] == '>';
        StripTagsLeavesNoTag(s[CloseFrom(s, 1) + 1..]);
      } else {
        var tail := StripTags(s[1..]);
        var r := [s[0]] + tail;
        StripTagsLeavesNoTag(s[1..]);
        StripTagsKeepsChars(s[1..]);
        forall i | 0 <= i < |r| ensures !TagAt(r[i..]) {
          if i == 0 {
            if s[0] == '<' && |r| >= 3 {
              // `s` does not start a tag: either its second character is `>`, which is kept, or
              // no `>` follows at all.
              if s[1] == '>' {
                assert s[1..][0] == '>';
                assert r[1] == '>';
              } else {
                assert '>' !in s[2..];
                assert s[1..] == [s[1]] + s[2..];
                assert '>' !in s[1..];
                assert forall j :: 2 <= j < |r| ==> r[j] in tail;
              }
            }
          } else {
            assert r[i..] == tail[i - 1..];
          }
        }
      }
    }
  }

  /** Text with no tag in it passes through unchanged; hence stripping twice is stripping once. */
  lemma {:induction false} StripTagsIdentity(s: string)
    requires NoTags(s)
    ensures StripTags(s) == s
    decreases |s|
  {
    if s != [] {
      assert !TagAt(s[0..]);
      assert s[0..] == s;
      assert NoTags(s[1..]) by {
        forall i | 0 <= i < |s[1..]| ensures !TagAt(s[1..][i..]) {
          assert s[1..][i..] == s[i + 1..];
        }
      }
      StripTagsIdentity(s[1..]);
    }
  }

  lemma StripTagsIdempotent(s: string)
    ensures StripTags(StripTags(s)) == StripTags(s)
  {
    StripTagsLeavesNoTag(s);
    StripTagsIdentity(StripTags(s));
  }

  /** `entry.get("description", "") or entry.get("summary", "")`. */
  function DescriptionSource(raw: RawEntry): string {
    var d := raw.description.GetOr("");
    if d != "" then d else raw.summary.GetOr("")
  }

  /** The plain-text description of a generic entry: the first 500 characters of the tag-stripped
      description (or summary). */
  function FeedDescription(raw: RawEntry): (r: string)
    ensures |r| <= 500
    ensures |r| == Min(500, |StripTags(DescriptionSource(raw))|)
    ensures r == StripTags(DescriptionSource(raw))[..|r|]
    ensures NoTags(StripTags(DescriptionSource(raw)))
  {
    StripTagsLeavesNoTag(DescriptionSource(raw));
    Take(StripTags(DescriptionSource(raw)), 500)
  }

  // ---------------------------------------------------------------------------
  // Generic feed thumbnail (lines 116-124).
  // ---------------------------------------------------------------------------

  /** `media.get('medium') == 'image' or media.get('type', '').startswith('image')`. */
  predicate IsImage(m: MediaRef) {
    m.medium == Some("image") || StartsWith(m.mimeType.GetOr(""), "image")
  }

  /** Index of the first image in a `media_content` list. */
  function FirstImage(media: seq<MediaRef>): (r: Option<nat>)
    ensures r.Some? ==> r.value < |media| && IsImage(media[r.value])
                        && forall k :: 0 <= k < r.value ==> !IsImage(media[k])
    ensures r.None? ==> forall k :: 0 <= k < |media| ==> !IsImage(media[k])
    decreases |media|
  {
    if media == [] then None
    else if IsImage(media[0]) then Some(0)
    else
      match FirstImage(media[1..])
      case None => None
      case Some(k) => Some(k + 1)
  }

  /** The url of the first image in `media_content`; when that is missing or empty, the url of the
      first `media_thumbnail`; else "". */
  function Thumbnail(raw: RawEntry): string {
    var fromContent := match FirstImage(raw.mediaContent)
      case Some(k) => raw.mediaContent[k].url.GetOr("")
      case None => "";
    if fromContent == "" && |raw.mediaThumbnail| > 0 then raw.mediaThumbnail[0].url.GetOr("")
    else fromContent
  }

  /** The scan of lines 117-124: a loop over `media_content` that stops at the first image, then
      the `media_thumbnail` fallback. */
  method SelectThumbnail(raw: RawEntry) returns (thumbnail: string)
    ensures thumbnail == Thumbnail(raw)
    ensures thumbnail != "" ==>
      (exists k :: 0 <= k < |raw.mediaContent| && IsImage(raw.mediaContent[k]) && thumbnail == raw.mediaContent[k].url.GetOr(""))
      || (|raw.mediaThumbnail| > 0 && thumbnail == raw.mediaThumbnail[0].url.GetOr(""))
  {
    thumbnail := "";
    var i := 0;
    while i < |raw.mediaContent|
      invariant 0 <= i <= |raw.mediaContent|
      invariant thumbnail == ""
      invariant forall k :: 0 <= k < i ==> !IsImage(raw.mediaContent[k])
    {
      var media := raw.mediaContent[i];
      if IsImage(media) {
        thumbnail := media.url.GetOr("");
        break;
      }
      i := i + 1;
    }
    assert thumbnail == match FirstImage(raw.mediaContent)
      case Some(k) => raw.mediaContent[k].url.GetOr("")
      case None => "";
    if thumbnail == "" && |raw.mediaThumbnail| > 0 {
      thumbnail := raw.mediaThumbnail[0].url.GetOr("");
    }
  }

  // ---------------------------------------------------------------------------
  // Generic feed entries (lines 108-147).
  // ---------------------------------------------------------------------------

  /** `entry.get("published_parsed") or entry.get("updated_parsed")`. */
  function FeedTimeTuple(raw: RawEntry): Option<TimeTuple> {
    if raw.publishedParsed.Some? then raw.publishedParsed else raw.updatedParsed
  }

  /** `entry.get("author", "") or entry.get("dc_creator", name)`, the name defaulting to "Skratch". */
  function FeedAuthor(raw: RawEntry, src: FeedSource): string {
    var author := raw.author.GetOr("");
    if author != "" then author else raw.dcCreator.GetOr(src.name.GetOr("Skratch"))
  }

  /** The record built for one generic entry once its datetime and thumbnail are known. */
  function FeedEntry(raw: RawEntry, src: FeedSource, published: Stamp, thumbnail: string): Entry {
    Entry(
      title := raw.title.GetOr("Untitled"),
      link := raw.link.GetOr(""),
      videoId := None,
      description := FeedDescription(raw),
      published := published,
      publishedText := raw.published.GetOr(""),
      author := FeedAuthor(raw, src),
      channelName := src.name.GetOr("Unknown"),
      channelId := None,
      thumbDefault := thumbnail,
      thumbMedium := thumbnail,
      thumbHigh := thumbnail,
      thumbMaxres := thumbnail,
      embedUrl := None,
      contentType := src.contentType.GetOr("article"))
  }

  /** One entry of a generic RSS feed. */
  function NormalizeFeedEntry(raw: RawEntry, src: FeedSource, now: Stamp): (r: Option<Entry>)
    ensures r.None? <==> (FeedTimeTuple(raw).Some? && FromTuple(FeedTimeTuple(raw).value).None?)
    ensures r.Some? ==> var e := r.value;
      && e.videoId.None? && e.channelId.None? && e.embedUrl.None?
      && e.thumbDefault == e.thumbMedium == e.thumbHigh == e.thumbMaxres == Thumbnail(raw)
      && e.description == FeedDescription(raw) && |e.description| <= 500
      && (FeedTimeTuple(raw).None? ==> e.published == now)
      && (FeedTimeTuple(raw).Some? ==> e.published == FromTuple(FeedTimeTuple(raw).value).value)
  {
    match PublishedAt(FeedTimeTuple(raw), now)
    case None => None
    case Some(published) => Some(FeedEntry(raw, src, published, Thumbnail(raw)))
  }

  /** Title, link, published text and author are taken from the raw entry when present and
      otherwise fall back as the source's `.get` defaults do: a missing title reads "Untitled", a
      missing link "", and the author goes from `author` (when non-empty) to `dc_creator` to the
      feed's name. */
  lemma FeedEntryDefaults(raw: RawEntry, src: FeedSource, now: Stamp)
    requires NormalizeFeedEntry(raw, src, now).Some?
    ensures var e := NormalizeFeedEntry(raw, src, now).value;
      && (raw.title.None? ==> e.title == "Untitled")
      && (raw.title.Some? ==> e.title == raw.title.value)
      && (raw.link.None? ==> e.link == "")
      && (raw.link.Some? ==> e.link == raw.link.value)
      && e.publishedText == raw.published.GetOr("")
      && (Truthy(raw.author) ==> e.author == raw.author.value)
      && (!Truthy(raw.author) && raw.dcCreator.Some? ==> e.author == raw.dcCreator.value)
      && (!Truthy(raw.author) && raw.dcCreator.None? ==> e.author == src.name.GetOr("Skratch"))
      && e.channelName == src.name.GetOr("Unknown")
      && e.contentType == src.contentType.GetOr("article")
  {
  }
}
