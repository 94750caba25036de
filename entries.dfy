/**
 * The records the pipeline passes around: the configured sources, what the feed parser hands
 * over for one source (a list of loosely-typed raw entries, or a failure), and the fixed-shape
 * entry every raw entry is normalised into.
 */
module Entries {

  import opened Wrappers
  import opened Timestamps

  /** One `media_content` or `media_thumbnail` item: a dictionary with optional keys. */
  datatype MediaRef = MediaRef(url: Option<string>, medium: Option<string>, mimeType: Option<string>)

  /** A feed parser entry: every key may be missing. An absent or empty media list is `[]`. */
  datatype RawEntry = RawEntry(
    title: Option<string>,
    link: Option<string>,
    summary: Option<string>,
    description: Option<string>,
    author: Option<string>,
    dcCreator: Option<string>,
    published: Option<string>,
    publishedParsed: Option<TimeTuple>,
    updatedParsed: Option<TimeTuple>,
    ytVideoId: Option<string>,
    mediaContent: seq<MediaRef>,
    mediaThumbnail: seq<MediaRef>)

  /** What parsing one feed URL gives: its entries, or an exception. */
  datatype FetchOutcome = Parsed(entries: seq<RawEntry>) | ParseError

  /** A configured YouTube channel: a channel id, or a handle to resolve to one. */
  datatype ChannelSource = ChannelSource(name: Option<string>, channelId: Option<string>, handle: Option<string>)

  /** A configured RSS feed (articles, podcasts, ...). */
  datatype FeedSource = FeedSource(name: Option<string>, url: Option<string>, contentType: Option<string>)

  /** The normalised entry. `videoId`, `channelId` and `embedUrl` are `None` for RSS-feed
      entries; channel entries always carry them, possibly with an empty video id. */
  datatype Entry = Entry(
    title: string,
    link: string,
    videoId: Option<string>,
    description: string,
    published: Stamp,
    publishedText: string,
    author: string,
    channelName: string,
    channelId: Option<string>,
    thumbDefault: string,
    thumbMedium: string,
    thumbHigh: string,
    thumbMaxres: string,
    embedUrl: Option<string>,
    contentType: string)

  /** Python truthiness of an optional string: present and non-empty. */
  predicate Truthy(s: Option<string>) {
    s.Some? && s.value != ""
  }

  predicate HasVideoId(e: Entry) {
    Truthy(e.videoId)
  }

  predicate HasChannelId(e: Entry) {
    Truthy(e.channelId)
  }

  /** The module-level configuration, passed in as one immutable value. */
  datatype Config = Config(
    channels: seq<ChannelSource>,
    feeds: seq<FeedSource>,
    title: string,
    description: string,
    link: string,
    perSourceCap: nat,
    totalCap: nat)

  /** The configuration the script ships with (lines 32-58). */
  const SkratchConfig := Config(
    channels := [
      ChannelSource(Some("Skratch"), Some("UCwtGQ3sgidNlQGbIUBPP3xw"), None),
      ChannelSource(Some("Dan On Golf Show"), Some("UCQvs9V1djea1wFurLJPlqMg"), None)],
    feeds := [FeedSource(Some("Skratch Articles"), Some("https://www.skratch.golf/rss"), Some("article"))],
    title := "Skratch Golf Video Feed",
    description := "Combined video feed from Skratch Golf YouTube channels",
    link := "https://skratch.golf",
    perSourceCap := 25,
    totalCap := 50)
}
