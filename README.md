# Skratch Golf YouTube RSS aggregator: a Dafny model

`youtube_rss_aggregator.py` combines several YouTube channel feeds and generic RSS feeds into one
Media RSS document. This project models what it does once the network and the clock are taken
out:

- **Normalisation of one source** (`fetch_channel_feed`, `fetch_standard_rss_feed`,
  `get_youtube_rss_url`).
  - The first 25 raw entries of a feed become fixed-shape entry records, one per raw entry, in feed order.
  - Channel entries get their video id, thumbnail and embed URLs.
  - Generic entries get a tag-stripped description cut to 500 characters, an image found in their media lists, and defaults for the missing fields.
  - A missing channel id or feed url, a parse error, or a publish tuple that `datetime` rejects gives the source no entries at all.
- **Aggregation** in `main`.
  - The channel results come in configuration order, then the feed results.
  - They are sorted newest first by Python's stable sort, then cut to 50 entries.
- **The element tree of `build_mrss_feed`.**
  - It holds eight channel header elements, then one `item` per entry.
  - Which elements and attributes an item holds follows from the truthiness tests on its video id, thumbnail, channel id and content type.
  - The description HTML is built from `html.escape`d pieces and stripped. When serialised, it is escaped a second time as XML character data.
  - Dates use the layout of section 5 of RFC 822 with a fixed `+0000` zone.
- **Serialisation and printing.**
  - The namespace declarations ElementTree writes on the root's start tag are modelled, along with the parser step that rejects a start tag repeating an attribute.
  - `main` replaces the first line with a fixed XML declaration.

**Modules**

| module | contents |
|---|---|
| `Text` | the Python string built-ins used by the program |
| `Escape` | `html.escape` and the XML escapes |
| `Timestamps` | naive `datetime`, its ordering and `strftime` |
| `Entries` | the records |
| `Normalize` | the per-entry rules |
| `Fetch` | the per-source functions |
| `Aggregate` | the `main` collection, the sort and the cap |
| `Feed` | the element tree |
| `Serialize` | the namespace declarations |
| `Pipeline` | `main` end to end |

**Collaborators are parameters**
- `fetch(url)` is what `feedparser.parse(url)` gave: raw entries, or a parse error.
- `resolve(handle)` is what `resolve_handle_to_channel_id(handle)` returned.
- `now` and `buildTime` are the clock readings.
- `pretty(tree)` is the text `minidom`'s `toprettyxml` produces for a well-formed tree.
- The module-level configuration is a `Config` value. `Entries.SkratchConfig` holds the shipped one.

**Two consequences of the code worth knowing**
- An out-of-range publish tuple fails the whole source, not one entry. `datetime(*published[:6])` raises inside the loop, and the function's `except` returns `[]` (`Fetch.ChannelFeedOutcome`, `Fetch.FeedOutcome`).
- As written, the document cannot be parsed back once it has an item, so nothing is printed (see "## Findings").

## Model

| member | source | states |
|---|---|---|
| Fetch.YoutubeRssUrlInjective | youtube_rss_aggregator.py:90-92 | the feed URL is the fixed prefix followed by the channel id, which reads back from it; different ids give different URLs |
| Fetch.ResolveChannelId | youtube_rss_aggregator.py:162-170 | the configured id when non-empty; otherwise the handle's resolution when it is non-empty; otherwise none; a resolved id is never empty |
| Normalize.LinkVideoId | youtube_rss_aggregator.py:184-186 | none exactly when `v=` plus 11 id characters occurs nowhere in the link; otherwise the 11 characters after the leftmost match, all from `[A-Za-z0-9_-]` |
| Normalize.FindVideoIdFrom | youtube_rss_aggregator.py:184 | the leftmost position at or after `i` where the pattern matches, with no match before it; none when it matches nowhere after `i` |
| Normalize.ResolveVideoId | youtube_rss_aggregator.py:180-186 | definition: the tag when non-empty, else the id `LinkVideoId` finds in the link, else ""; its properties are stated by `VideoIdResolution` |
| Normalize.VideoIdResolution | youtube_rss_aggregator.py:180-186 | a non-empty `yt_videoid` tag wins and the link is then not consulted; otherwise the id is exactly what `LinkVideoId` finds (the 11 characters after the leftmost match) or "", and it is "" iff the link has no match |
| Normalize.TemplatesCarryVideoId | youtube_rss_aggregator.py:196-215 | the thumbnail URL is prefix, id, `/`, size, `.jpg`, and the embed URL is prefix plus id; the id (also "") and the size read back from their fixed places |
| Normalize.PublishedAt | youtube_rss_aggregator.py:189-193 | the clock reading when there is no tuple; otherwise the datetime of the tuple's six fields, or failure where `datetime` raises |
| Timestamps.FromTuple | youtube_rss_aggregator.py:112 | a datetime with microsecond 0 exactly when the six fields are in `datetime`'s ranges (leap years included) |
| Normalize.NormalizeVideoEntry | youtube_rss_aggregator.py:178-217 | fails iff the publish tuple is invalid; otherwise the entry carries the resolved video id, the four thumbnail templates and the embed template for that id, the channel id, content type "video", the raw summary as description, and as publication time the tuple's datetime, or the clock time when no tuple was given |
| Normalize.VideoEntryDefaults | youtube_rss_aggregator.py:202-209 | title defaults to "Untitled" and link to ""; a missing author is the channel name (then "Skratch"), while a present but empty author stays empty; channel name defaults to "Unknown" |
| Normalize.StripTags | youtube_rss_aggregator.py:129 | definition: a left-to-right scan that drops every `<`, at least one non-`>` character, `>`; its properties are stated by the four lemmas below |
| Normalize.StripTagsLeavesNoTag | youtube_rss_aggregator.py:129 | after the `<[^>]+>` substitution no match of the pattern starts anywhere in the text |
| Normalize.StripTagsKeepsChars | youtube_rss_aggregator.py:129 | the substitution never lengthens the text and adds no character that was not there |
| Normalize.StripTagsIdentity | youtube_rss_aggregator.py:129 | text with no tag passes through unchanged |
| Normalize.StripTagsIdempotent | youtube_rss_aggregator.py:129 | stripping twice is stripping once |
| Normalize.FeedDescription | youtube_rss_aggregator.py:127-129 | at most 500 characters, exactly `min(500, n)` of them, a prefix of the tag-stripped description (or of the summary when the description is empty), and tag-free before the cut |
| Normalize.FirstImage | youtube_rss_aggregator.py:118-122 | the index of the first media item whose medium is "image" or whose type starts with "image", with none before it; none when no item qualifies |
| Normalize.Thumbnail | youtube_rss_aggregator.py:117-124 | definition: the url of the first image in `media_content`, or, when that is empty, the first `media_thumbnail` url, else ""; `SelectThumbnail` is its loop |
| Normalize.SelectThumbnail | youtube_rss_aggregator.py:117-124 | the scan that stops at the first image, then the `media_thumbnail` fallback; a non-empty result is an image item's url or the first thumbnail's url |
| Normalize.NormalizeFeedEntry | youtube_rss_aggregator.py:108-147 | fails iff the published (else updated) tuple is invalid; otherwise no video id, channel id or embed URL, all four thumbnails equal to the selected image, the description `FeedDescription` gives (at most 500 characters), and as publication time the tuple's datetime, or the clock time when no tuple was given |
| Normalize.FeedEntryDefaults | youtube_rss_aggregator.py:132-146 | a present title and link are kept, and otherwise the title is "Untitled" and the link ""; the published text is the raw `published` or ""; author falls back from a non-empty `author` to `dc_creator` to the feed name (then "Skratch"); channel name defaults to "Unknown" and content type to "article" |
| Fetch.NormalizeAll | youtube_rss_aggregator.py:178-219 | succeeds iff every raw entry normalises; the result then has one entry per raw entry, in order |
| Fetch.ChannelFeedEntries | youtube_rss_aggregator.py:178 | a channel yields at most `MAX_ITEMS_PER_CHANNEL` entries |
| Fetch.FeedEntries | youtube_rss_aggregator.py:108 | a feed yields at most `MAX_ITEMS_PER_CHANNEL` entries |
| Fetch.ChannelFeedOutcome | youtube_rss_aggregator.py:161-223 | no channel id or a parse error gives `[]`; otherwise one entry per raw entry among the first `cap`, in feed order, or `[]` when one of them has an invalid publish tuple |
| Fetch.FeedOutcome | youtube_rss_aggregator.py:100-153 | no url or a parse error gives `[]`; otherwise one entry per raw entry among the first `cap`, in feed order, or `[]` when a publish tuple is invalid |
| Fetch.FetchChannelFeed | youtube_rss_aggregator.py:156-223 | the loop appending one normalised entry per raw entry returns exactly the channel's entries described above |
| Fetch.FetchStandardRssFeed | youtube_rss_aggregator.py:95-153 | the same for a generic feed, with the media scan as a loop |
| Aggregate.ChannelResults | youtube_rss_aggregator.py:375-377 | one result per configured channel, each within the per-source cap |
| Aggregate.FeedResults | youtube_rss_aggregator.py:380-382 | one result per configured feed, each within the per-source cap |
| Aggregate.AllSourceEntriesBound | youtube_rss_aggregator.py:372-382 | the collected list has at most (sources × per-source cap) entries |
| Aggregate.CollectEntries | youtube_rss_aggregator.py:372-382 | the two `extend` loops give every channel's entries in configuration order, then every feed's |
| Timestamps.BeforeIrreflexive | youtube_rss_aggregator.py:385 | no datetime is before itself |
| Timestamps.BeforeTransitive | youtube_rss_aggregator.py:385 | the datetime order is transitive |
| Timestamps.BeforeTotal | youtube_rss_aggregator.py:385 | any two datetimes are equal or ordered one way |
| Timestamps.BeforeAsymmetric | youtube_rss_aggregator.py:385 | never both `a < b` and `b < a` |
| Aggregate.SortedNewestFirst | youtube_rss_aggregator.py:385 | definition: the reference sort, inserting each entry in turn after every entry not older than it; its properties are stated by the lemmas below |
| Aggregate.SortedNewestFirstPermutes | youtube_rss_aggregator.py:385 | the sort's result is a permutation of its input |
| Aggregate.SortedNewestFirstOrdered | youtube_rss_aggregator.py:385 | no entry of the result is followed by a newer one |
| Aggregate.SortedNewestFirstStable | youtube_rss_aggregator.py:385 | for every timestamp, the entries carrying it keep their original relative order |
| Aggregate.SortedNewestFirstProperties | youtube_rss_aggregator.py:385 | ordered newest first, a permutation, and stable |
| Aggregate.StableSortIsUnique | youtube_rss_aggregator.py:385 | two newest-first sequences that agree, timestamp by timestamp, on their entries and order are equal, so every stable sort gives the same result |
| Aggregate.InsertionPoint | youtube_rss_aggregator.py:385 | the insertion place after every entry not older than the new one |
| Aggregate.SortNewestFirst | youtube_rss_aggregator.py:385 | the in-order insertion sort returns a newest-first permutation of its input that is stable per timestamp |
| Aggregate.Newest | youtube_rss_aggregator.py:385-388 | definition: the first `cap` entries of the sorted list; its properties are stated by the lemmas below |
| Aggregate.NewestOrderAndContent | youtube_rss_aggregator.py:385-388 | the capped result has `min(50, n)` entries, all from the collected list, newest first |
| Aggregate.NewestKeepsTies | youtube_rss_aggregator.py:385-388 | per timestamp, the kept entries are the first ones of the collected list with that timestamp, in order |
| Aggregate.NewestAreNewest | youtube_rss_aggregator.py:385-388 | no dropped entry is newer than a kept one |
| Aggregate.NewestProperties | youtube_rss_aggregator.py:385-388 | length, origin, order, ties and "the newest are kept" together |
| Aggregate.AggregateEntries | youtube_rss_aggregator.py:372-388 | collecting, sorting and cutting gives the newest 50 entries of the collected list |
| Escape.HtmlEscape | youtube_rss_aggregator.py:293 | definition: `html.escape` with `quote=True`, character by character (`&` `<` `>` `"` `'` to their references); its properties are stated by the lemmas below |
| Escape.HtmlRoundTrip | youtube_rss_aggregator.py:293 | decoding the five entities undoes `html.escape` |
| Escape.HtmlEscapeHasNoMarkup | youtube_rss_aggregator.py:293 | `html.escape`'s output holds no `<`, `>`, `"` or `'` |
| Escape.EscapeConcat | youtube_rss_aggregator.py:293 | both escapes work piece by piece: escaping a concatenation concatenates the escapes |
| Escape.EscapeCharData | youtube_rss_aggregator.py:365 | definition: the serialiser's text escape of `&`, `<` and `>`; its properties are stated by the lemmas below |
| Escape.CharDataRoundTrip | youtube_rss_aggregator.py:365 | decoding undoes the character-data escape of serialisation |
| Escape.AttributeRoundTrip | youtube_rss_aggregator.py:365 | decoding undoes the attribute-value escape of serialisation, which also writes carriage return, line feed and tab as character references |
| Escape.CharDataHasNoMarkup | youtube_rss_aggregator.py:365 | escaped character data holds no `<` or `>` |
| Escape.EscapePlain | youtube_rss_aggregator.py:365 | text without `&<>"'` passes the HTML and text escapes unchanged, and the attribute escape too when it also holds no carriage return, line feed or tab |
| Text.StripFramed | youtube_rss_aggregator.py:304 | `strip()` of a text framed by whitespace, whose core neither starts nor ends with whitespace, is the core |
| Feed.DescriptionHtml | youtube_rss_aggregator.py:291-304 | definition: the f-string of the video or the other branch, stripped; its layout is stated by `DescriptionHtmlLayout` |
| Feed.DescriptionHtmlLayout | youtube_rss_aggregator.py:291-304 | the stripped description is its paragraphs joined by newlines, with nothing before the first or after the last, and no blank line where a non-video item lacks a thumbnail |
| Feed.ParagraphChoice | youtube_rss_aggregator.py:291-303 | the anchor reads "Watch on YouTube" iff the item has a video id and "Read more" iff it has none; the image paragraph is there iff the item has a video id or a thumbnail; the escaped description paragraph is always there |
| Feed.ImageParagraphPieces | youtube_rss_aggregator.py:295 | the image's `src` is the thumbnail url as it is and its `alt` the `html.escape`d title |
| Feed.LinkParagraphHref | youtube_rss_aggregator.py:294 | the anchor's `href` is the link as it is |
| Feed.DescriptionDoubleEscape | youtube_rss_aggregator.py:293-304 | the text paragraph holds the escaped description and the image's `alt` the escaped title, each reading back after one decoding; `src` is the thumbnail url and both anchors' `href` the link, unescaped; once serialised, the description needs two decodings, while the fragment needs one |
| Feed.RenderedMediaDescription | youtube_rss_aggregator.py:325 | the media description is the description cut to 500 characters: `min(500, n)` long and a prefix of it |
| Timestamps.Rfc822 | youtube_rss_aggregator.py:285 | definition: `strftime("%a, %d %b %Y %H:%M:%S +0000")` with C-locale names; its layout is stated by `Rfc822Layout` |
| Timestamps.Weekday | youtube_rss_aggregator.py:285 | the `%a` weekday, Monday 0, from the proleptic Gregorian day count: always below 7 |
| Timestamps.DecimalRoundTrip | youtube_rss_aggregator.py:285 | the `%Y` numeral reads back as the year |
| Timestamps.Pad2RoundTrip | youtube_rss_aggregator.py:285 | a two-digit zero-padded field reads back as its value |
| Timestamps.Rfc822Layout | youtube_rss_aggregator.py:285 | for four-digit years the date is 31 characters with weekday, day, month, year, hour, minute and second at fixed places, separated by ", ", single spaces and colons, each numeric field reading back as the datetime's own, ending in " +0000" |
| Timestamps.Rfc822Example | youtube_rss_aggregator.py:254 | 2024-01-03 10:00:00 formats as "Wed, 03 Jan 2024 10:00:00 +0000" |
| Feed.Namespace | youtube_rss_aggregator.py:288-354 | every `{uri}` tag the feed writes is in one of the four namespaces |
| Feed.ItemElement | youtube_rss_aggregator.py:273-362 | definition: the `item` element of one entry; what it holds is stated by `ItemTags`, `ItemHeadFields`, `ItemTail`, `MediaGroupTags`, `MediaGroupVideoLayout` and `MediaGroupOtherLayout` |
| Feed.ItemTags | youtube_rss_aggregator.py:275-362 | an item holds the six head elements once each; `media:group` iff thumbnail or video id; `yt:videoId` iff video id; `yt:channelId` iff channel id; two categories iff a content type, else one; no other tag |
| Feed.ItemHeadFields | youtube_rss_aggregator.py:276-308 | the item opens with title, link, a guid with `isPermaLink="true"` holding the link, pubDate, dc:creator with the author, and description; `media:group` follows when present |
| Feed.MediaGroupTags | youtube_rss_aggregator.py:307-346 | `media:group` holds media title and description once each; for a video one `media:content`, four thumbnails and one player; otherwise one thumbnail when there is one and no content or player |
| Feed.MediaGroupVideoLayout | youtube_rss_aggregator.py:311-346 | for a video the group opens with the embed `media:content` (flash type, medium "video"), then the plain media title holding the title and the plain media description holding the cut description; its thumbnails carry the four urls sized 120x90, 320x180, 480x360 and 1280x720 in that order, then the player points at the link |
| Feed.MediaGroupOtherLayout | youtube_rss_aggregator.py:317-341 | without a video id, the group of an item with a thumbnail is the plain media title holding the title, the plain media description, and one `media:thumbnail` whose only attribute is the thumbnail url |
| Feed.ItemTail | youtube_rss_aggregator.py:348-362 | after the head and the group, an item holds `yt:videoId` with the video id iff it has one, `yt:channelId` with the channel id iff it has one, a category with the channel name, and a second category with the content type iff that is non-empty, and nothing else |
| Feed.Items | youtube_rss_aggregator.py:272-273 | one item element per entry: the i-th is the i-th entry's item |
| Feed.MrssFeed | youtube_rss_aggregator.py:238-362 | definition: the root with its attributes and one channel holding the header and the items; its shape is stated by `FeedShape` |
| Feed.ItemsCount | youtube_rss_aggregator.py:272-273 | the items hold exactly as many `item` elements as there are entries |
| Feed.FeedStructure | youtube_rss_aggregator.py:246-273 | one channel holding eight header elements, among them language "en-us" and the build date, then the items |
| Feed.FeedItemCount | youtube_rss_aggregator.py:246-273 | the channel holds exactly one `item` per entry and the header none |
| Feed.FeedShape | youtube_rss_aggregator.py:238-273 | the structure and the item count together |
| Feed.BuildMrssFeed | youtube_rss_aggregator.py:238-362 | the loop adding one item per entry builds the document tree for the entries, with the build time formatted as pubDate is |
| Serialize.Declare | youtube_rss_aggregator.py:365 | definition: ElementTree's namespace table, filled in document order, a new URI taking the registry's prefix or `ns<k>` and `xml` never declared; its properties are stated by the lemmas below |
| Serialize.PrefixOf | youtube_rss_aggregator.py:365 | the prefix already given to a URI, present iff the URI was declared |
| Serialize.DeclareKeeps | youtube_rss_aggregator.py:365 | a URI keeps the prefix it was first given |
| Serialize.DeclareFinds | youtube_rss_aggregator.py:365 | a URI the prefix registry knows ends up declared under the registry's prefix unless it had one already |
| Serialize.TagUrisAreFeedNamespaces | youtube_rss_aggregator.py:288-354 | every tag URI of the tree is one of the four feed namespaces |
| Serialize.FeedUsesDc | youtube_rss_aggregator.py:288 | a feed with an item uses the Dublin Core namespace through `dc:creator` |
| Serialize.AsWrittenDuplicatesDc | youtube_rss_aggregator.py:241-244 | with at least one entry, the root's start tag carries `xmlns:dc` twice and is not well-formed |
| Serialize.Corrected | youtube_rss_aggregator.py:239-240 | the corrected root keeps only `version="2.0"` and leaves tag, text and children as they were |
| Serialize.CorrectedIsWellFormed | youtube_rss_aggregator.py:231-244 | with the four prefixes registered and no hand-set declarations, every feed's start tag is well-formed and each namespace gets its prefix from the NSMAP |
| Serialize.CharsValid | youtube_rss_aggregator.py:365-366 | definition: every attribute name and value and every text of the tree holds only characters section 2.2 of XML 1.0 allows, which the serialiser writes unescaped |
| Pipeline.Serialized | youtube_rss_aggregator.py:365-367 | serialising and re-parsing succeeds iff the start tag has no repeated attribute and the tree holds no forbidden character, and then gives the pretty-printed text |
| Pipeline.AsWrittenPrintsNothing | youtube_rss_aggregator.py:391 | as written, whenever the feed would have an item, `build_mrss_feed` raises and nothing is printed |
| Pipeline.ReplaceDeclaration | youtube_rss_aggregator.py:393-400 | definition: split into lines, drop a first line starting `<?xml`, print the fixed declaration and the joined lines; its layout is stated by `ReplaceDeclarationLayout` |
| Pipeline.ReplaceDeclarationLayout | youtube_rss_aggregator.py:393-400 | the output opens with the fixed declaration on its own line; the serialiser's first line is dropped iff it starts with `<?xml` and the rest follows unchanged; otherwise the whole text follows |
| Text.JoinSplit | youtube_rss_aggregator.py:394-400 | joining the lines of a split by newline gives the text back |
| Text.SplitFirst | youtube_rss_aggregator.py:394-396 | the text is its first line, a newline and the rest of the lines joined |
| Pipeline.Output | youtube_rss_aggregator.py:370-400 | definition: what `main`, with the namespace fix, prints for the newest entries: the serialised document behind the fixed declaration, or nothing when serialising fails |
| Pipeline.GenerateFeed | youtube_rss_aggregator.py:370-400 | `main` with the namespace fix: collect, sort, cap, build, serialise and print; the result is `Output`, it is printed iff the tree holds no forbidden character, and it then starts with the fixed declaration line |

## Left out

- Network access is not modelled. `feedparser.parse`, `requests.get` and the regular-expression scan in `resolve_handle_to_channel_id` are the `fetch` and `resolve` parameters.
- The clock is not modelled. `datetime.now()` is the `now` and `buildTime` parameters.
- Normalize.PublishedAt: one `now` stands for every per-entry `datetime.now()` of lines 114 and 193. The program reads the clock once per dateless entry, and those readings never decrease in processing order. When they differ, the newest-first sort puts the later-processed dateless entries first. The model gives them all the same stamp, so they keep their collection order.
- `print` of warnings is not modelled, because it is output plumbing. The document output is modelled as the string it prints.
- Pretty printing is not modelled. `minidom.toprettyxml` indentation and whitespace are the `pretty` parameter, and the model makes no statement about the exact bytes.
- The serialised bytes are not modelled beyond what the parser decides. The escapes are stated as functions with their round trips, and the re-serialisation by minidom is part of `pretty`.
- Escape.EscapeAttribute: follows ElementTree from Python 3.9 on, which writes carriage return, line feed and tab as character references. Earlier versions treat these characters differently; for one, a carriage return became a line feed.
- Serialize.Declare: ElementTree writes the declarations sorted by prefix. The model keeps them in first-use order, because only the absence of a repeated name is stated.
- `strftime` uses the C locale's day and month names. Other locales are out of scope. `%Y` is written unpadded below year 1000, as the C library does.
- The regular-expression engine is replaced by two explicit scanners, `LinkVideoId` and `StripTags`, for the two patterns the program uses.
- Timestamps are naive datetimes. Time zones and time-zone-aware comparison do not arise, because every value the program sorts is naive.
- The in-place sort is modelled on a sequence, because the list is rebuilt by an insertion sort proved equal to the reference sort. Stability makes the result unique (`Aggregate.StableSortIsUnique`), so the in-place algorithm is not needed for the result.
- `SubElement` mutation is modelled as building each element's children as a sequence. `BuildMrssFeed` keeps the loop over entries. Aliasing of elements does not arise.
- Non-string field values that feedparser could hand over are not modelled. Raw fields are optional strings, and the time tuple has six integer fields.

## Findings

| source | as written | input that shows it | evidently intended | confidence | as-written member | corrected member |
|---|---|---|---|---|---|---|
| youtube_rss_aggregator.py:241-244 | the root sets `xmlns:dc` by hand while items write `{http://purl.org/dc/elements/1.1/}creator`. ElementTree declares that namespace itself as `dc`, from its registry of well-known prefixes, so the start tag holds `xmlns:dc` twice. `minidom.parseString` rejects the duplicate attribute, the exception ends `main`, and nothing is printed | any run in which at least one source yields an entry | a well-formed document declaring `atom`, `media`, `yt` and `dc` once each | medium, not executed | Serialize.AsWrittenDuplicatesDc | Serialize.CorrectedIsWellFormed |
