/**
 * `build_mrss_feed`: the element tree of the Media RSS document. The root `rss` element carries
 * the version and four `xmlns:*` attributes and holds one `channel` element: eight header
 * elements followed by one `item` per entry, in entry order.
 *
 * Which elements an item holds follows from four truthiness tests on the entry: its video id,
 * its high-resolution thumbnail, its channel id and its content type. The item description is
 * an HTML fragment whose description and title pieces went through `html.escape`; serialising
 * the tree escapes the whole fragment once more as character data.
 */
module Feed {

  import opened Wrappers
  import opened Text
  import opened Escape
  import opened Timestamps
  import opened Entries

  const AtomNs := "http://www.w3.org/2005/Atom"
  const MediaNs := "http://search.yahoo.com/mrss/"
  const YtNs := "http://www.youtube.com/xml/schemas/2015"
  const DcNs := "http://purl.org/dc/elements/1.1/"

  /** The tags the feed uses. `Title`, `Link` and `Description` serve the channel, the image and
      the item alike, as the plain names do in the document. */
  datatype Tag =
    | Rss | Channel | Title | Link | Description | Language | LastBuildDate | Generator | AtomLink
    | Image | Url | Item | Guid | PubDate | DcCreator
    | MediaGroup | MediaContent | MediaTitle | MediaDescription | MediaThumbnail | MediaPlayer
    | YtVideoId | YtChannelId | Category

  /** The namespace of a tag written `{uri}local` in the source; `None` for plain names. */
  function Namespace(t: Tag): (u: Option<string>)
    ensures u.Some? ==> u.value in [AtomNs, MediaNs, YtNs, DcNs]
  {
    match t
    case AtomLink => Some(AtomNs)
    case DcCreator => Some(DcNs)
    case MediaGroup | MediaContent | MediaTitle | MediaDescription | MediaThumbnail | MediaPlayer => Some(MediaNs)
    case YtVideoId | YtChannelId => Some(YtNs)
    case _ => None
  }

  datatype Attribute = Attribute(key: string, value: string)

  /** An ElementTree element: tag, attributes in the order they were set, text, children. */
  datatype Element = Element(tag: Tag, attributes: seq<Attribute>, text: Option<string>, children: seq<Element>)

  /** `SubElement(parent, tag).text = text`. */
  function Leaf(tag: Tag, text: string): Element {
    Element(tag, [], Some(text), [])
  }

  /** The number of elements in `children` with the given tag. */
  function Count(children: seq<Element>, tag: Tag): nat
    decreases |children|
  {
    if children == [] then 0 else (if children[0].tag == tag then 1 else 0) + Count(children[1..], tag)
  }

  lemma {:induction false} CountConcat(a: seq<Element>, b: seq<Element>, tag: Tag)
    ensures Count(a + b, tag) == Count(a, tag) + Count(b, tag)
    decreases |a|
  {
    if a == [] {
      assert a + b == b;
    } else {
      assert (a + b)[1..] == a[1..] + b;
      CountConcat(a[1..], b, tag);
    }
  }

  lemma {:induction false} CountNone(s: seq<Element>, tag: Tag)
    requires forall i :: 0 <= i < |s| ==> s[i].tag != tag
    ensures Count(s, tag) == 0
    decreases |s|
  {
    if s != [] {
      CountNone(s[1..], tag);
    }
  }

  lemma {:induction false} CountOne(s: seq<Element>, tag: Tag, k: nat)
    requires k < |s| && s[k].tag == tag
    requires forall i :: 0 <= i < |s| && i != k ==> s[i].tag != tag
    ensures Count(s, tag) == 1
    decreases |s|
  {
    if k == 0 {
      CountNone(s[1..], tag);
    } else {
      CountOne(s[1..], tag, k - 1);
    }
  }

  lemma {:induction false} CountAll(s: seq<Element>, tag: Tag)
    requires forall i :: 0 <= i < |s| ==> s[i].tag == tag
    ensures Count(s, tag) == |s|
    decreases |s|
  {
    if s != [] {
      CountAll(s[1..], tag);
    }
  }

  // ---------------------------------------------------------------------------
  // The item description (lines 290-304).
  // ---------------------------------------------------------------------------

  function ImageParagraph(e: Entry): (p: string)
    ensures p != [] && p[0] == '<' && p[|p| - 1] == '>'
  {
    "<p><img src=\"" + e.thumbHigh + "\" alt=\"" + HtmlEscape(e.title) + "\" /></p>"
  }

  function TextParagraph(e: Entry): (p: string)
    ensures p != [] && p[0] == '<' && p[|p| - 1] == '>'
  {
    "<p>" + HtmlEscape(e.description) + "</p>"
  }

  function LinkParagraph(e: Entry, anchorText: string): (p: string)
    ensures p != [] && p[0] == '<' && p[|p| - 1] == '>'
  {
    "<p><a href=\"" + e.link + "\">" + anchorText + "</a></p>"
  }

  /** The f-string before `.strip()`: each paragraph on a line of its own, framed by newlines. */
  function RawDescriptionHtml(e: Entry): string {
    if HasVideoId(e) then
      "\n" + TextParagraph(e) + "\n" + LinkParagraph(e, "Watch on YouTube") + "\n" + ImageParagraph(e) + "\n"
    else
      var thumbnailHtml := if e.thumbHigh != "" then ImageParagraph(e) else "";
      "\n" + thumbnailHtml + "\n" + TextParagraph(e) + "\n" + LinkParagraph(e, "Read more") + "\n"
  }

  function DescriptionHtml(e: Entry): string {
    Strip(RawDescriptionHtml(e))
  }

  /** Paragraphs joined by newlines, led by whitespace and followed by one newline, strip to the
      joined paragraphs. */
  lemma StripParagraphs(left: string, paragraphs: seq<string>)
    requires AllSpace(left)
    requires |paragraphs| >= 1
    requires forall i :: 0 <= i < |paragraphs| ==>
      paragraphs[i] != [] && paragraphs[i][0] == '<' && paragraphs[i][|paragraphs[i]| - 1] == '>'
    ensures Strip(left + Join(paragraphs, '\n') + "\n") == Join(paragraphs, '\n')
  {
    var core := Join(paragraphs, '\n');
    JoinEnds(paragraphs);
    StripFramed(left, core, "\n");
  }

  /** A join of non-empty pieces starts with the first piece's first character and ends with the
      last piece's last character. */
  lemma {:induction false} JoinEnds(paragraphs: seq<string>)
    requires |paragraphs| >= 1
    requires forall i :: 0 <= i < |paragraphs| ==> paragraphs[i] != []
    ensures var j := Join(paragraphs, '\n');
      j != [] && j[0] == paragraphs[0][0]
      && j[|j| - 1] == paragraphs[|paragraphs| - 1][|paragraphs[|paragraphs| - 1]| - 1]
    decreases |paragraphs|
  {
    if |paragraphs| > 1 {
      JoinEnds(paragraphs[1..]);
    }
  }

  /** The paragraphs of the description, in order: a video item has the escaped description, a
      "Watch on YouTube" link and the image; any other item has the image when it has a
      thumbnail, the escaped description and a "Read more" link. */
  function Paragraphs(e: Entry): (ps: seq<string>)
    ensures |ps| >= 2
  {
    if HasVideoId(e) then [TextParagraph(e), LinkParagraph(e, "Watch on YouTube"), ImageParagraph(e)]
    else if e.thumbHigh != "" then [ImageParagraph(e), TextParagraph(e), LinkParagraph(e, "Read more")]
    else [TextParagraph(e), LinkParagraph(e, "Read more")]
  }

  lemma JoinTwo(a: string, b: string)
    ensures Join([a, b], '\n') == a + "\n" + b
  {
    assert [a, b][1..] == [b];
  }

  lemma JoinThree(a: string, b: string, c: string)
    ensures Join([a, b, c], '\n') == a + "\n" + b + "\n" + c
  {
    assert [a, b, c][1..] == [b, c];
    JoinTwo(b, c);
  }

  lemma VideoRaw(e: Entry)
    requires HasVideoId(e)
    ensures RawDescriptionHtml(e) == "\n" + Join(Paragraphs(e), '\n') + "\n"
  {
    JoinThree(TextParagraph(e), LinkParagraph(e, "Watch on YouTube"), ImageParagraph(e));
  }

  lemma ThumbnailRaw(e: Entry)
    requires !HasVideoId(e) && e.thumbHigh != ""
    ensures RawDescriptionHtml(e) == "\n" + Join(Paragraphs(e), '\n') + "\n"
  {
    JoinThree(ImageParagraph(e), TextParagraph(e), LinkParagraph(e, "Read more"));
  }

  lemma PlainRaw(e: Entry)
    requires !HasVideoId(e) && e.thumbHigh == ""
    ensures RawDescriptionHtml(e) == "\n\n" + Join(Paragraphs(e), '\n') + "\n"
  {
    JoinTwo(TextParagraph(e), LinkParagraph(e, "Read more"));
  }

  /** Every paragraph is a tag-delimited piece of markup. */
  lemma ParagraphsFramed(e: Entry)
    ensures forall i :: 0 <= i < |Paragraphs(e)| ==>
      Paragraphs(e)[i] != [] && Paragraphs(e)[i][0] == '<' && Paragraphs(e)[i][|Paragraphs(e)[i]| - 1] == '>'
  {
    var t, i := TextParagraph(e), ImageParagraph(e);
    var w, r := LinkParagraph(e, "Watch on YouTube"), LinkParagraph(e, "Read more");
  }

  /** Stripping removes exactly the framing newlines: the description is its paragraphs, one per
      line, with nothing before the first or after the last (and no empty line where a feed item
      has no thumbnail). */
  lemma DescriptionHtmlLayout(e: Entry)
    ensures DescriptionHtml(e) == Join(Paragraphs(e), '\n')
  {
    ParagraphsFramed(e);
    if HasVideoId(e) {
      VideoRaw(e);
      StripParagraphs("\n", Paragraphs(e));
    } else if e.thumbHigh != "" {
      ThumbnailRaw(e);
      StripParagraphs("\n", Paragraphs(e));
    } else {
      PlainRaw(e);
      StripParagraphs("\n\n", Paragraphs(e));
    }
  }

  /** A link paragraph opens with `<p><a`, which the image paragraph (`<p><img`) and the text
      paragraph (whose escaped text holds no `<`) cannot. */
  lemma LinkIsNotText(e: Entry, anchorText: string)
    ensures LinkParagraph(e, anchorText) != TextParagraph(e)
  {
    var l, t, h := LinkParagraph(e, anchorText), TextParagraph(e), HtmlEscape(e.description);
    assert l[3] == '<' && l[4] == 'a';
    if h == [] {
      assert t[4] == '/';
    } else {
      HtmlEscapeHasNoMarkup(e.description);
      assert t[3] == h[0];
    }
  }

  lemma ImageIsNotText(e: Entry)
    ensures ImageParagraph(e) != TextParagraph(e)
  {
    var i, t, h := ImageParagraph(e), TextParagraph(e), HtmlEscape(e.description);
    assert i[3] == '<' && i[4] == 'i';
    if h == [] {
      assert t[4] == '/';
    } else {
      HtmlEscapeHasNoMarkup(e.description);
      assert t[3] == h[0];
    }
  }

  lemma LinkIsNotImage(e: Entry, anchorText: string)
    ensures LinkParagraph(e, anchorText) != ImageParagraph(e)
  {
    assert LinkParagraph(e, anchorText)[4] == 'a' && ImageParagraph(e)[4] == 'i';
  }

  /** The anchor text can be read back from a link paragraph. */
  lemma LinkInjective(e: Entry, a: string, b: string)
    requires LinkParagraph(e, a) == LinkParagraph(e, b)
    ensures a == b
  {
    var prefix := "<p><a href=\"" + e.link + "\">";
    var l := LinkParagraph(e, a);
    assert l[|prefix|..|l| - 8] == a;
    assert LinkParagraph(e, b)[|prefix|..|l| - 8] == b;
  }

  /** The link paragraph's anchor reads "Watch on YouTube" exactly for a video and "Read more"
      otherwise; the image paragraph is there exactly when the item is a video or has a
      thumbnail; the escaped description is always there. */
  lemma ParagraphChoice(e: Entry)
    ensures LinkParagraph(e, "Watch on YouTube") in Paragraphs(e) <==> HasVideoId(e)
    ensures LinkParagraph(e, "Read more") in Paragraphs(e) <==> !HasVideoId(e)
    ensures ImageParagraph(e) in Paragraphs(e) <==> HasVideoId(e) || e.thumbHigh != ""
    ensures TextParagraph(e) in Paragraphs(e)
  {
    var w, r := LinkParagraph(e, "Watch on YouTube"), LinkParagraph(e, "Read more");
    if w == r {
      LinkInjective(e, "Watch on YouTube", "Read more");
    }
    LinkIsNotText(e, "Watch on YouTube");
    LinkIsNotText(e, "Read more");
    LinkIsNotImage(e, "Watch on YouTube");
    LinkIsNotImage(e, "Read more");
    ImageIsNotText(e);
  }

  /** The image paragraph holds the thumbnail url as its `src`, unescaped, and the escaped title
      as its `alt`. */
  lemma ImageParagraphPieces(e: Entry)
    ensures var p, k := ImageParagraph(e), 13 + |e.thumbHigh|;
      && |p| >= k + 15
      && p[13..k] == e.thumbHigh
      && p[k + 7..|p| - 8] == HtmlEscape(e.title)
  {
    var p, k := ImageParagraph(e), 13 + |e.thumbHigh|;
    assert p == "<p><img src=\"" + e.thumbHigh + "\" alt=\"" + HtmlEscape(e.title) + "\" /></p>";
    assert p[k + 7..|p| - 8] == HtmlEscape(e.title);
  }

  /** A link paragraph holds the link as its `href`, unescaped. */
  lemma LinkParagraphHref(e: Entry, anchorText: string)
    ensures var l := LinkParagraph(e, anchorText);
      |l| >= 12 + |e.link| && l[12..12 + |e.link|] == e.link
  {
    var l := LinkParagraph(e, anchorText);
    assert l == "<p><a href=\"" + e.link + "\">" + anchorText + "</a></p>";
  }

  /** Which pieces of the fragment are escaped: the text paragraph holds the `html.escape`d
      description and the image's `alt` the escaped title, each reading back after one round of
      decoding, while the image's `src` is the thumbnail url and every `href` the link, both
      inserted as they are. Once the tree is serialised, the description is escaped twice and
      takes two rounds of decoding to read back, while the fragment itself reads back after one. */
  lemma DescriptionDoubleEscape(e: Entry)
    ensures var t := TextParagraph(e);
      t[3..|t| - 4] == HtmlEscape(e.description) && Unescape(t[3..|t| - 4]) == e.description
    ensures var p, k := ImageParagraph(e), 13 + |e.thumbHigh|;
      && |p| >= k + 15
      && p[13..k] == e.thumbHigh
      && p[k + 7..|p| - 8] == HtmlEscape(e.title)
      && Unescape(p[k + 7..|p| - 8]) == e.title
    ensures LinkParagraph(e, "Watch on YouTube")[12..12 + |e.link|] == e.link
    ensures LinkParagraph(e, "Read more")[12..12 + |e.link|] == e.link
    ensures Unescape(Unescape(EscapeCharData(HtmlEscape(e.description)))) == e.description
    ensures Unescape(EscapeCharData(DescriptionHtml(e))) == DescriptionHtml(e)
  {
    ImageParagraphPieces(e);
    LinkParagraphHref(e, "Watch on YouTube");
    LinkParagraphHref(e, "Read more");
    HtmlRoundTrip(e.title);
    HtmlRoundTrip(e.description);
    CharDataRoundTrip(HtmlEscape(e.description));
    CharDataRoundTrip(DescriptionHtml(e));
  }

  // ---------------------------------------------------------------------------
  // One item (lines 275-362).
  // ---------------------------------------------------------------------------

  /** The texts an item shows that are computed from the entry rather than copied: the formatted
      publication date, the description HTML and the media description. */
  datatype Rendered = Rendered(pubDate: string, descriptionHtml: string, mediaDescription: string)

  function Render(e: Entry): Rendered {
    Rendered(Rfc822(e.published), DescriptionHtml(e), Take(e.description, 500))
  }

  /** The media description is the description cut to 500 characters: at most 500 long and a
      prefix of it. The publication date has the RFC 822 layout of `Rfc822Layout`. */
  lemma RenderedMediaDescription(e: Entry)
    ensures var m := Render(e).mediaDescription;
      |m| == Min(500, |e.description|) && m == e.description[..|m|]
  {
    var m := Take(e.description, 500);
    assert m == e.description[..|m|];
  }

  /** `media:thumbnail` with url, width and height. */
  function SizedThumbnail(url: string, width: string, height: string): Element {
    Element(MediaThumbnail, [Attribute("url", url), Attribute("width", width), Attribute("height", height)], None, [])
  }

  function MediaContentPart(e: Entry): seq<Element> {
    if HasVideoId(e) then
      [Element(MediaContent, [Attribute("url", e.embedUrl.GetOr("")),
                              Attribute("type", "application/x-shockwave-flash"),
                              Attribute("medium", "video")], None, [])]
    else []
  }

  function MediaTextPart(e: Entry, r: Rendered): seq<Element> {
    [Element(MediaTitle, [Attribute("type", "plain")], Some(e.title), []),
     Element(MediaDescription, [Attribute("type", "plain")], Some(r.mediaDescription), [])]
  }

  function MediaThumbnailPart(e: Entry): seq<Element> {
    if HasVideoId(e) then
      [SizedThumbnail(e.thumbDefault, "120", "90"),
       SizedThumbnail(e.thumbMedium, "320", "180"),
       SizedThumbnail(e.thumbHigh, "480", "360"),
       SizedThumbnail(e.thumbMaxres, "1280", "720")]
    else if e.thumbHigh != "" then [Element(MediaThumbnail, [Attribute("url", e.thumbHigh)], None, [])]
    else []
  }

  function MediaPlayerPart(e: Entry): seq<Element> {
    if HasVideoId(e) then [Element(MediaPlayer, [Attribute("url", e.link)], None, [])] else []
  }

  /** The children of `media:group`, which is only built when the entry has a video id or a
      thumbnail. */
  function MediaGroupChildren(e: Entry, r: Rendered): seq<Element> {
    MediaContentPart(e) + MediaTextPart(e, r) + MediaThumbnailPart(e) + MediaPlayerPart(e)
  }

  /** title, link, guid, pubDate, dc:creator and description: present in every item. */
  function ItemHead(e: Entry, r: Rendered): seq<Element> {
    [Leaf(Title, e.title),
     Leaf(Link, e.link),
     Element(Guid, [Attribute("isPermaLink", "true")], Some(e.link), []),
     Leaf(PubDate, r.pubDate),
     Leaf(DcCreator, e.author),
     Leaf(Description, r.descriptionHtml)]
  }

  function ItemGroup(e: Entry, r: Rendered): seq<Element> {
    if e.thumbHigh != "" || HasVideoId(e) then [Element(MediaGroup, [], None, MediaGroupChildren(e, r))] else []
  }

  function ItemVideoId(e: Entry): seq<Element> {
    if HasVideoId(e) then [Leaf(YtVideoId, e.videoId.value)] else []
  }

  function ItemChannelId(e: Entry): seq<Element> {
    if HasChannelId(e) then [Leaf(YtChannelId, e.channelId.value)] else []
  }

  function ItemCategories(e: Entry): seq<Element> {
    [Leaf(Category, e.channelName)] + (if e.contentType != "" then [Leaf(Category, e.contentType)] else [])
  }

  /** The `item` element for an entry, given its rendered texts. */
  function ItemFrom(e: Entry, r: Rendered): Element {
    Element(Item, [], None, ItemHead(e, r) + ItemGroup(e, r) + ItemVideoId(e) + ItemChannelId(e) + ItemCategories(e))
  }

  function ItemElement(e: Entry): Element {
    ItemFrom(e, Render(e))
  }

  lemma ItemCount(e: Entry, r: Rendered, tag: Tag)
    ensures Count(ItemFrom(e, r).children, tag)
         == Count(ItemHead(e, r), tag) + Count(ItemGroup(e, r), tag) + Count(ItemVideoId(e), tag)
          + Count(ItemChannelId(e), tag) + Count(ItemCategories(e), tag)
  {
    var h, g, v, c, k := ItemHead(e, r), ItemGroup(e, r), ItemVideoId(e), ItemChannelId(e), ItemCategories(e);
    CountConcat(h + g + v + c, k, tag);
    CountConcat(h + g + v, c, tag);
    CountConcat(h + g, v, tag);
    CountConcat(h, g, tag);
  }

  lemma HeadCount(e: Entry, r: Rendered, tag: Tag)
    ensures Count(ItemHead(e, r), tag) == (if tag in {Title, Link, Guid, PubDate, DcCreator, Description} then 1 else 0)
  {
    var h := ItemHead(e, r);
    match tag
    case Title => CountOne(h, tag, 0);
    case Link => CountOne(h, tag, 1);
    case Guid => CountOne(h, tag, 2);
    case PubDate => CountOne(h, tag, 3);
    case DcCreator => CountOne(h, tag, 4);
    case Description => CountOne(h, tag, 5);
    case _ => CountNone(h, tag);
  }

  lemma GroupCount(e: Entry, r: Rendered, tag: Tag)
    ensures Count(ItemGroup(e, r), tag) == (if tag == MediaGroup && (e.thumbHigh != "" || HasVideoId(e)) then 1 else 0)
  {
    CountAll(ItemGroup(e, r), MediaGroup);
    if tag != MediaGroup {
      CountNone(ItemGroup(e, r), tag);
    }
  }

  lemma IdsCount(e: Entry, tag: Tag)
    ensures Count(ItemVideoId(e), tag) == (if tag == YtVideoId && HasVideoId(e) then 1 else 0)
    ensures Count(ItemChannelId(e), tag) == (if tag == YtChannelId && HasChannelId(e) then 1 else 0)
  {
    CountAll(ItemVideoId(e), YtVideoId);
    CountAll(ItemChannelId(e), YtChannelId);
    if tag != YtVideoId {
      CountNone(ItemVideoId(e), tag);
    }
    if tag != YtChannelId {
      CountNone(ItemChannelId(e), tag);
    }
  }

  lemma CategoriesCount(e: Entry, tag: Tag)
    ensures Count(ItemCategories(e), tag) == (if tag == Category then (if e.contentType != "" then 2 else 1) else 0)
  {
    if tag == Category {
      CountAll(ItemCategories(e), tag);
    } else {
      CountNone(ItemCategories(e), tag);
    }
  }

  /** How many children with a given tag an item holds, as the tests in the source decide it: the
      six head elements once each; `media:group` when the entry has a thumbnail or a video id;
      `yt:videoId` and `yt:channelId` when those ids are set; a category for the channel name and
      a second one for a content type. No other tag occurs. */
  function ItemTagCount(e: Entry, tag: Tag): nat {
    match tag
    case Title | Link | Guid | PubDate | DcCreator | Description => 1
    case MediaGroup => if e.thumbHigh != "" || HasVideoId(e) then 1 else 0
    case YtVideoId => if HasVideoId(e) then 1 else 0
    case YtChannelId => if HasChannelId(e) then 1 else 0
    case Category => if e.contentType != "" then 2 else 1
    case _ => 0
  }

  lemma ItemTagsSum(e: Entry, r: Rendered, tag: Tag)
    ensures Count(ItemFrom(e, r).children, tag)
         == (if tag in {Title, Link, Guid, PubDate, DcCreator, Description} then 1 else 0)
          + (if tag == MediaGroup && (e.thumbHigh != "" || HasVideoId(e)) then 1 else 0)
          + (if tag == YtVideoId && HasVideoId(e) then 1 else 0)
          + (if tag == YtChannelId && HasChannelId(e) then 1 else 0)
          + (if tag == Category then (if e.contentType != "" then 2 else 1) else 0)
  {
    ItemCount(e, r, tag);
    HeadCount(e, r, tag);
    GroupCount(e, r, tag);
    IdsCount(e, tag);
    CategoriesCount(e, tag);
  }

  lemma ItemTagCountSum(e: Entry, tag: Tag)
    ensures ItemTagCount(e, tag)
         == (if tag in {Title, Link, Guid, PubDate, DcCreator, Description} then 1 else 0)
          + (if tag == MediaGroup && (e.thumbHigh != "" || HasVideoId(e)) then 1 else 0)
          + (if tag == YtVideoId && HasVideoId(e) then 1 else 0)
          + (if tag == YtChannelId && HasChannelId(e) then 1 else 0)
          + (if tag == Category then (if e.contentType != "" then 2 else 1) else 0)
  {
  }

  /** The item holds each tag exactly as often as `ItemTagCount` says. */
  lemma ItemTags(e: Entry, r: Rendered, tag: Tag)
    ensures Count(ItemFrom(e, r).children, tag) == ItemTagCount(e, tag)
  {
    ItemTagsSum(e, r, tag);
    ItemTagCountSum(e, tag);
  }

  /** The item starts with title, link, guid, pubDate, dc:creator and description: the guid is a
      permalink holding the link, title, link and author are the entry's, the date and the
      description are the rendered texts. The media group, when present, comes next. */
  lemma ItemHeadFields(e: Entry, r: Rendered)
    ensures var c := ItemFrom(e, r).children;
      && |c| >= 7
      && c[0] == Leaf(Title, e.title)
      && c[1] == Leaf(Link, e.link)
      && c[2] == Element(Guid, [Attribute("isPermaLink", "true")], Some(e.link), [])
      && c[3] == Leaf(PubDate, r.pubDate)
      && c[4] == Leaf(DcCreator, e.author)
      && c[5] == Leaf(Description, r.descriptionHtml)
    ensures e.thumbHigh != "" || HasVideoId(e) ==>
      ItemFrom(e, r).children[6] == Element(MediaGroup, [], None, MediaGroupChildren(e, r))
  {
    var c := ItemFrom(e, r).children;
    assert c[..6] == ItemHead(e, r);
    assert c[6..] == ItemGroup(e, r) + ItemVideoId(e) + ItemChannelId(e) + ItemCategories(e);
  }

  lemma ContentPartCount(e: Entry, tag: Tag)
    ensures Count(MediaContentPart(e), tag) == (if tag == MediaContent && HasVideoId(e) then 1 else 0)
  {
    CountAll(MediaContentPart(e), MediaContent);
    if tag != MediaContent {
      CountNone(MediaContentPart(e), tag);
    }
  }

  lemma TextPartCount(e: Entry, r: Rendered, tag: Tag)
    ensures Count(MediaTextPart(e, r), tag) == (if tag == MediaTitle || tag == MediaDescription then 1 else 0)
  {
    var t := MediaTextPart(e, r);
    if tag == MediaTitle {
      CountOne(t, tag, 0);
    } else if tag == MediaDescription {
      CountOne(t, tag, 1);
    } else {
      CountNone(t, tag);
    }
  }

  lemma ThumbnailPartCount(e: Entry, tag: Tag)
    ensures Count(MediaThumbnailPart(e), tag)
         == (if tag != MediaThumbnail then 0 else if HasVideoId(e) then 4 else if e.thumbHigh != "" then 1 else 0)
  {
    if tag == MediaThumbnail {
      CountAll(MediaThumbnailPart(e), tag);
    } else {
      CountNone(MediaThumbnailPart(e), tag);
    }
  }

  lemma PlayerPartCount(e: Entry, tag: Tag)
    ensures Count(MediaPlayerPart(e), tag) == (if tag == MediaPlayer && HasVideoId(e) then 1 else 0)
  {
    CountAll(MediaPlayerPart(e), MediaPlayer);
    if tag != MediaPlayer {
      CountNone(MediaPlayerPart(e), tag);
    }
  }

  /** How many children with a given tag `media:group` holds: for a video, one `media:content`,
      four thumbnails and one player; otherwise one thumbnail when the entry has one; the media
      title and description always, once each. */
  function GroupTagCount(e: Entry, tag: Tag): nat {
    match tag
    case MediaContent | MediaPlayer => if HasVideoId(e) then 1 else 0
    case MediaTitle | MediaDescription => 1
    case MediaThumbnail => if HasVideoId(e) then 4 else if e.thumbHigh != "" then 1 else 0
    case _ => 0
  }

  lemma MediaGroupTagsSum(e: Entry, r: Rendered, tag: Tag)
    ensures Count(MediaGroupChildren(e, r), tag)
         == (if tag == MediaContent && HasVideoId(e) then 1 else 0)
          + (if tag == MediaTitle || tag == MediaDescription then 1 else 0)
          + (if tag != MediaThumbnail then 0 else if HasVideoId(e) then 4 else if e.thumbHigh != "" then 1 else 0)
          + (if tag == MediaPlayer && HasVideoId(e) then 1 else 0)
  {
    var content, text, thumbs, player := MediaContentPart(e), MediaTextPart(e, r), MediaThumbnailPart(e), MediaPlayerPart(e);
    CountConcat(content + text + thumbs, player, tag);
    CountConcat(content + text, thumbs, tag);
    CountConcat(content, text, tag);
    ContentPartCount(e, tag);
    TextPartCount(e, r, tag);
    ThumbnailPartCount(e, tag);
    PlayerPartCount(e, tag);
  }

  lemma GroupTagCountSum(e: Entry, tag: Tag)
    ensures GroupTagCount(e, tag)
         == (if tag == MediaContent && HasVideoId(e) then 1 else 0)
          + (if tag == MediaTitle || tag == MediaDescription then 1 else 0)
          + (if tag != MediaThumbnail then 0 else if HasVideoId(e) then 4 else if e.thumbHigh != "" then 1 else 0)
          + (if tag == MediaPlayer && HasVideoId(e) then 1 else 0)
  {
  }

  /** `media:group` holds each tag exactly as often as `GroupTagCount` says. */
  lemma MediaGroupTags(e: Entry, r: Rendered, tag: Tag)
    ensures Count(MediaGroupChildren(e, r), tag) == GroupTagCount(e, tag)
  {
    MediaGroupTagsSum(e, r, tag);
    GroupTagCountSum(e, tag);
  }

  /** For a video, `media:group` opens with the embed `media:content` (medium "video"), then the
      plain-text media title and description, and its four thumbnails, sized 120x90, 320x180,
      480x360 and 1280x720, carry the four thumbnail urls in that order before the player, which
      points at the link. */
  lemma MediaGroupVideoLayout(e: Entry, r: Rendered)
    requires HasVideoId(e)
    ensures var g := MediaGroupChildren(e, r);
      && |g| == 8
      && g[0].attributes == [Attribute("url", e.embedUrl.GetOr("")),
                             Attribute("type", "application/x-shockwave-flash"),
                             Attribute("medium", "video")]
      && g[1] == Element(MediaTitle, [Attribute("type", "plain")], Some(e.title), [])
      && g[2] == Element(MediaDescription, [Attribute("type", "plain")], Some(r.mediaDescription), [])
      && g[3..7] == [SizedThumbnail(e.thumbDefault, "120", "90"), SizedThumbnail(e.thumbMedium, "320", "180"),
                     SizedThumbnail(e.thumbHigh, "480", "360"), SizedThumbnail(e.thumbMaxres, "1280", "720")]
      && g[7] == Element(MediaPlayer, [Attribute("url", e.link)], None, [])
  {
    var content, text, thumbs, player := MediaContentPart(e), MediaTextPart(e, r), MediaThumbnailPart(e), MediaPlayerPart(e);
    var g := MediaGroupChildren(e, r);
    assert |content| == 1 && |text| == 2 && |thumbs| == 4 && |player| == 1;
    assert g[3..7] == thumbs;
  }

  /** Without a video id, the group of an item with a thumbnail holds the plain-text media title
      and description and one `media:thumbnail` carrying only the thumbnail url. */
  lemma MediaGroupOtherLayout(e: Entry, r: Rendered)
    requires !HasVideoId(e) && e.thumbHigh != ""
    ensures MediaGroupChildren(e, r)
         == [Element(MediaTitle, [Attribute("type", "plain")], Some(e.title), []),
             Element(MediaDescription, [Attribute("type", "plain")], Some(r.mediaDescription), []),
             Element(MediaThumbnail, [Attribute("url", e.thumbHigh)], None, [])]
  {
    assert MediaContentPart(e) == [] && MediaPlayerPart(e) == [];
  }

  /** After the head and the group come `yt:videoId` holding the video id when there is one,
      `yt:channelId` holding the channel id when there is one, a category holding the channel
      name and, when the content type is non-empty, a second category holding it; nothing else. */
  lemma ItemTail(e: Entry, r: Rendered)
    ensures var c, g := ItemFrom(e, r).children, (if e.thumbHigh != "" || HasVideoId(e) then 1 else 0);
      && |c| >= 6 + g
      && c[6 + g..] == (if HasVideoId(e) then [Leaf(YtVideoId, e.videoId.value)] else [])
                     + (if HasChannelId(e) then [Leaf(YtChannelId, e.channelId.value)] else [])
                     + [Leaf(Category, e.channelName)]
                     + (if e.contentType != "" then [Leaf(Category, e.contentType)] else [])
  {
    ItemAfterGroup(e, r);
  }

  lemma ItemAfterGroup(e: Entry, r: Rendered)
    ensures var c := ItemFrom(e, r).children;
      && |c| >= 6 + |ItemGroup(e, r)|
      && c[6 + |ItemGroup(e, r)|..] == ItemVideoId(e) + ItemChannelId(e) + ItemCategories(e)
  {
    var h, g, rest := ItemHead(e, r), ItemGroup(e, r), ItemVideoId(e) + ItemChannelId(e) + ItemCategories(e);
    assert ItemFrom(e, r).children == (h + g) + rest;
    assert |h + g| == 6 + |g|;
  }

  // ---------------------------------------------------------------------------
  // The document (lines 230-272).
  // ---------------------------------------------------------------------------

  /** `rss.set(...)` on the root, in order. */
  const RootAttributes := [
    Attribute("version", "2.0"),
    Attribute("xmlns:atom", AtomNs),
    Attribute("xmlns:media", MediaNs),
    Attribute("xmlns:yt", YtNs),
    Attribute("xmlns:dc", DcNs)]

  const GeneratorName := "Skratch YouTube RSS Aggregator"
  const SelfUrl := "https://skratch.golf/feeds/videos.xml"
  const LogoUrl := "https://storage.googleapis.com/prod-skratch-strapi/logo-black.svg"

  /** The channel's metadata elements, before any item. */
  function ChannelHeader(config: Config, lastBuildDate: string): seq<Element> {
    [Leaf(Title, config.title),
     Leaf(Link, config.link),
     Leaf(Description, config.description),
     Leaf(Language, "en-us"),
     Leaf(LastBuildDate, lastBuildDate),
     Leaf(Generator, GeneratorName),
     Element(AtomLink, [Attribute("href", SelfUrl), Attribute("rel", "self"),
                        Attribute("type", "application/rss+xml")], None, []),
     Element(Image, [], None, [Leaf(Url, LogoUrl), Leaf(Title, config.title), Leaf(Link, config.link)])]
  }

  /** One item per entry, in entry order. */
  function Items(entries: seq<Entry>): (r: seq<Element>)
    ensures |r| == |entries|
    ensures forall i :: 0 <= i < |entries| ==> r[i] == ItemElement(entries[i])
  {
    Map(ItemElement, entries)
  }

  /** The tree `build_mrss_feed` hands to the serialiser. */
  function MrssFeed(config: Config, entries: seq<Entry>, lastBuildDate: string): Element {
    Element(Rss, RootAttributes, None,
            [Element(Channel, [], None, ChannelHeader(config, lastBuildDate) + Items(entries))])
  }

  lemma ItemElementTag(e: Entry)
    ensures ItemElement(e).tag == Item
  {
  }

  lemma ItemsCount(entries: seq<Entry>)
    ensures Count(Items(entries), Item) == |entries|
  {
    forall i | 0 <= i < |entries| ensures Items(entries)[i].tag == Item {
      ItemElementTag(entries[i]);
    }
    CountAll(Items(entries), Item);
  }

  lemma HeaderHasNoItem(config: Config, lastBuildDate: string)
    ensures Count(ChannelHeader(config, lastBuildDate), Item) == 0
  {
    CountNone(ChannelHeader(config, lastBuildDate), Item);
  }

  lemma FeedStructure(config: Config, entries: seq<Entry>, lastBuildDate: string)
    ensures var rss := MrssFeed(config, entries, lastBuildDate);
      && |rss.children| == 1 && rss.children[0].tag == Channel
      && var c := rss.children[0].children;
      && |c| == 8 + |entries|
      && c[8..] == Items(entries)
      && c[3] == Leaf(Language, "en-us")
      && c[4] == Leaf(LastBuildDate, lastBuildDate)
  {
  }

  lemma FeedItemCount(config: Config, entries: seq<Entry>, lastBuildDate: string)
    ensures Count(MrssFeed(config, entries, lastBuildDate).children[0].children, Item) == |entries|
  {
    CountConcat(ChannelHeader(config, lastBuildDate), Items(entries), Item);
    HeaderHasNoItem(config, lastBuildDate);
    ItemsCount(entries);
  }

  /** The document has one channel whose children are the eight header elements, the build date
      among them, followed by exactly one item per entry, in entry order, and no other item. */
  lemma FeedShape(config: Config, entries: seq<Entry>, lastBuildDate: string)
    ensures var rss := MrssFeed(config, entries, lastBuildDate);
      && |rss.children| == 1 && rss.children[0].tag == Channel
      && var c := rss.children[0].children;
      && |c| == 8 + |entries|
      && c[8..] == Items(entries)
      && Count(c, Item) == |entries|
      && c[3] == Leaf(Language, "en-us")
      && c[4] == Leaf(LastBuildDate, lastBuildDate)
  {
    FeedStructure(config, entries, lastBuildDate);
    FeedItemCount(config, entries, lastBuildDate);
  }

  lemma BuildStep(header: seq<Element>, entries: seq<Entry>, i: nat, children: seq<Element>)
    requires i < |entries| && children == header + Items(entries[..i])
    ensures children + [ItemElement(entries[i])] == header + Items(entries[..i + 1])
  {
    MapSnoc(ItemElement, entries, i);
  }

  /** The loop over `entries`, adding one `item` to the channel per entry; the build date is the
      build time in the layout of `pubDate`. */
  method BuildMrssFeed(config: Config, entries: seq<Entry>, buildTime: Stamp) returns (rss: Element)
    ensures rss == MrssFeed(config, entries, Rfc822(buildTime))
  {
    var header := ChannelHeader(config, Rfc822(buildTime));
    var children := header;
    for i := 0 to |entries|
      invariant children == header + Items(entries[..i])
    {
      var item := ItemElement(entries[i]);
      BuildStep(header, entries, i, children);
      children := children + [item];
    }
    assert entries[..|entries|] == entries;
    rss := Element(Rss, RootAttributes, None, [Element(Channel, [], None, children)]);
  }
}
