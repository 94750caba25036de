/**
 * The namespace step of ElementTree's `tostring`, which decides what the root's start tag holds.
 * Every tag written `{uri}local` needs a prefix: the one already given to `uri`, else the one the
 * prefix registry knows for it, else `ns<k>` where `k` counts the namespaces seen so far. The
 * declarations `xmlns:<prefix>="uri"` go on the root's start tag, ahead of the attributes the
 * program set there itself. The registry holds ElementTree's well-known prefixes, among them
 * `dc` for the Dublin Core namespace.
 *
 * `build_mrss_feed` sets the four `xmlns:*` attributes by hand and also writes `dc:creator` as a
 * `{uri}creator` tag. As soon as there is one item, the start tag therefore carries `xmlns:dc`
 * twice. That is not well-formed XML, and the parser behind `minidom.parseString` rejects it.
 * The corrected tree registers the four prefixes and leaves the declarations to the serialiser.
 */
module Serialize {

  import opened Wrappers
  import opened Text
  import opened Timestamps
  import opened Entries
  import opened Feed

  /** ElementTree's registry of well-known namespace prefixes. */
  const WellKnownPrefixes: map<string, string> := map[
    "http://www.w3.org/XML/1998/namespace" := "xml",
    "http://www.w3.org/1999/xhtml" := "html",
    "http://www.w3.org/1999/02/22-rdf-syntax-ns#" := "rdf",
    "http://schemas.xmlsoap.org/wsdl/" := "wsdl",
    "http://www.w3.org/2001/XMLSchema" := "xs",
    "http://www.w3.org/2001/XMLSchema-instance" := "xsi",
    DcNs := "dc"]

  /** The registry after `register_namespace` has been called for each of the feed's prefixes. */
  const IntendedPrefixes: map<string, string> :=
    WellKnownPrefixes[AtomNs := "atom"][MediaNs := "media"][YtNs := "yt"]

  /** The namespace URIs of the tags in document order (the element, then its children). */
  function TagUris(e: Element): seq<string>
    decreases e
  {
    (match Namespace(e.tag) case Some(u) => [u] case None => []) + TagUrisOf(e.children)
  }

  function TagUrisOf(es: seq<Element>): seq<string>
    decreases es
  {
    if es == [] then [] else TagUris(es[0]) + TagUrisOf(es[1..])
  }

  /** A namespace declaration on the root's start tag. */
  datatype Declaration = Declaration(uri: string, prefix: string)

  /** The prefix already given to `uri`, if any. */
  function PrefixOf(ds: seq<Declaration>, uri: string): (p: Option<string>)
    ensures p.Some? <==> exists i :: 0 <= i < |ds| && ds[i].uri == uri
    ensures p.Some? ==> exists i :: 0 <= i < |ds| && ds[i] == Declaration(uri, p.value)
    decreases |ds|
  {
    if ds == [] then None
    else if ds[0].uri == uri then Some(ds[0].prefix)
    else PrefixOf(ds[1..], uri)
  }

  /** The loop over the tags that fills the namespace table: a URI seen for the first time gets
      the registry's prefix or `ns<k>`, with `k` the number of namespaces already declared; the
      reserved prefix `xml` is never declared. */
  function Declare(uris: seq<string>, ds: seq<Declaration>, registry: map<string, string>): seq<Declaration>
    decreases |uris|
  {
    if uris == [] then ds
    else
      var u := uris[0];
      if PrefixOf(ds, u).Some? then Declare(uris[1..], ds, registry)
      else
        var p := if u in registry then registry[u] else "ns" + Decimal(|ds|);
        Declare(uris[1..], if p == "xml" then ds else ds + [Declaration(u, p)], registry)
  }

  function Declarations(root: Element, registry: map<string, string>): seq<Declaration> {
    Declare(TagUris(root), [], registry)
  }

  function DeclarationKey(d: Declaration): string {
    "xmlns:" + d.prefix
  }

  function AttributeKey(a: Attribute): string {
    a.key
  }

  /** The attribute names on the root's start tag: the namespace declarations, then the
      attributes set on the root. */
  function StartTagKeys(root: Element, registry: map<string, string>): seq<string> {
    Map(DeclarationKey, Declarations(root, registry)) + Map(AttributeKey, root.attributes)
  }

  predicate Distinct(keys: seq<string>) {
    forall i, j :: 0 <= i < j < |keys| ==> keys[i] != keys[j]
  }

  /** No attribute name occurs twice on the start tag, as well-formed XML requires. */
  predicate WellFormedStartTag(root: Element, registry: map<string, string>) {
    Distinct(StartTagKeys(root, registry))
  }

  /** The characters section 2.2 of the XML 1.0 specification allows in a document. */
  predicate XmlChar(c: char) {
    c == '\t' || c == '\n' || c == '\r' || ('\U{20}' <= c <= '\U{D7FF}')
    || ('\U{E000}' <= c <= '\U{FFFD}') || '\U{10000}' <= c
  }

  predicate XmlText(s: string) {
    forall i :: 0 <= i < |s| ==> XmlChar(s[i])
  }

  /** Every attribute name and value and every text in the tree is made of allowed characters.
      The serialiser escapes only markup characters (and, in attribute values, carriage return,
      line feed and tab), so any other character reaches the parser as it is. */
  predicate CharsValid(e: Element)
    decreases e
  {
    && (forall i :: 0 <= i < |e.attributes| ==> XmlText(e.attributes[i].key) && XmlText(e.attributes[i].value))
    && (e.text.Some? ==> XmlText(e.text.value))
    && (forall i :: 0 <= i < |e.children| ==> CharsValid(e.children[i]))
  }

  /** What `minidom.parseString` accepts of the serialised tree: a start tag without a repeated
      attribute and no character XML forbids. */
  predicate Parses(root: Element, registry: map<string, string>) {
    WellFormedStartTag(root, registry) && CharsValid(root)
  }

  // ---------------------------------------------------------------------------
  // Where the tag URIs come from.
  // ---------------------------------------------------------------------------

  /** The URIs of one child are among its parent's. */
  lemma {:induction false} ChildUris(es: seq<Element>, i: nat, u: string)
    requires i < |es| && u in TagUris(es[i])
    ensures u in TagUrisOf(es)
    decreases i
  {
    if i > 0 {
      ChildUris(es[1..], i - 1, u);
    }
  }

  /** Every URI the feed's tags use is one of its four namespaces. */
  lemma {:induction false} TagUrisAreFeedNamespaces(e: Element)
    ensures forall u :: u in TagUris(e) ==> u in [AtomNs, MediaNs, YtNs, DcNs]
    decreases e
  {
    TagUrisOfAreFeedNamespaces(e.children);
  }

  lemma {:induction false} TagUrisOfAreFeedNamespaces(es: seq<Element>)
    ensures forall u :: u in TagUrisOf(es) ==> u in [AtomNs, MediaNs, YtNs, DcNs]
    decreases es
  {
    if es != [] {
      TagUrisAreFeedNamespaces(es[0]);
      TagUrisOfAreFeedNamespaces(es[1..]);
    }
  }

  lemma ItemFromUsesDc(e: Entry, r: Rendered)
    ensures DcNs in TagUris(ItemFrom(e, r))
  {
    var item := ItemFrom(e, r);
    ItemHeadFields(e, r);
    assert DcNs in TagUris(item.children[4]);
    ChildUris(item.children, 4, DcNs);
  }

  /** Every item contributes the Dublin Core namespace through its `dc:creator`. */
  lemma ItemUsesDc(e: Entry)
    ensures DcNs in TagUris(ItemElement(e))
  {
    ItemFromUsesDc(e, Render(e));
  }

  lemma FeedUsesDc(config: Config, entries: seq<Entry>, lastBuildDate: string)
    requires entries != []
    ensures DcNs in TagUris(MrssFeed(config, entries, lastBuildDate))
  {
    var rss := MrssFeed(config, entries, lastBuildDate);
    FeedShape(config, entries, lastBuildDate);
    var channel := rss.children[0];
    assert channel.children[8] == ItemElement(entries[0]);
    ItemUsesDc(entries[0]);
    ChildUris(channel.children, 8, DcNs);
    ChildUris(rss.children, 0, DcNs);
  }

  // ---------------------------------------------------------------------------
  // What the declaration loop keeps and adds.
  // ---------------------------------------------------------------------------

  lemma {:induction false} PrefixOfAppend(ds: seq<Declaration>, d: Declaration, u: string)
    requires PrefixOf(ds, u).Some?
    ensures PrefixOf(ds + [d], u) == PrefixOf(ds, u)
    decreases |ds|
  {
    if ds[0].uri != u {
      assert (ds + [d])[1..] == ds[1..] + [d];
      PrefixOfAppend(ds[1..], d, u);
    }
  }

  lemma {:induction false} PrefixOfNew(ds: seq<Declaration>, u: string, p: string)
    requires PrefixOf(ds, u).None?
    ensures PrefixOf(ds + [Declaration(u, p)], u) == Some(p)
    decreases |ds|
  {
    if ds != [] {
      assert (ds + [Declaration(u, p)])[1..] == ds[1..] + [Declaration(u, p)];
      PrefixOfNew(ds[1..], u, p);
    }
  }

  /** A URI keeps the prefix it was given first. */
  lemma {:induction false} DeclareKeeps(uris: seq<string>, ds: seq<Declaration>, registry: map<string, string>, u: string)
    requires PrefixOf(ds, u).Some?
    ensures PrefixOf(Declare(uris, ds, registry), u) == PrefixOf(ds, u)
    decreases |uris|
  {
    if uris != [] {
      var v := uris[0];
      if PrefixOf(ds, v).None? {
        var p := if v in registry then registry[v] else "ns" + Decimal(|ds|);
        if p != "xml" {
          PrefixOfAppend(ds, Declaration(v, p), u);
          DeclareKeeps(uris[1..], ds + [Declaration(v, p)], registry, u);
        } else {
          DeclareKeeps(uris[1..], ds, registry, u);
        }
      } else {
        DeclareKeeps(uris[1..], ds, registry, u);
      }
    }
  }

  /** A URI the registry knows under a prefix other than `xml` ends up declared: under its
      registry prefix, unless it already had one. */
  lemma {:induction false} DeclareFinds(uris: seq<string>, ds: seq<Declaration>, registry: map<string, string>, u: string)
    requires u in uris && u in registry && registry[u] != "xml"
    ensures PrefixOf(Declare(uris, ds, registry), u) == (if PrefixOf(ds, u).Some? then PrefixOf(ds, u) else Some(registry[u]))
    decreases |uris|
  {
    if PrefixOf(ds, u).Some? {
      DeclareKeeps(uris, ds, registry, u);
    } else if uris[0] == u {
      PrefixOfNew(ds, u, registry[u]);
      DeclareKeeps(uris[1..], ds + [Declaration(u, registry[u])], registry, u);
    } else {
      var v := uris[0];
      assert u in uris[1..];
      if PrefixOf(ds, v).None? {
        var p := if v in registry then registry[v] else "ns" + Decimal(|ds|);
        if p != "xml" {
          DeclareFinds(uris[1..], ds + [Declaration(v, p)], registry, u);
        } else {
          DeclareFinds(uris[1..], ds, registry, u);
        }
      } else {
        DeclareFinds(uris[1..], ds, registry, u);
      }
    }
  }

  // ---------------------------------------------------------------------------
  // The tree as written: `xmlns:dc` twice.
  // ---------------------------------------------------------------------------

  /** Any feed with at least one item gets a start tag with `xmlns:dc` twice: once from the
      serialiser, which names the Dublin Core namespace `dc` after its registry, and once from the
      attribute set by hand. */
  lemma AsWrittenDuplicatesDc(config: Config, entries: seq<Entry>, lastBuildDate: string)
    requires entries != []
    ensures !WellFormedStartTag(MrssFeed(config, entries, lastBuildDate), WellKnownPrefixes)
  {
    var rss := MrssFeed(config, entries, lastBuildDate);
    FeedUsesDc(config, entries, lastBuildDate);
    DeclareFinds(TagUris(rss), [], WellKnownPrefixes, DcNs);
    var ds := Declarations(rss, WellKnownPrefixes);
    var i :| 0 <= i < |ds| && ds[i] == Declaration(DcNs, "dc");
    var keys := StartTagKeys(rss, WellKnownPrefixes);
    assert keys[i] == "xmlns:dc";
    assert keys[|ds| + 4] == "xmlns:dc";
  }

  // ---------------------------------------------------------------------------
  // The corrected tree.
  // ---------------------------------------------------------------------------

  /** The root with only the `version` attribute; the prefixes come from the registry. */
  function Corrected(rss: Element): (r: Element)
    ensures r.attributes == [Attribute("version", "2.0")]
    ensures r.tag == rss.tag && r.text == rss.text && r.children == rss.children
  {
    rss.(attributes := [Attribute("version", "2.0")])
  }

  lemma IntendedPrefixesOfFeed()
    ensures AtomNs in IntendedPrefixes && IntendedPrefixes[AtomNs] == "atom"
    ensures MediaNs in IntendedPrefixes && IntendedPrefixes[MediaNs] == "media"
    ensures YtNs in IntendedPrefixes && IntendedPrefixes[YtNs] == "yt"
    ensures DcNs in IntendedPrefixes && IntendedPrefixes[DcNs] == "dc"
  {
    assert DcNs != YtNs && DcNs != MediaNs && DcNs != AtomNs;
    assert YtNs != MediaNs && YtNs != AtomNs;
    assert MediaNs != AtomNs;
  }

  /** Each declaration gives a feed namespace its intended prefix, and no URI is declared twice. */
  predicate IntendedDeclarations(ds: seq<Declaration>) {
    && (forall i :: 0 <= i < |ds| ==> ds[i].uri in [AtomNs, MediaNs, YtNs, DcNs])
    && (forall i :: 0 <= i < |ds| ==> ds[i].uri in IntendedPrefixes && ds[i].prefix == IntendedPrefixes[ds[i].uri])
    && (forall i, j :: 0 <= i < j < |ds| ==> ds[i].uri != ds[j].uri)
  }

  lemma {:induction false} DeclareIntended(uris: seq<string>, ds: seq<Declaration>)
    requires forall u :: u in uris ==> u in [AtomNs, MediaNs, YtNs, DcNs]
    requires IntendedDeclarations(ds)
    ensures IntendedDeclarations(Declare(uris, ds, IntendedPrefixes))
    decreases |uris|
  {
    if uris != [] {
      var u := uris[0];
      IntendedPrefixesOfFeed();
      assert u in uris;
      assert u == AtomNs || u == MediaNs || u == YtNs || u == DcNs;
      if PrefixOf(ds, u).None? {
        var p := IntendedPrefixes[u];
        assert p != "xml";
        var ds' := ds + [Declaration(u, p)];
        assert forall i :: 0 <= i < |ds| ==> ds[i].uri != u;
        assert IntendedDeclarations(ds');
        DeclareIntended(uris[1..], ds');
      } else {
        DeclareIntended(uris[1..], ds);
      }
    }
  }

  /** The four intended prefixes are different, so distinct URIs get distinct declarations. */
  lemma IntendedKeysDistinct(ds: seq<Declaration>)
    requires IntendedDeclarations(ds)
    ensures Distinct(Map(DeclarationKey, ds))
  {
    IntendedPrefixesOfFeed();
    var keys := Map(DeclarationKey, ds);
    forall i, j | 0 <= i < j < |keys| ensures keys[i] != keys[j] {
      assert ds[i].prefix != ds[j].prefix;
      assert keys[i][6..] == ds[i].prefix && keys[j][6..] == ds[j].prefix;
    }
  }

  /** With the prefixes registered and the root carrying only `version`, every feed's start tag is
      well-formed, and every namespace it declares has the prefix the program meant for it. */
  lemma CorrectedIsWellFormed(config: Config, entries: seq<Entry>, lastBuildDate: string)
    ensures WellFormedStartTag(Corrected(MrssFeed(config, entries, lastBuildDate)), IntendedPrefixes)
    ensures var ds := Declarations(Corrected(MrssFeed(config, entries, lastBuildDate)), IntendedPrefixes);
      forall i :: 0 <= i < |ds| ==> ds[i].uri in IntendedPrefixes && ds[i].prefix == IntendedPrefixes[ds[i].uri]
  {
    var root := Corrected(MrssFeed(config, entries, lastBuildDate));
    TagUrisAreFeedNamespaces(root);
    DeclareIntended(TagUris(root), []);
    var ds := Declarations(root, IntendedPrefixes);
    IntendedKeysDistinct(ds);
    var keys := StartTagKeys(root, IntendedPrefixes);
    assert keys == Map(DeclarationKey, ds) + ["version"];
    forall i | 0 <= i < |ds| ensures keys[i] != "version" {
      assert keys[i][0] == 'x';
    }
  }
}
