/**
 * `main`: collect, sort and cap the entries, build the tree, serialise and re-parse it, and print
 * the document with the declaration replaced by a fixed one.
 *
 * The pretty printer is a library routine whose whitespace layout is not modelled: it is a
 * parameter `pretty` giving the text `toprettyxml` produces for a tree. What is modelled is the
 * parse step in between, which raises on a start tag that repeats an attribute and so ends the
 * program without output, and the string operation on the result.
 */
module Pipeline {

  import opened Wrappers
  import opened Text
  import opened Timestamps
  import opened Entries
  import opened Aggregate
  import opened Feed
  import opened Serialize

  /** The declaration `main` prints in place of the serialiser's. */
  const XmlDeclaration := "<?xml version=\"1.0\" encoding=\"UTF-8\"?>"

  /** Lines 393-400: split into lines, drop the first when it is a declaration, print the fixed
      declaration and then the joined lines, each `print` ending its text with a newline. */
  function ReplaceDeclaration(xml: string): string {
    var lines := Split(xml, '\n');
    var body := if StartsWith(lines[0], "<?xml") then lines[1..] else lines;
    XmlDeclaration + "\n" + Join(body, '\n') + "\n"
  }

  /** The output always opens with the fixed declaration on a line of its own. A document whose
      first line is not a declaration follows it unchanged. Otherwise exactly the first line
      (which holds no newline) is dropped and the rest follows unchanged. */
  lemma ReplaceDeclarationLayout(xml: string)
    ensures StartsWith(ReplaceDeclaration(xml), XmlDeclaration + "\n")
    ensures var first := Split(xml, '\n')[0];
      && '\n' !in first
      && (!StartsWith(first, "<?xml") ==> ReplaceDeclaration(xml) == XmlDeclaration + "\n" + xml + "\n")
      && (StartsWith(first, "<?xml") ==>
            if first == xml then ReplaceDeclaration(xml) == XmlDeclaration + "\n\n"
            else exists rest :: xml == first + "\n" + rest && ReplaceDeclaration(xml) == XmlDeclaration + "\n" + rest + "\n")
  {
    var lines := Split(xml, '\n');
    var out := ReplaceDeclaration(xml);
    assert out[..|XmlDeclaration + "\n"|] == XmlDeclaration + "\n";
    JoinSplit(xml, '\n');
    SplitFirst(xml, '\n');
    if StartsWith(lines[0], "<?xml") && |lines| > 1 {
      var rest := Join(lines[1..], '\n');
      assert xml == lines[0] + "\n" + rest;
      assert out == XmlDeclaration + "\n" + rest + "\n";
    }
  }

  /** `tostring`, `minidom.parseString` and `toprettyxml`: the parser rejects a start tag that
      repeats an attribute and any character XML forbids, and the exception ends the program. */
  function Serialized(root: Element, registry: map<string, string>, pretty: Element -> string): (r: Option<string>)
    ensures r.Some? <==> WellFormedStartTag(root, registry) && CharsValid(root)
    ensures r.Some? ==> r.value == pretty(root)
  {
    if Parses(root, registry) then Some(pretty(root)) else None
  }

  /** What the program prints as written: nothing when serialising fails. */
  function OutputAsWritten(config: Config, resolve: string -> Option<string>, fetch: string -> FetchOutcome,
                           now: Stamp, buildTime: Stamp, pretty: Element -> string): Option<string> {
    var top := Newest(AllSourceEntries(config, resolve, fetch, now), config.totalCap);
    match Serialized(MrssFeed(config, top, Rfc822(buildTime)), WellKnownPrefixes, pretty)
    case None => None
    case Some(xml) => Some(ReplaceDeclaration(xml))
  }

  /** As written, the program prints nothing whenever the feed would have an item. */
  lemma AsWrittenPrintsNothing(config: Config, resolve: string -> Option<string>, fetch: string -> FetchOutcome,
                               now: Stamp, buildTime: Stamp, pretty: Element -> string)
    requires Newest(AllSourceEntries(config, resolve, fetch, now), config.totalCap) != []
    ensures OutputAsWritten(config, resolve, fetch, now, buildTime, pretty).None?
  {
    AsWrittenDuplicatesDc(config, Newest(AllSourceEntries(config, resolve, fetch, now), config.totalCap), Rfc822(buildTime));
  }

  /** The corrected document: the newest entries' feed, with the prefixes registered, pretty
      printed, behind the fixed declaration; nothing when a text holds a character XML forbids. */
  function Output(config: Config, resolve: string -> Option<string>, fetch: string -> FetchOutcome,
                  now: Stamp, buildTime: Stamp, pretty: Element -> string): Option<string> {
    var top := Newest(AllSourceEntries(config, resolve, fetch, now), config.totalCap);
    match Serialized(Corrected(MrssFeed(config, top, Rfc822(buildTime))), IntendedPrefixes, pretty)
    case None => None
    case Some(xml) => Some(ReplaceDeclaration(xml))
  }

  /** `main`, corrected: the entries are collected, sorted newest first and capped, the tree is
      built and serialised, and the document is printed behind the fixed declaration. With the
      namespaces fixed, serialising fails only on a character XML forbids. */
  method GenerateFeed(config: Config, resolve: string -> Option<string>, fetch: string -> FetchOutcome,
                      now: Stamp, buildTime: Stamp, pretty: Element -> string) returns (out: Option<string>)
    ensures out == Output(config, resolve, fetch, now, buildTime, pretty)
    ensures var top := Newest(AllSourceEntries(config, resolve, fetch, now), config.totalCap);
      out.Some? <==> CharsValid(Corrected(MrssFeed(config, top, Rfc822(buildTime))))
    ensures out.Some? ==> StartsWith(out.value, XmlDeclaration + "\n")
  {
    var top := AggregateEntries(config, resolve, fetch, now);
    var rss := BuildMrssFeed(config, top, buildTime);
    var root := Corrected(rss);
    CorrectedIsWellFormed(config, top, Rfc822(buildTime));
    var xml := Serialized(root, IntendedPrefixes, pretty);
    if xml.None? {
      return None;
    }
    ReplaceDeclarationLayout(xml.value);
    out := Some(ReplaceDeclaration(xml.value));
  }
}
