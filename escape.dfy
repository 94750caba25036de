/**
 * The two escapes the feed goes through: Python's `html.escape` (quote=True), applied to the
 * description and title pieces of the item description HTML, and the XML escape of character
 * data and attribute values (section 2.4 of the XML 1.0 specification) that serialising the
 * element tree applies to every text node and attribute value.
 *
 * `html.escape` replaces `&` first and then `<`, `>`, `"`, `'`; since no later replacement
 * produces a bare `&`, that is the same as mapping each character independently.
 */
module Escape {

  function HtmlEscapeChar(c: char): string {
    match c
    case '&' => "&amp;"
    case '<' => "&lt;"
    case '>' => "&gt;"
    case '"' => "&quot;"
    case '\'' => "&#x27;"
    case _ => [c]
  }

  /** Python's `html.escape(s)`. */
  function HtmlEscape(s: string): string
    decreases |s|
  {
    if s == [] then "" else HtmlEscapeChar(s[0]) + HtmlEscape(s[1..])
  }

  function CharDataEscapeChar(c: char): string {
    match c
    case '&' => "&amp;"
    case '<' => "&lt;"
    case '>' => "&gt;"
    case _ => [c]
  }

  /** Escape of a text node's content as character data. */
  function EscapeCharData(s: string): string
    decreases |s|
  {
    if s == [] then "" else CharDataEscapeChar(s[0]) + EscapeCharData(s[1..])
  }

  function AttributeEscapeChar(c: char): string {
    match c
    case '&' => "&amp;"
    case '<' => "&lt;"
    case '>' => "&gt;"
    case '"' => "&quot;"
    case '\r' => "&#13;"
    case '\n' => "&#10;"
    case '\t' => "&#09;"
    case _ => [c]
  }

  /** Escape of a double-quoted attribute value: the markup characters and, so that a reader's
      attribute-value normalisation keeps them, carriage return, line feed and tab as character
      references. */
  function EscapeAttribute(s: string): string
    decreases |s|
  {
    if s == [] then "" else AttributeEscapeChar(s[0]) + EscapeAttribute(s[1..])
  }

  // ---------------------------------------------------------------------------
  // Decoding the entity and character references these escapes produce: what a reader of the feed does.
  // ---------------------------------------------------------------------------

  /** Length of the entity reference `s` starts with, or 0, and the character it stands for. */
  function EntityAt(s: string): (nat, char) {
    if |s| >= 5 && s[0] == '&' && s[1] == 'a' && s[2] == 'm' && s[3] == 'p' && s[4] == ';' then (5, '&')
    else if |s| >= 4 && s[0] == '&' && s[1] == 'l' && s[2] == 't' && s[3] == ';' then (4, '<')
    else if |s| >= 4 && s[0] == '&' && s[1] == 'g' && s[2] == 't' && s[3] == ';' then (4, '>')
    else if |s| >= 6 && s[0] == '&' && s[1] == 'q' && s[2] == 'u' && s[3] == 'o' && s[4] == 't' && s[5] == ';' then (6, '"')
    else if |s| >= 6 && s[0] == '&' && s[1] == '#' && s[2] == 'x' && s[3] == '2' && s[4] == '7' && s[5] == ';' then (6, '\'')
    else if |s| >= 5 && s[0] == '&' && s[1] == '#' && s[2] == '1' && s[3] == '3' && s[4] == ';' then (5, '\r')
    else if |s| >= 5 && s[0] == '&' && s[1] == '#' && s[2] == '1' && s[3] == '0' && s[4] == ';' then (5, '\n')
    else if |s| >= 5 && s[0] == '&' && s[1] == '#' && s[2] == '0' && s[3] == '9' && s[4] == ';' then (5, '\t')
    else (0, ' ')
  }

  /** Replace every entity reference by the character it stands for. */
  function Unescape(s: string): string
    decreases |s|
  {
    if s == [] then ""
    else
      var (n, c) := EntityAt(s);
      if 0 < n <= |s| then [c] + Unescape(s[n..]) else [s[0]] + Unescape(s[1..])
  }

  lemma UnescapeEntity(entity: string, c: char, rest: string)
    requires 0 < |entity| && EntityAt(entity + rest) == (|entity|, c)
    ensures Unescape(entity + rest) == [c] + Unescape(rest)
  {
    assert (entity + rest)[|entity|..] == rest;
  }

  lemma UnescapeAmp(rest: string)
    ensures Unescape("&amp;" + rest) == "&" + Unescape(rest)
  {
    UnescapeEntity("&amp;", '&', rest);
  }

  lemma UnescapeLt(rest: string)
    ensures Unescape("&lt;" + rest) == "<" + Unescape(rest)
  {
    UnescapeEntity("&lt;", '<', rest);
  }

  lemma UnescapeGt(rest: string)
    ensures Unescape("&gt;" + rest) == ">" + Unescape(rest)
  {
    UnescapeEntity("&gt;", '>', rest);
  }

  lemma UnescapeQuot(rest: string)
    ensures Unescape("&quot;" + rest) == "\"" + Unescape(rest)
  {
    UnescapeEntity("&quot;", '"', rest);
  }

  lemma UnescapeApos(rest: string)
    ensures Unescape("&#x27;" + rest) == "'" + Unescape(rest)
  {
    UnescapeEntity("&#x27;", '\'', rest);
  }

  lemma UnescapeCr(rest: string)
    ensures Unescape("&#13;" + rest) == "\r" + Unescape(rest)
  {
    UnescapeEntity("&#13;", '\r', rest);
  }

  lemma UnescapeLf(rest: string)
    ensures Unescape("&#10;" + rest) == "\n" + Unescape(rest)
  {
    UnescapeEntity("&#10;", '\n', rest);
  }

  lemma UnescapeTab(rest: string)
    ensures Unescape("&#09;" + rest) == "\t" + Unescape(rest)
  {
    UnescapeEntity("&#09;", '\t', rest);
  }

  /** A character other than `&` never starts an entity reference. */
  lemma UnescapePlain(c: char, rest: string)
    requires c != '&'
    ensures Unescape([c] + rest) == [c] + Unescape(rest)
  {
    assert ([c] + rest)[1..] == rest;
  }

  /** Decoding one escaped character in front of any text yields that character in front of
      the decoded text. */
  lemma UnescapeChar(e: string, c: char, rest: string)
    requires e == HtmlEscapeChar(c) || e == CharDataEscapeChar(c) || e == AttributeEscapeChar(c)
    ensures Unescape(e + rest) == [c] + Unescape(rest)
  {
    if c == '&' {
      UnescapeAmp(rest);
    } else if c == '<' {
      UnescapeLt(rest);
    } else if c == '>' {
      UnescapeGt(rest);
    } else if c == '"' && e != [c] {
      UnescapeQuot(rest);
    } else if c == '\'' && e != [c] {
      UnescapeApos(rest);
    } else if c == '\r' && e != [c] {
      UnescapeCr(rest);
    } else if c == '\n' && e != [c] {
      UnescapeLf(rest);
    } else if c == '\t' && e != [c] {
      UnescapeTab(rest);
    } else {
      UnescapePlain(c, rest);
    }
  }

  lemma {:induction false} HtmlRoundTrip(s: string)
    ensures Unescape(HtmlEscape(s)) == s
    decreases |s|
  {
    if s != [] {
      HtmlRoundTrip(s[1..]);
      UnescapeChar(HtmlEscapeChar(s[0]), s[0], HtmlEscape(s[1..]));
      assert s == [s[0]] + s[1..];
    }
  }

  lemma {:induction false} CharDataRoundTrip(s: string)
    ensures Unescape(EscapeCharData(s)) == s
    decreases |s|
  {
    if s != [] {
      CharDataRoundTrip(s[1..]);
      UnescapeChar(CharDataEscapeChar(s[0]), s[0], EscapeCharData(s[1..]));
      assert s == [s[0]] + s[1..];
    }
  }

  lemma {:induction false} AttributeRoundTrip(s: string)
    ensures Unescape(EscapeAttribute(s)) == s
    decreases |s|
  {
    if s != [] {
      AttributeRoundTrip(s[1..]);
      UnescapeChar(AttributeEscapeChar(s[0]), s[0], EscapeAttribute(s[1..]));
      assert s == [s[0]] + s[1..];
    }
  }

  /** `html.escape` output holds no markup character: no `<`, `>`, `"` or `'`. */
  lemma {:induction false} HtmlEscapeHasNoMarkup(s: string)
    ensures forall i :: 0 <= i < |HtmlEscape(s)| ==> HtmlEscape(s)[i] !in "<>\"'"
    decreases |s|
  {
    if s != [] {
      HtmlEscapeHasNoMarkup(s[1..]);
      var h, t := HtmlEscapeChar(s[0]), HtmlEscape(s[1..]);
      forall i | 0 <= i < |h + t| ensures (h + t)[i] !in "<>\"'" {
        if i >= |h| { assert (h + t)[i] == t[i - |h|]; }
      }
    }
  }

  /** Escaped character data holds no `<` and no `>`: a text node's content cannot open or
      close an element, whatever markup it carries. */
  lemma {:induction false} CharDataHasNoMarkup(s: string)
    ensures forall i :: 0 <= i < |EscapeCharData(s)| ==> EscapeCharData(s)[i] != '<' && EscapeCharData(s)[i] != '>'
    decreases |s|
  {
    if s != [] {
      CharDataHasNoMarkup(s[1..]);
      var h, t := CharDataEscapeChar(s[0]), EscapeCharData(s[1..]);
      forall i | 0 <= i < |h + t| ensures (h + t)[i] != '<' && (h + t)[i] != '>' {
        if i >= |h| { assert (h + t)[i] == t[i - |h|]; }
      }
    }
  }

  /** The escapes leave a string without special characters unchanged; the attribute escape
      also needs it to hold no carriage return, line feed or tab. */
  lemma {:induction false} EscapePlain(s: string)
    requires forall i :: 0 <= i < |s| ==> s[i] !in "&<>\"'"
    ensures HtmlEscape(s) == s && EscapeCharData(s) == s
    ensures (forall i :: 0 <= i < |s| ==> s[i] !in "\r\n\t") ==> EscapeAttribute(s) == s
    decreases |s|
  {
    if s != [] {
      EscapePlain(s[1..]);
      assert s == [s[0]] + s[1..];
    }
  }

  /** The escapes distribute over concatenation. */
  lemma {:induction false} EscapeConcat(a: string, b: string)
    ensures HtmlEscape(a + b) == HtmlEscape(a) + HtmlEscape(b)
    ensures EscapeCharData(a + b) == EscapeCharData(a) + EscapeCharData(b)
    decreases |a|
  {
    if a != [] {
      assert (a + b)[1..] == a[1..] + b;
      EscapeConcat(a[1..], b);
    } else {
      assert a + b == b;
    }
  }
}
