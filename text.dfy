/**
 * String helpers with the meaning of the Python built-ins the aggregator uses:
 * `str.startswith`, slicing `s[:n]`, `str.split("\n")`, `"\n".join(...)` and `str.strip()`.
 */
module Text {

  function Min(a: nat, b: nat): (m: nat)
    ensures m <= a && m <= b && (m == a || m == b)
  {
    if a <= b then a else b
  }

  /** Python's `s[:n]` for a non-negative `n`: at most `n` leading elements. */
  function Take<T>(s: seq<T>, n: nat): (r: seq<T>)
    ensures |r| == Min(n, |s|)
    ensures forall i :: 0 <= i < |r| ==> r[i] == s[i]
  {
    if n <= |s| then s[..n] else s
  }

  /** A list comprehension `[f(x) for x in s]`. */
  function Map<A, B>(f: A -> B, s: seq<A>): (r: seq<B>)
    ensures |r| == |s|
    ensures forall i :: 0 <= i < |s| ==> r[i] == f(s[i])
  {
    seq(|s|, i requires 0 <= i < |s| => f(s[i]))
  }

  /** Mapping one more element appends its image. */
  lemma MapSnoc<A, B>(f: A -> B, s: seq<A>, i: nat)
    requires i < |s|
    ensures Map(f, s[..i + 1]) == Map(f, s[..i]) + [f(s[i])]
  {
  }

  /** Python's `s.startswith(p)`. */
  predicate StartsWith(s: string, p: string) {
    |p| <= |s| && s[..|p|] == p
  }

  // ---------------------------------------------------------------------------
  // str.split(sep) and sep.join(lines)
  // ---------------------------------------------------------------------------

  /** Python's `s.split(sep)` for a one-character separator: never empty, no piece holds `sep`. */
  function Split(s: string, sep: char): (r: seq<string>)
    ensures |r| >= 1
    ensures forall i :: 0 <= i < |r| ==> sep !in r[i]
    decreases |s|
  {
    if s == [] then [""]
    else
      var rest := Split(s[1..], sep);
      if s[0] == sep then [""] + rest
      else [[s[0]] + rest[0]] + rest[1..]
  }

  /** Python's `sep.join(lines)`. */
  function Join(lines: seq<string>, sep: char): string
    decreases |lines|
  {
    if lines == [] then ""
    else if |lines| == 1 then lines[0]
    else lines[0] + [sep] + Join(lines[1..], sep)
  }

  /** Joining the pieces of a split gives back the original string. */
  lemma {:induction false} JoinSplit(s: string, sep: char)
    ensures Join(Split(s, sep), sep) == s
    decreases |s|
  {
    if s != [] {
      var rest := Split(s[1..], sep);
      JoinSplit(s[1..], sep);
      if s[0] == sep {
        assert Split(s, sep) == [""] + rest;
        assert s == [sep] + s[1..];
      } else {
        var r := Split(s, sep);
        assert r == [[s[0]] + rest[0]] + rest[1..];
        if |rest| == 1 {
          assert Join(r, sep) == [s[0]] + rest[0];
        } else {
          assert Join(rest, sep) == rest[0] + [sep] + Join(rest[1..], sep);
          assert r[1..] == rest[1..];
          assert Join(r, sep) == [s[0]] + rest[0] + [sep] + Join(rest[1..], sep);
        }
        assert s == [s[0]] + s[1..];
      }
    }
  }

  /** A string cut into its first line and the rest: `s == first + [sep] + Join(rest)` when there is a rest. */
  lemma SplitFirst(s: string, sep: char)
    ensures var lines := Split(s, sep);
      (|lines| == 1 ==> s == lines[0]) &&
      (|lines| > 1 ==> s == lines[0] + [sep] + Join(lines[1..], sep))
  {
    JoinSplit(s, sep);
  }

  /** The first piece of a split is a prefix of the string. */
  lemma {:induction false} SplitFirstIsPrefix(s: string, sep: char)
    ensures |Split(s, sep)[0]| <= |s| && s[..|Split(s, sep)[0]|] == Split(s, sep)[0]
    decreases |s|
  {
    if s != [] && s[0] != sep {
      SplitFirstIsPrefix(s[1..], sep);
    }
  }

  // ---------------------------------------------------------------------------
  // str.strip()
  // ---------------------------------------------------------------------------

  /** The characters Python's `str.isspace()` accepts in the ASCII and Latin-1 range. `strip()`
      also removes the Unicode spaces beyond it (U+1680, U+2000 to U+200A, U+2028, U+2029,
      U+202F, U+205F, U+3000); the only text stripped here is a description fragment that
      starts with a newline and `<p>` and ends with `</p>` and a newline, where they cannot
      make a difference. */
  predicate IsSpace(c: char) {
    c == ' ' || c == '\t' || c == '\n' || c == '\r' || c == '\U{0B}' || c == '\U{0C}'
    || ('\U{1C}' <= c <= '\U{1F}') || c == '\U{85}' || c == '\U{A0}'
  }

  function StripLeft(s: string): string
    decreases |s|
  {
    if s != [] && IsSpace(s[0]) then StripLeft(s[1..]) else s
  }

  function StripRight(s: string): string
    decreases |s|
  {
    if s != [] && IsSpace(s[|s| - 1]) then StripRight(s[..|s| - 1]) else s
  }

  /** Python's `s.strip()` with no argument. */
  function Strip(s: string): string {
    StripRight(StripLeft(s))
  }

  predicate AllSpace(s: string) {
    forall i :: 0 <= i < |s| ==> IsSpace(s[i])
  }

  lemma {:induction false} StripLeftFramed(ws: string, core: string)
    requires AllSpace(ws)
    requires core != [] && !IsSpace(core[0])
    ensures StripLeft(ws + core) == core
    decreases |ws|
  {
    if ws == [] {
      assert ws + core == core;
    } else {
      assert (ws + core)[1..] == ws[1..] + core;
      StripLeftFramed(ws[1..], core);
    }
  }

  lemma {:induction false} StripRightFramed(core: string, ws: string)
    requires AllSpace(ws)
    requires core != [] && !IsSpace(core[|core| - 1])
    ensures StripRight(core + ws) == core
    decreases |ws|
  {
    if ws == [] {
      assert core + ws == core;
    } else {
      assert (core + ws)[..|core + ws| - 1] == core + ws[..|ws| - 1];
      StripRightFramed(core, ws[..|ws| - 1]);
    }
  }

  /** Stripping a string framed by whitespace leaves exactly the framed part, when that part
      neither starts nor ends with whitespace. */
  lemma StripFramed(left: string, core: string, right: string)
    requires AllSpace(left) && AllSpace(right)
    requires core != [] && !IsSpace(core[0]) && !IsSpace(core[|core| - 1])
    ensures Strip(left + core + right) == core
  {
    assert left + core + right == left + (core + right);
    StripLeftFramed(left, core + right);
    StripRightFramed(core, right);
  }
}
