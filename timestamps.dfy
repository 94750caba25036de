/**
 * Python's naive `datetime` as the aggregator uses it: built from the first six fields of a
 * parsed time tuple (microsecond 0) or read from the clock, compared field by field, and
 * formatted with `strftime("%a, %d %b %Y %H:%M:%S +0000")` in the C locale.
 */
module Timestamps {

  import opened Wrappers

  datatype DateTime = DateTime(year: int, month: int, day: int,
                               hour: int, minute: int, second: int, micro: int)

  predicate IsLeap(y: int) {
    y % 4 == 0 && (y % 100 != 0 || y % 400 == 0)
  }

  function DaysInMonth(y: int, m: int): int
    requires 1 <= m <= 12
  {
    if m == 2 then (if IsLeap(y) then 29 else 28)
    else if m == 4 || m == 6 || m == 9 || m == 11 then 30
    else 31
  }

  /** The field ranges `datetime(...)` accepts; any other tuple makes it raise `ValueError`. */
  predicate ValidDateTime(t: DateTime) {
    && 1 <= t.year <= 9999
    && 1 <= t.month <= 12
    && 1 <= t.day <= DaysInMonth(t.year, t.month)
    && 0 <= t.hour <= 23
    && 0 <= t.minute <= 59
    && 0 <= t.second <= 59
    && 0 <= t.micro <= 999999
  }

  /** A `datetime` object: always within range. */
  type Stamp = t: DateTime | ValidDateTime(t) witness DateTime(1970, 1, 1, 0, 0, 0, 0)

  /** The first six fields of a parsed time tuple (`time.struct_time[:6]`), not yet checked. */
  datatype TimeTuple = TimeTuple(year: int, month: int, day: int, hour: int, minute: int, second: int)

  /** `datetime(*t[:6])`: the datetime with microsecond 0, or `None` where the constructor raises. */
  function FromTuple(t: TimeTuple): (r: Option<Stamp>)
    ensures r.Some? <==> ValidDateTime(DateTime(t.year, t.month, t.day, t.hour, t.minute, t.second, 0))
    ensures r.Some? ==> r.value == DateTime(t.year, t.month, t.day, t.hour, t.minute, t.second, 0)
  {
    var d := DateTime(t.year, t.month, t.day, t.hour, t.minute, t.second, 0);
    if ValidDateTime(d) then Some(d) else None
  }

  // ---------------------------------------------------------------------------
  // Ordering: naive datetimes compare field by field.
  // ---------------------------------------------------------------------------

  /** The fields in comparison order. */
  function Fields(t: DateTime): (f: seq<int>)
    ensures |f| == 7
  {
    [t.year, t.month, t.day, t.hour, t.minute, t.second, t.micro]
  }

  /** Lexicographic `<` on equally long integer sequences. */
  predicate LexLess(a: seq<int>, b: seq<int>)
    requires |a| == |b|
    decreases |a|
  {
    |a| > 0 && (a[0] < b[0] || (a[0] == b[0] && LexLess(a[1..], b[1..])))
  }

  lemma {:induction false} LexLessIrreflexive(a: seq<int>)
    ensures !LexLess(a, a)
    decreases |a|
  {
    if |a| > 0 {
      LexLessIrreflexive(a[1..]);
    }
  }

  lemma {:induction false} LexLessTransitive(a: seq<int>, b: seq<int>, c: seq<int>)
    requires |a| == |b| == |c|
    requires LexLess(a, b) && LexLess(b, c)
    ensures LexLess(a, c)
    decreases |a|
  {
    if a[0] == b[0] == c[0] {
      LexLessTransitive(a[1..], b[1..], c[1..]);
    }
  }

  lemma {:induction false} LexLessTotal(a: seq<int>, b: seq<int>)
    requires |a| == |b|
    ensures a == b || LexLess(a, b) || LexLess(b, a)
    decreases |a|
  {
    if |a| > 0 && a[0] == b[0] {
      LexLessTotal(a[1..], b[1..]);
      if a[1..] == b[1..] {
        assert a == [a[0]] + a[1..] && b == [b[0]] + b[1..];
      }
    }
  }

  /** `a < b` on datetimes: field by field, from the year down to the microsecond. */
  predicate Before(a: DateTime, b: DateTime) {
    LexLess(Fields(a), Fields(b))
  }

  lemma BeforeIrreflexive(a: DateTime)
    ensures !Before(a, a)
  {
    LexLessIrreflexive(Fields(a));
  }

  lemma BeforeTransitive(a: DateTime, b: DateTime, c: DateTime)
    requires Before(a, b) && Before(b, c)
    ensures Before(a, c)
  {
    LexLessTransitive(Fields(a), Fields(b), Fields(c));
  }

  /** Any two datetimes are equal or one is before the other: the order is total. */
  lemma BeforeTotal(a: DateTime, b: DateTime)
    ensures a == b || Before(a, b) || Before(b, a)
  {
    LexLessTotal(Fields(a), Fields(b));
    if Fields(a) == Fields(b) {
      assert Fields(a)[0] == Fields(b)[0] && Fields(a)[6] == Fields(b)[6];
    }
  }

  lemma BeforeAsymmetric(a: DateTime, b: DateTime)
    requires Before(a, b)
    ensures !Before(b, a)
  {
    if Before(b, a) {
      BeforeTransitive(a, b, a);
      BeforeIrreflexive(a);
    }
  }

  // ---------------------------------------------------------------------------
  // strftime("%a, %d %b %Y %H:%M:%S +0000")
  // ---------------------------------------------------------------------------

  function DigitChar(d: nat): (c: char)
    requires d < 10
    ensures '0' <= c <= '9' && DigitValue(c) == d
  {
    ('0' as int + d) as char
  }

  function DigitValue(c: char): int {
    c as int - '0' as int
  }

  /** Decimal numeral without padding (`%Y`, which the C library does not pad below 1000). */
  function Decimal(n: nat): (s: string)
    ensures 1 <= |s|
    ensures n < 10 ==> |s| == 1
    ensures 10 <= n < 100 ==> |s| == 2
    ensures 100 <= n < 1000 ==> |s| == 3
    ensures 1000 <= n <= 9999 ==> |s| == 4
    decreases n
  {
    if n < 10 then [DigitChar(n)] else Decimal(n / 10) + [DigitChar(n % 10)]
  }

  /** Two-digit zero-padded numeral (`%d`, `%H`, `%M`, `%S`). */
  function Pad2(n: nat): (s: string)
    requires n < 100
    ensures |s| == 2
  {
    [DigitChar(n / 10), DigitChar(n % 10)]
  }

  /** Reads a numeral back: the inverse of the formatting. */
  function ParseDecimal(s: string): int
    decreases |s|
  {
    if s == [] then 0 else ParseDecimal(s[..|s| - 1]) * 10 + DigitValue(s[|s| - 1])
  }

  lemma {:induction false} DecimalRoundTrip(n: nat)
    ensures ParseDecimal(Decimal(n)) == n
    decreases n
  {
    if n >= 10 {
      DecimalRoundTrip(n / 10);
      var s := Decimal(n);
      assert s[..|s| - 1] == Decimal(n / 10);
    } else {
      assert Decimal(n)[..0] == [];
    }
  }

  lemma Pad2RoundTrip(n: nat)
    requires n < 100
    ensures ParseDecimal(Pad2(n)) == n
  {
    var s := Pad2(n);
    assert s[..1][..0] == [];
    assert s[..1] == [DigitChar(n / 10)];
    assert ParseDecimal(s[..1]) == n / 10;
    assert DigitValue(s[1]) == n % 10;
  }

  /** Days of the year before the first of month `m` in a common year. */
  function DaysBeforeMonth(m: int): int {
    match m
    case 1 => 0 case 2 => 31 case 3 => 59 case 4 => 90 case 5 => 120 case 6 => 151
    case 7 => 181 case 8 => 212 case 9 => 243 case 10 => 273 case 11 => 304 case _ => 334
  }

  /** Days from 0001-01-01 (ordinal 1) in the proleptic Gregorian calendar, as `date.toordinal()`. */
  function Ordinal(t: Stamp): int {
    var p := t.year - 1;
    var beforeMonth := DaysBeforeMonth(t.month) + (if t.month > 2 && IsLeap(t.year) then 1 else 0);
    p * 365 + p / 4 - p / 100 + p / 400 + beforeMonth + t.day
  }

  /** `date.weekday()`: Monday is 0; 0001-01-01 was a Monday. */
  function Weekday(t: Stamp): (w: nat)
    ensures w < 7
  {
    (Ordinal(t) + 6) % 7
  }

  function WeekdayName(t: Stamp): (s: string)
    ensures |s| == 3
  {
    match Weekday(t)
    case 0 => "Mon" case 1 => "Tue" case 2 => "Wed" case 3 => "Thu"
    case 4 => "Fri" case 5 => "Sat" case _ => "Sun"
  }

  function MonthName(t: Stamp): (s: string)
    ensures |s| == 3
  {
    match t.month
    case 1 => "Jan" case 2 => "Feb" case 3 => "Mar" case 4 => "Apr"
    case 5 => "May" case 6 => "Jun" case 7 => "Jul" case 8 => "Aug"
    case 9 => "Sep" case 10 => "Oct" case 11 => "Nov" case _ => "Dec"
  }

  /** The date layout of section 5 of RFC 822 with a fixed `+0000` zone: "Ddd, DD Mon YYYY HH:MM:SS +0000". */
  function Rfc822(t: Stamp): string {
    WeekdayName(t) + ", " + Pad2(t.day) + " " + MonthName(t) + " " + Decimal(t.year) + " "
    + Pad2(t.hour) + ":" + Pad2(t.minute) + ":" + Pad2(t.second) + " +0000"
  }

  /** For four-digit years the formatted date has the fixed 31-character layout, and each numeric
      field reads back as the datetime's own field; microseconds do not appear. */
  lemma Rfc822Layout(t: Stamp)
    requires t.year >= 1000
    ensures var r := Rfc822(t);
      && |r| == 31
      && r[..3] == WeekdayName(t) && r[3..5] == ", "
      && ParseDecimal(r[5..7]) == t.day && r[7] == ' '
      && r[8..11] == MonthName(t) && r[11] == ' '
      && ParseDecimal(r[12..16]) == t.year && r[16] == ' '
      && ParseDecimal(r[17..19]) == t.hour && r[19] == ':'
      && ParseDecimal(r[20..22]) == t.minute && r[22] == ':'
      && ParseDecimal(r[23..25]) == t.second
      && r[25..] == " +0000"
  {
    var w, d, mo, y := WeekdayName(t), Pad2(t.day), MonthName(t), Decimal(t.year);
    var h, mi, s := Pad2(t.hour), Pad2(t.minute), Pad2(t.second);
    assert Rfc822(t) == w + ", " + d + " " + mo + " " + y + " " + h + ":" + mi + ":" + s + " +0000";
    LayoutSlices(w, d, mo, y, h, mi, s);
    Pad2RoundTrip(t.day);
    Pad2RoundTrip(t.hour);
    Pad2RoundTrip(t.minute);
    Pad2RoundTrip(t.second);
    DecimalRoundTrip(t.year);
  }

  /** Where each field sits in the fixed-width layout, whatever the fields hold. */
  lemma LayoutSlices(w: string, d: string, mo: string, y: string, h: string, mi: string, s: string)
    requires |w| == 3 && |d| == 2 && |mo| == 3 && |y| == 4 && |h| == 2 && |mi| == 2 && |s| == 2
    ensures var r := w + ", " + d + " " + mo + " " + y + " " + h + ":" + mi + ":" + s + " +0000";
      && |r| == 31
      && r[..3] == w && r[3..5] == ", " && r[5..7] == d && r[7] == ' '
      && r[8..11] == mo && r[11] == ' ' && r[12..16] == y && r[16] == ' '
      && r[17..19] == h && r[19] == ':' && r[20..22] == mi && r[22] == ':'
      && r[23..25] == s && r[25..] == " +0000"
  {
  }

  /** 2024-01-03 was a Wednesday. */
  lemma Rfc822Example()
    ensures Rfc822(DateTime(2024, 1, 3, 10, 0, 0, 0)) == "Wed, 03 Jan 2024 10:00:00 +0000"
  {}
}
