/** Python `datetime` values as the scripts use them: a stamp is a (year, month, day, hour, minute,
    second) tuple compared lexicographically, together with the fixed-width text forms the scripts
    parse with `strptime` and print with `strftime`. */
module Calendar {
  import opened Base
  import opened Text

  datatype Stamp = Stamp(year: int, month: int, day: int, hour: int, minute: int, second: int)

  /** The year `strptime` fills in when the format has no `%Y`. */
  const DefaultYear: int := 1900

  predicate IsLeap(y: int)
  {
    y % 4 == 0 && (y % 100 != 0 || y % 400 == 0)
  }

  function DaysInMonth(y: int, m: int): (n: int)
    ensures 28 <= n <= 31
    ensures n == 29 <==> m == 2 && IsLeap(y)
  {
    if m == 2 then (if IsLeap(y) then 29 else 28)
    else if m == 4 || m == 6 || m == 9 || m == 11 then 30
    else 31
  }

  /** A date `datetime` accepts: year 1..9999 and a day that exists in that month of that year. */
  predicate ValidDate(y: int, m: int, d: int)
  {
    1 <= y <= 9999 && 1 <= m <= 12 && 1 <= d <= DaysInMonth(y, m)
  }

  predicate Valid(t: Stamp)
  {
    ValidDate(t.year, t.month, t.day) && 0 <= t.hour < 24 && 0 <= t.minute < 60 && 0 <= t.second < 60
  }

  /** `a < b` on datetimes: lexicographic order of the six fields. */
  predicate Before(a: Stamp, b: Stamp)
  {
    a.year < b.year || (a.year == b.year && MonthBefore(a, b))
  }

  /** The order of the fields below the year. */
  predicate MonthBefore(a: Stamp, b: Stamp)
  {
    a.month < b.month || (a.month == b.month &&
    (a.day < b.day || (a.day == b.day &&
    (a.hour < b.hour || (a.hour == b.hour &&
    (a.minute < b.minute || (a.minute == b.minute && a.second < b.second)))))))
  }

  predicate AtOrBefore(a: Stamp, b: Stamp)
  {
    Before(a, b) || a == b
  }

  lemma BeforeTotal(a: Stamp, b: Stamp)
    ensures Before(a, b) || a == b || Before(b, a)
    ensures !(Before(a, b) && Before(b, a))
  {
  }

  lemma BeforeTransitive(a: Stamp, b: Stamp, c: Stamp)
    requires AtOrBefore(a, b) && AtOrBefore(b, c)
    ensures AtOrBefore(a, c)
  {
  }

  /** `t.replace(year=y)`: fails when the day does not exist in year `y` (29 February). */
  function WithYear(t: Stamp, y: int): (r: Option<Stamp>)
    ensures r.Some? <==> ValidDate(y, t.month, t.day)
    ensures r.Some? ==> r.value == t.(year := y)
    ensures r.Some? && Valid(t) ==> Valid(r.value)
  {
    if ValidDate(y, t.month, t.day) then Some(t.(year := y)) else None
  }

  /** A day valid in the default year 1900, which is not a leap year, is valid in every year. */
  lemma DefaultYearDateValidEverywhere(m: int, d: int, y: int)
    requires ValidDate(DefaultYear, m, d) && 1 <= y <= 9999
    ensures ValidDate(y, m, d)
  {
  }

  // ---------------------------------------------------------------------------------------------
  // Digits

  function Digit(d: int): (c: char)
    requires 0 <= d < 10
    ensures IsDigit(c) && c as int - '0' as int == d
  {
    ('0' as int + d) as char
  }

  function DigitValue(c: char): int
  {
    c as int - '0' as int
  }

  /** Two digits, zero padded (`%02d`). */
  function Pad2(n: int): (s: string)
    requires 0 <= n < 100
    ensures |s| == 2 && AllDigits(s) && Num2(s) == n
  {
    [Digit(n / 10), Digit(n % 10)]
  }

  /** Four digits, zero padded. */
  function Pad4(n: int): (s: string)
    requires 0 <= n < 10000
    ensures |s| == 4 && AllDigits(s) && Num4(s) == n
  {
    var s := Pad2(n / 100) + Pad2(n % 100);
    assert s[..2] == Pad2(n / 100) && s[2..] == Pad2(n % 100);
    s
  }

  function Num2(s: string): int
    requires |s| == 2
  {
    DigitValue(s[0]) * 10 + DigitValue(s[1])
  }

  function Num4(s: string): int
    requires |s| == 4
  {
    Num2(s[..2]) * 100 + Num2(s[2..])
  }

  lemma Pad2Num2(s: string)
    requires |s| == 2 && AllDigits(s)
    ensures 0 <= Num2(s) < 100 && Pad2(Num2(s)) == s
  {
  }

  lemma Pad4Num4(s: string)
    requires |s| == 4 && AllDigits(s)
    ensures 0 <= Num4(s) < 10000 && Pad4(Num4(s)) == s
  {
    var h, l := Num2(s[..2]), Num2(s[2..]);
    Pad2Num2(s[..2]);
    Pad2Num2(s[2..]);
    Hundreds(h, l);
    assert Pad4(Num4(s)) == Pad2(h) + Pad2(l);
    assert s == s[..2] + s[2..];
  }

  /** Splitting a four-digit number at the hundreds gives back its two halves. */
  lemma Hundreds(h: int, l: int)
    requires 0 <= h < 100 && 0 <= l < 100
    ensures (h * 100 + l) / 100 == h && (h * 100 + l) % 100 == l
  {
  }

  /** Zero-padded two-digit numerals compare as strings exactly as the numbers compare. */
  lemma Pad2Order(x: int, y: int)
    requires 0 <= x < 100 && 0 <= y < 100
    ensures LexLess(Pad2(x), Pad2(y)) <==> x < y
  {
    var a, b := Pad2(x), Pad2(y);
    assert a[1..][1..] == [] && b[1..][1..] == [];
    assert !LexLess(a[1..][1..], b[1..][1..]);
    assert LexLess(a[1..], b[1..]) <==> a[1] < b[1];
    assert LexLess(a, b) <==> a[0] < b[0] || (a[0] == b[0] && a[1] < b[1]);
    assert x < y <==> x / 10 < y / 10 || (x / 10 == y / 10 && x % 10 < y % 10);
  }

  // ---------------------------------------------------------------------------------------------
  // "%m%d %H:%M": the MMDD HH:MM form used for the analysis window and every occurrence time

  /** `t.strftime("%m%d %H:%M")`. */
  function FormatShort(t: Stamp): (s: string)
    requires Valid(t)
    ensures |s| == 10 && s[4] == ' ' && s[7] == ':'
  {
    Pad2(t.month) + Pad2(t.day) + " " + Pad2(t.hour) + ":" + Pad2(t.minute)
  }

  /** Whether `s` has the digit layout `DDDD DD:DD`. */
  predicate ShortShape(s: string)
  {
    |s| == 10 && AllDigits(s[0..4]) && s[4] == ' ' && AllDigits(s[5..7]) && s[7] == ':' && AllDigits(s[8..10])
  }

  /** `datetime.strptime(s, "%m%d %H:%M")` with the year `strptime` leaves in (the default year
      1900 unless the caller substitutes another): `None` where Python raises `ValueError`. */
  function ParseShort(s: string, year: int): (r: Option<Stamp>)
    ensures r.Some? ==> Valid(r.value) && r.value.year == year && r.value.second == 0
  {
    if ShortShape(s) then
      var t := Stamp(year, Num2(s[0..2]), Num2(s[2..4]), Num2(s[5..7]), Num2(s[8..10]), 0);
      if Valid(t) then Some(t) else None
    else None
  }

  /** Printing a stamp with whole minutes and parsing it back in the same year gives it back. */
  lemma ParseFormatShort(t: Stamp)
    requires Valid(t) && t.second == 0
    ensures ParseShort(FormatShort(t), t.year) == Some(t)
  {
    var s := FormatShort(t);
    assert s[0..2] == Pad2(t.month) && s[2..4] == Pad2(t.day);
    assert s[5..7] == Pad2(t.hour) && s[8..10] == Pad2(t.minute);
  }

  /** Whatever parses prints back to the same text. */
  lemma FormatParseShort(s: string, year: int)
    requires ParseShort(s, year).Some?
    ensures FormatShort(ParseShort(s, year).value) == s
  {
    assert s[0..4] == s[0..2] + s[2..4];
    assert AllDigits(s[0..2]) && AllDigits(s[2..4]);
    Pad2Num2(s[0..2]);
    Pad2Num2(s[2..4]);
    Pad2Num2(s[5..7]);
    Pad2Num2(s[8..10]);
    assert s == s[0..2] + s[2..4] + " " + s[5..7] + ":" + s[8..10];
  }

  /** Printing a database stamp as MMDD HH:MM and parsing it again keeps month, day, hour and
      minute in the year 1900; 29 February, which 1900 lacks, does not parse. */
  lemma ReparseShort(u: Stamp)
    requires Valid(u)
    ensures ParseShort(FormatShort(u), DefaultYear)
            == if ValidDate(DefaultYear, u.month, u.day) then Some(u.(year := DefaultYear, second := 0))
               else None
  {
    var s := FormatShort(u);
    assert s[0..2] == Pad2(u.month) && s[2..4] == Pad2(u.day);
    assert s[5..7] == Pad2(u.hour) && s[8..10] == Pad2(u.minute);
  }

  /** The order of (month, day, hour, minute), which is all that an MMDD HH:MM string keeps. */
  predicate ShortBefore(a: Stamp, b: Stamp)
  {
    a.month < b.month || (a.month == b.month &&
    (a.day < b.day || (a.day == b.day &&
    (a.hour < b.hour || (a.hour == b.hour && a.minute < b.minute)))))
  }

  /** Fixed-width MMDD HH:MM strings compare as strings in the order of the stamps they print:
      the string minimum and maximum the merge loops take are the earliest and the latest time. */
  lemma {:induction false} ShortOrder(a: Stamp, b: Stamp)
    requires Valid(a) && Valid(b)
    ensures LexLess(FormatShort(a), FormatShort(b)) <==> ShortBefore(a, b)
  {
    var hmA, hmB := Pad2(a.hour) + ":" + Pad2(a.minute), Pad2(b.hour) + ":" + Pad2(b.minute);
    var mA, mB := ":" + Pad2(a.minute), ":" + Pad2(b.minute);
    assert FormatShort(a) == Pad2(a.month) + (Pad2(a.day) + (" " + hmA));
    assert FormatShort(b) == Pad2(b.month) + (Pad2(b.day) + (" " + hmB));
    assert hmA == Pad2(a.hour) + mA && hmB == Pad2(b.hour) + mB;
    LexConcat(":", Pad2(a.minute), ":", Pad2(b.minute));
    LexIrreflexive(":");
    Pad2Order(a.minute, b.minute);
    LexConcat(Pad2(a.hour), mA, Pad2(b.hour), mB);
    Pad2Order(a.hour, b.hour);
    LexConcat(" ", hmA, " ", hmB);
    LexIrreflexive(" ");
    LexConcat(Pad2(a.day), " " + hmA, Pad2(b.day), " " + hmB);
    Pad2Order(a.day, b.day);
    LexConcat(Pad2(a.month), Pad2(a.day) + (" " + hmA), Pad2(b.month), Pad2(b.day) + (" " + hmB));
    Pad2Order(a.month, b.month);
  }

  /** For stamps of one year with whole minutes, the short order is the datetime order. */
  lemma ShortBeforeIsBefore(a: Stamp, b: Stamp)
    requires a.year == b.year && a.second == 0 && b.second == 0
    ensures ShortBefore(a, b) <==> Before(a, b)
  {
  }

  // ---------------------------------------------------------------------------------------------
  // "%m%d %H:%M:%S" (glog lines in the metadata scan) and "%Y-%m-%d %H:%M:%S" (database lines and
  // `str(datetime)`, the text the metadata cache stores)

  /** `t.strftime("%H:%M:%S")`. */
  function FormatClock(t: Stamp): (s: string)
    requires Valid(t)
    ensures |s| == 8
  {
    Pad2(t.hour) + ":" + Pad2(t.minute) + ":" + Pad2(t.second)
  }

  predicate ClockShape(s: string)
  {
    |s| == 8 && AllDigits(s[0..2]) && s[2] == ':' && AllDigits(s[3..5]) && s[5] == ':' && AllDigits(s[6..8])
  }

  /** `datetime.strptime(s, "%m%d %H:%M:%S")` in the default year. */
  function ParseGlogSeconds(s: string): (r: Option<Stamp>)
    ensures r.Some? ==> Valid(r.value) && r.value.year == DefaultYear
  {
    if |s| == 13 && AllDigits(s[0..4]) && s[4] == ' ' && ClockShape(s[5..]) then
      var c := s[5..];
      var t := Stamp(DefaultYear, Num2(s[0..2]), Num2(s[2..4]), Num2(c[0..2]), Num2(c[3..5]), Num2(c[6..8]));
      if Valid(t) then Some(t) else None
    else None
  }

  /** `t.strftime("%Y-%m-%d")`. */
  function FormatDate(t: Stamp): (s: string)
    requires Valid(t)
    ensures |s| == 10
  {
    Pad4(t.year) + "-" + Pad2(t.month) + "-" + Pad2(t.day)
  }

  /** `str(t)` for a datetime without microseconds: `%Y-%m-%d %H:%M:%S`. */
  function FormatFull(t: Stamp): (s: string)
    requires Valid(t)
    ensures |s| == 19 && s[10] == ' ' && s[13] == ':' && s[16] == ':' && IsDigit(s[0])
  {
    FormatDate(t) + " " + FormatClock(t)
  }

  /** `datetime.strptime(s, "%Y-%m-%d %H:%M:%S")`. */
  function ParseFull(s: string): (r: Option<Stamp>)
    ensures r.Some? ==> Valid(r.value)
  {
    if |s| == 19 && AllDigits(s[0..4]) && s[4] == '-' && AllDigits(s[5..7]) && s[7] == '-'
       && AllDigits(s[8..10]) && s[10] == ' ' && ClockShape(s[11..]) then
      var c := s[11..];
      var t := Stamp(Num4(s[0..4]), Num2(s[5..7]), Num2(s[8..10]), Num2(c[0..2]), Num2(c[3..5]), Num2(c[6..8]));
      if Valid(t) then Some(t) else None
    else None
  }

  /** The metadata cache stores stamps with `str` and reads them back with `strptime`: the round
      trip loses nothing. */
  lemma ParseFormatFull(t: Stamp)
    requires Valid(t)
    ensures ParseFull(FormatFull(t)) == Some(t)
  {
    var s := FormatFull(t);
    var c := s[11..];
    assert s[0..4] == Pad4(t.year) && s[5..7] == Pad2(t.month) && s[8..10] == Pad2(t.day);
    assert c == FormatClock(t);
    assert c[0..2] == Pad2(t.hour) && c[3..5] == Pad2(t.minute) && c[6..8] == Pad2(t.second);
  }

  /** `datetime.strptime(s, "%Y-%m-%d %H:%M:%S.%f")`: the fraction is one to six digits and is not
      kept, since every caller drops it. */
  function ParseFullFraction(s: string): (r: Option<Stamp>)
    ensures r.Some? ==> Valid(r.value) && 21 <= |s| <= 26 && s[19] == '.'
  {
    if 21 <= |s| <= 26 && s[19] == '.' && AllDigits(s[20..]) then ParseFull(s[..19]) else None
  }

  // ---------------------------------------------------------------------------------------------
  // "%Y%m%d %H:%M": the start and end arguments with the current year prefixed

  /** `datetime.strptime(s, "%Y%m%d %H:%M")`. */
  function ParseCompact(s: string): (r: Option<Stamp>)
    ensures r.Some? ==> Valid(r.value) && r.value.second == 0
  {
    if |s| == 14 && AllDigits(s[0..4]) then
      match ParseShort(s[4..], Num4(s[0..4]))
      case Some(t) => Some(t)
      case None => None
    else None
  }

  /** Prefixing a four-digit year and parsing is parsing MMDD HH:MM in that year. */
  lemma CompactIsShortInYear(year: int, s: string)
    requires 1000 <= year <= 9999
    ensures ParseCompact(Pad4(year) + s) == ParseShort(s, year)
  {
    var p := Pad4(year) + s;
    assert p[0..4] == Pad4(year) && p[4..] == s;
  }

  // ---------------------------------------------------------------------------------------------
  // RFC 3339 section 5.6 forms used by the node-log analyzer

  /** `t.strftime("%Y-%m-%dT%H:%M:%SZ")`. */
  function FormatIso(t: Stamp): (s: string)
    requires Valid(t)
    ensures |s| == 20 && s[10] == 'T' && s[19] == 'Z'
  {
    FormatDate(t) + "T" + FormatClock(t) + "Z"
  }

  /** `t.strftime("%Y-%m-%dT%H:00:00Z")`: the hour bucket of a stamp. */
  function HourKey(t: Stamp): (s: string)
    requires Valid(t)
    ensures |s| == 20 && s[10] == 'T' && s[13..] == ":00:00Z"
  {
    FormatDate(t) + "T" + Pad2(t.hour) + ":00:00Z"
  }

  /** Two stamps fall in the same hour bucket exactly when they agree on everything above the minute. */
  lemma HourKeyInjective(a: Stamp, b: Stamp)
    requires Valid(a) && Valid(b)
    ensures HourKey(a) == HourKey(b) <==>
            a.year == b.year && a.month == b.month && a.day == b.day && a.hour == b.hour
  {
    if HourKey(a) == HourKey(b) {
      HourKeyFields(a);
      HourKeyFields(b);
    }
  }

  /** Where each field sits in an hour bucket. */
  lemma HourKeyFields(t: Stamp)
    requires Valid(t)
    ensures HourKey(t)[0..4] == Pad4(t.year) && HourKey(t)[5..7] == Pad2(t.month)
    ensures HourKey(t)[8..10] == Pad2(t.day) && HourKey(t)[11..13] == Pad2(t.hour)
  {
    var d := FormatDate(t);
    DateFields(t);
    assert HourKey(t) == d + ("T" + Pad2(t.hour) + ":00:00Z");
    assert HourKey(t)[0..10] == d;
  }

  /** Where each field sits in a date. */
  lemma DateFields(t: Stamp)
    requires Valid(t)
    ensures FormatDate(t)[0..4] == Pad4(t.year) && FormatDate(t)[5..7] == Pad2(t.month) && FormatDate(t)[8..10] == Pad2(t.day)
  {
  }
}
