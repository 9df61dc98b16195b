/**
 * Calendar dates and UTC instants as the feed generators use them, the
 * field-by-field ordering Python applies to tuples and datetimes, and the
 * scanning of "Month D, YYYY" text shared by the two date parsers.
 */
module Dates {
  import opened Options
  import opened Strings

  datatype Date = Date(year: int, month: int, day: int)

  /** A UTC instant: a calendar date and the microseconds elapsed since its midnight. */
  datatype Instant = Instant(date: Date, micros: nat)

  predicate IsLeapYear(y: int) {
    y % 4 == 0 && (y % 100 != 0 || y % 400 == 0)
  }

  function DaysInMonth(y: int, m: int): (n: int)
    ensures 28 <= n <= 31
  {
    if m == 2 then (if IsLeapYear(y) then 29 else 28)
    else if m == 4 || m == 6 || m == 9 || m == 11 then 30
    else 31
  }

  /** The dates Python's `datetime` accepts: years 1 to 9999 and a day that exists in its month. */
  predicate ValidDate(d: Date) {
    1 <= d.year <= 9999 && 1 <= d.month <= 12 && 1 <= d.day <= DaysInMonth(d.year, d.month)
  }

  /** The date of `datetime.min`. */
  const MinDate: Date := Date(1, 1, 1)

  /** What `strptime(...).replace(tzinfo=UTC)` gives for a date without a time of day. */
  function Midnight(d: Date): Instant {
    Instant(d, 0)
  }

  function DateKey(d: Date): seq<int> {
    [d.year, d.month, d.day]
  }

  function InstantKey(t: Instant): seq<int> {
    DateKey(t.date) + [t.micros]
  }

  /** Python's ordering of tuples (and of datetimes, field by field): the first differing field decides. */
  predicate Precedes(a: seq<int>, b: seq<int>)
    decreases |a|
  {
    |b| > 0 && (|a| == 0 || a[0] < b[0] || (a[0] == b[0] && Precedes(a[1..], b[1..])))
  }

  /** `x` is strictly earlier than `y`. */
  predicate Before(x: Instant, y: Instant) {
    Precedes(InstantKey(x), InstantKey(y))
  }

  lemma {:induction false} PrecedesIrreflexive(a: seq<int>)
    ensures !Precedes(a, a)
    decreases |a|
  {
    if |a| > 0 {
      PrecedesIrreflexive(a[1..]);
    }
  }

  lemma {:induction false} PrecedesTransitive(a: seq<int>, b: seq<int>, c: seq<int>)
    requires Precedes(a, b) && Precedes(b, c)
    ensures Precedes(a, c)
    decreases |a|
  {
    if |a| > 0 && a[0] == b[0] == c[0] {
      PrecedesTransitive(a[1..], b[1..], c[1..]);
    }
  }

  lemma PrecedesAsymmetric(a: seq<int>, b: seq<int>)
    requires Precedes(a, b)
    ensures !Precedes(b, a)
  {
    if Precedes(b, a) {
      PrecedesTransitive(a, b, a);
      PrecedesIrreflexive(a);
    }
  }

  lemma {:induction false} PrecedesTotal(a: seq<int>, b: seq<int>)
    requires a != b
    ensures Precedes(a, b) || Precedes(b, a)
    decreases |a|
  {
    if |a| > 0 && |b| > 0 && a[0] == b[0] {
      assert a == [a[0]] + a[1..] && b == [b[0]] + b[1..];
      PrecedesTotal(a[1..], b[1..]);
    }
  }

  /** Comparing `a + c` with `b + d` for equally long `a`, `b`: the prefixes decide unless they are equal. */
  lemma {:induction false} PrecedesAppend(a: seq<int>, b: seq<int>, c: seq<int>, d: seq<int>)
    requires |a| == |b|
    ensures Precedes(a + c, b + d) <==> Precedes(a, b) || (a == b && Precedes(c, d))
    decreases |a|
  {
    if |a| > 0 {
      assert (a + c)[1..] == a[1..] + c && (b + d)[1..] == b[1..] + d;
      PrecedesAppend(a[1..], b[1..], c, d);
      if a[0] == b[0] && a[1..] == b[1..] {
        assert a == [a[0]] + a[1..] && b == [b[0]] + b[1..];
      }
    } else {
      assert a + c == c && b + d == d;
    }
  }

  /** Instants at midnight are ordered exactly as their dates. */
  lemma MidnightOrder(a: Date, b: Date)
    ensures Before(Midnight(a), Midnight(b)) <==> Precedes(DateKey(a), DateKey(b))
  {
    PrecedesAppend(DateKey(a), DateKey(b), [0], [0]);
    PrecedesIrreflexive([0]);
  }

  // ---------------------------------------------------------------------
  // Month names and the scanning of "Month D, YYYY"

  /** The English month names `%B` and the month regex accept. */
  const MonthNames: seq<string> := ["January", "February", "March", "April", "May", "June", "July",
                                    "August", "September", "October", "November", "December"]

  /** The English abbreviations `%b` accepts. */
  const MonthAbbrevs: seq<string> := ["Jan", "Feb", "Mar", "Apr", "May", "Jun", "Jul", "Aug", "Sep",
                                      "Oct", "Nov", "Dec"]

  /** The first three letters of each month, lower-cased: they tell the months apart. */
  const MonthCodes: seq<string> := ["jan", "feb", "mar", "apr", "may", "jun", "jul", "aug", "sep",
                                    "oct", "nov", "dec"]

  /** `name` occurs at position `j` of `s`; when `caseless`, ASCII letters match regardless of case. */
  predicate NameAt(s: string, j: nat, name: string, caseless: bool) {
    j + |name| <= |s| &&
    if caseless then Lower(s[j..j + |name|]) == Lower(name) else s[j..j + |name|] == name
  }

  /** The first of `names[k..]` that occurs at position `j` of `s`, as a regex alternation tries them. */
  function NameFrom(s: string, j: nat, names: seq<string>, caseless: bool, k: nat): (r: Option<nat>)
    requires k <= |names|
    ensures r.Some? ==> k <= r.value < |names| && NameAt(s, j, names[r.value], caseless)
    ensures r.None? ==> forall i :: k <= i < |names| ==> !NameAt(s, j, names[i], caseless)
    decreases |names| - k
  {
    if k == |names| then None
    else if NameAt(s, j, names[k], caseless) then Some(k)
    else NameFrom(s, j, names, caseless, k + 1)
  }

  lemma MonthCodesFacts()
    ensures |MonthNames| == |MonthAbbrevs| == |MonthCodes| == 12
    ensures forall i :: 0 <= i < 12 ==> |MonthNames[i]| >= 3 && Lower(MonthNames[i][..3]) == MonthCodes[i]
    ensures forall i :: 0 <= i < 12 ==> |MonthAbbrevs[i]| == 3 && Lower(MonthAbbrevs[i]) == MonthCodes[i]
    ensures forall i, k :: 0 <= i < k < 12 ==> MonthCodes[i] != MonthCodes[k]
  {
  }

  /**
   * No month name or abbreviation starts with whitespace; "May" is its own
   * abbreviation and every other full name goes on past three letters.
   */
  lemma MonthShapes()
    ensures forall i :: 0 <= i < 12 ==> MonthNames[i] != [] && !IsSpace(MonthNames[i][0])
    ensures forall i :: 0 <= i < 12 ==> MonthAbbrevs[i] != [] && !IsSpace(MonthAbbrevs[i][0])
    ensures forall i :: 0 <= i < 12 && i != 4 ==> |MonthNames[i]| > 3 && !IsSpace(MonthNames[i][3])
    ensures MonthNames[4] == MonthAbbrevs[4]
  {
  }

  /** At most one month name (or abbreviation) can start at a given position. */
  lemma MonthNameUnique(s: string, j: nat, names: seq<string>, caseless: bool, i: nat, k: nat)
    requires names == MonthNames || names == MonthAbbrevs
    requires i < 12 && k < 12
    requires NameAt(s, j, names[i], caseless) && NameAt(s, j, names[k], caseless)
    ensures i == k
  {
    MonthCodesFacts();
    var w := s[j..j + 3];
    forall n: nat | n < 12 && NameAt(s, j, names[n], caseless) ensures Lower(w) == MonthCodes[n] {
      var name := names[n];
      assert w == s[j..j + |name|][..3];
      if caseless {
        assert Lower(w) == Lower(s[j..j + |name|])[..3];
        assert Lower(name[..3]) == Lower(name)[..3];
      }
    }
  }

  /** When month `m` occurs at `j`, the alternation picks `m`. */
  lemma MonthPicked(s: string, j: nat, names: seq<string>, caseless: bool, m: nat)
    requires names == MonthNames || names == MonthAbbrevs
    requires m < 12 && NameAt(s, j, names[m], caseless)
    ensures NameFrom(s, j, names, caseless, 0) == Some(m)
  {
    MonthCodesFacts();
    var r := NameFrom(s, j, names, caseless, 0);
    MonthNameUnique(s, j, names, caseless, r.value, m);
  }

  predicate IsDigit(c: char) {
    '0' <= c <= '9'
  }

  function DigitChar(n: int): char
    requires 0 <= n <= 9
  {
    ('0' as int + n) as char
  }

  /** The number a run of decimal digits denotes. */
  function DigitsValue(s: string): int {
    if s == [] then 0 else 10 * DigitsValue(s[..|s| - 1]) + (s[|s| - 1] as int - '0' as int)
  }

  function Pow10(w: nat): nat {
    if w == 0 then 1 else 10 * Pow10(w - 1)
  }

  /** `n` written with exactly `w` digits, zero-padded (the `%02d` and `%04d` of the dates shown on the sites). */
  function Digits(n: nat, w: nat): (r: string)
    ensures |r| == w && AllSatisfy(r, IsDigit)
  {
    if w == 0 then [] else Digits(n / 10, w - 1) + [DigitChar(n % 10)]
  }

  /** Reading back the digits of a number that fits gives the number. */
  lemma {:induction false} DigitsRoundTrip(n: nat, w: nat)
    requires n < Pow10(w)
    ensures DigitsValue(Digits(n, w)) == n
  {
    if w > 0 {
      DigitsRoundTrip(n / 10, w - 1);
      var r := Digits(n, w);
      assert r[..|r| - 1] == Digits(n / 10, w - 1);
    }
  }

  /** The number of whitespace characters from position `j` on (the extent of a greedy `\s*`). */
  function SpaceRun(s: string, j: nat): (n: nat)
    requires j <= |s|
    ensures j + n <= |s|
    ensures forall i :: j <= i < j + n ==> IsSpace(s[i])
    ensures j + n == |s| || !IsSpace(s[j + n])
    decreases |s| - j
  {
    if j < |s| && IsSpace(s[j]) then 1 + SpaceRun(s, j + 1) else 0
  }

  /** The day, the year and the position right after the four year digits. */
  datatype DayYear = DayYear(day: int, year: int, end: nat)

  /**
   * `\s+(\d{1,2}),\s+(\d{4})` matched at position `p` of `s`: whitespace, one
   * or two digits followed by a comma, whitespace, four digits.
   */
  function DayYearAt(s: string, p: nat): (r: Option<DayYear>)
    requires p <= |s|
    ensures r.Some? ==> p < r.value.end <= |s|
  {
    var d := p + SpaceRun(s, p);
    var nd := if d + 2 < |s| && IsDigit(s[d]) && IsDigit(s[d + 1]) && s[d + 2] == ',' then 2
              else if d + 1 < |s| && IsDigit(s[d]) && s[d + 1] == ',' then 1
              else 0;
    if d == p || nd == 0 then None
    else
      var y := d + nd + 1;
      var e := y + SpaceRun(s, y);
      if e == y || e + 4 > |s| || !AllSatisfy(s[e..e + 4], IsDigit) then None
      else Some(DayYear(DigitsValue(s[d..d + nd]), DigitsValue(s[e..e + 4]), e + 4))
  }

  /** A month name (one of `names`) at position `j`, then `DayYearAt`: the fields read and where they end. */
  datatype Scan = Scan(date: Date, end: nat)

  function MonthDayYearAt(s: string, j: nat, names: seq<string>, caseless: bool): (r: Option<Scan>)
    requires j <= |s|
    ensures r.Some? ==> j < r.value.end <= |s| && 1 <= r.value.date.month <= |names|
                        && NameAt(s, j, names[r.value.date.month - 1], caseless)
  {
    match NameFrom(s, j, names, caseless, 0)
    case None => None
    case Some(k) =>
      match DayYearAt(s, j + |names[k]|)
      case None => None
      case Some(dy) => Some(Scan(Date(dy.year, k + 1, dy.day), dy.end))
  }

  /** The day, the year and the end of a month-day-year scan are those `DayYearAt` reads right after the month name. */
  lemma MonthDayYearAtFields(s: string, j: nat, names: seq<string>, caseless: bool, m: Scan)
    requires j <= |s|
    requires MonthDayYearAt(s, j, names, caseless) == Some(m)
    ensures 1 <= m.date.month <= |names| && j + |names[m.date.month - 1]| <= |s|
    ensures DayYearAt(s, j + |names[m.date.month - 1]|) == Some(DayYear(m.date.day, m.date.year, m.end))
  {
    var k :| NameFrom(s, j, names, caseless, 0) == Some(k);
    assert k == m.date.month - 1;
  }

  // ---------------------------------------------------------------------
  // The textual forms the two blogs print dates in

  /** The day of the month as printed: one digit below 10, two otherwise. */
  function DayText(day: nat): string {
    if day < 10 then Digits(day, 1) else Digits(day, 2)
  }

  /** "September 24, 2025". */
  function LongForm(d: Date): string
    requires ValidDate(d)
  {
    MonthNames[d.month - 1] + " " + DayText(d.day) + ", " + Digits(d.year, 4)
  }

  /** "Nov 04, 2025". */
  function ShortForm(d: Date): string
    requires ValidDate(d)
  {
    MonthAbbrevs[d.month - 1] + " " + Digits(d.day, 2) + ", " + Digits(d.year, 4)
  }

  lemma FormChars(s: string, p: nat, dt: string, yt: string)
    requires |yt| == 4
    requires p + |dt| + 7 == |s|
    requires s[p..] == " " + dt + ", " + yt
    ensures s[p] == ' ' && s[p + 1..p + 1 + |dt|] == dt && s[p + 1 + |dt|] == ','
    ensures s[p + 2 + |dt|] == ' ' && s[p + 3 + |dt|..p + 7 + |dt|] == yt
  {
    var n := |dt|;
    var g1 := " " + dt;
    var g2 := g1 + ", ";
    assert s[p..] == g2 + yt;
    assert g1[0] == ' ' && g2[0] == ' ' && g2[n + 1] == ',' && g2[n + 2] == ' ';
    assert s[p] == ' ' && s[p + 1 + n] == ',' && s[p + 2 + n] == ' ' by {
      assert s[p..][0] == s[p] && s[p..][1 + n] == s[p + 1 + n] && s[p..][2 + n] == s[p + 2 + n];
    }
    assert s[p + 1..p + 1 + n] == g1[1..] == dt;
    assert s[p + 3 + n..p + 7 + n] == s[p..][n + 3..] == yt;
  }

  /** One space followed by a digit is a whitespace run of length one. */
  lemma SingleSpace(s: string, p: nat)
    requires p + 1 < |s| && s[p] == ' ' && IsDigit(s[p + 1])
    ensures SpaceRun(s, p) == 1
  {
    assert SpaceRun(s, p + 1) == 0;
  }

  /** The digits and the comma after the first whitespace run: how many day digits the scanner takes. */
  lemma DayDigitCount(s: string, d: nat, dt: string)
    requires 1 <= |dt| <= 2 && AllSatisfy(dt, IsDigit)
    requires d + |dt| < |s| && s[d..d + |dt|] == dt && s[d + |dt|] == ','
    ensures |dt| == 2 ==> d + 2 < |s| && IsDigit(s[d]) && IsDigit(s[d + 1]) && s[d + 2] == ','
    ensures |dt| == 1 ==> !(d + 2 < |s| && IsDigit(s[d]) && IsDigit(s[d + 1]) && s[d + 2] == ',')
    ensures |dt| == 1 ==> d + 1 < |s| && IsDigit(s[d]) && s[d + 1] == ','
  {
    assert s[d] == dt[0];
    if |dt| == 2 {
      assert s[d + 1] == dt[1];
    }
  }

  /** The scanner reads " D, YYYY" (one or two day digits) as that day and year. */
  lemma DayYearAtShape(s: string, p: nat, dt: string, yt: string)
    requires 1 <= |dt| <= 2 && |yt| == 4
    requires AllSatisfy(dt, IsDigit) && AllSatisfy(yt, IsDigit)
    requires p + |dt| + 7 <= |s|
    requires s[p] == ' ' && s[p + 1..p + 1 + |dt|] == dt && s[p + 1 + |dt|] == ','
    requires s[p + 2 + |dt|] == ' ' && s[p + 3 + |dt|..p + 7 + |dt|] == yt
    ensures DayYearAt(s, p) == Some(DayYear(DigitsValue(dt), DigitsValue(yt), p + |dt| + 7))
  {
    assert s[p + 1] == dt[0];
    SingleSpace(s, p);
    DayDigitCount(s, p + 1, dt);
    var y := p + |dt| + 2;
    assert s[y + 1] == yt[0];
    SingleSpace(s, y);
  }

  lemma DayDigits(day: nat, dt: string)
    requires 1 <= day <= 31
    requires dt == DayText(day) || dt == Digits(day, 2)
    ensures 1 <= |dt| <= 2 && AllSatisfy(dt, IsDigit) && DigitsValue(dt) == day
  {
    assert Pow10(1) == 10 && Pow10(2) == 100;
    if dt == DayText(day) && day < 10 {
      DigitsRoundTrip(day, 1);
    } else {
      DigitsRoundTrip(day, 2);
    }
  }

  lemma YearDigits(year: nat)
    requires year <= 9999
    ensures |Digits(year, 4)| == 4 && AllSatisfy(Digits(year, 4), IsDigit) && DigitsValue(Digits(year, 4)) == year
  {
    assert Pow10(4) == 10000 by { assert Pow10(2) == 100; }
    DigitsRoundTrip(year, 4);
  }

  /** A month name at the very start of `s` is the one the alternation picks. */
  lemma LeadingNamePicked(s: string, names: seq<string>, caseless: bool, m: nat, rest: string)
    requires names == MonthNames || names == MonthAbbrevs
    requires m < 12 && s == names[m] + rest
    ensures NameFrom(s, 0, names, caseless, 0) == Some(m)
  {
    MonthCodesFacts();
    assert s[0..|names[m]|] == names[m];
    MonthPicked(s, 0, names, caseless, m);
  }

  /** " D, YYYY" at the end of `s` is read as that day and year, ending at the end of `s`. */
  lemma TrailingDayYear(s: string, p: nat, day: nat, dt: string, year: nat)
    requires 1 <= day <= 31 && 1 <= year <= 9999
    requires dt == DayText(day) || dt == Digits(day, 2)
    requires p <= |s| && s[p..] == " " + dt + ", " + Digits(year, 4)
    ensures DayYearAt(s, p) == Some(DayYear(day, year, |s|))
  {
    DayDigits(day, dt);
    YearDigits(year);
    FormChars(s, p, dt, Digits(year, 4));
    DayYearAtShape(s, p, dt, Digits(year, 4));
  }

  /** "Name D, YYYY", for a month name or abbreviation, scans back as that date over the whole text. */
  lemma FormScan(s: string, names: seq<string>, caseless: bool, m: nat, day: nat, dt: string, year: nat)
    requires names == MonthNames || names == MonthAbbrevs
    requires m < 12 && 1 <= day <= 31 && 1 <= year <= 9999
    requires dt == DayText(day) || dt == Digits(day, 2)
    requires s == names[m] + (" " + dt + ", " + Digits(year, 4))
    ensures MonthDayYearAt(s, 0, names, caseless) == Some(Scan(Date(year, m + 1, day), |s|))
  {
    LeadingNamePicked(s, names, caseless, m, " " + dt + ", " + Digits(year, 4));
    assert s[|names[m]|..] == " " + dt + ", " + Digits(year, 4);
    TrailingDayYear(s, |names[m]|, day, dt, year);
  }

  /** A date printed in the long form scans back, from the month name to the last year digit, as that date. */
  lemma LongFormScan(d: Date, caseless: bool)
    requires ValidDate(d)
    ensures MonthDayYearAt(LongForm(d), 0, MonthNames, caseless) == Some(Scan(d, |LongForm(d)|))
  {
    var dt := DayText(d.day);
    assert LongForm(d) == MonthNames[d.month - 1] + (" " + dt + ", " + Digits(d.year, 4));
    FormScan(LongForm(d), MonthNames, caseless, d.month - 1, d.day, dt, d.year);
  }

  /** A date printed in the short form scans back, with abbreviated month names, as that date. */
  lemma ShortFormScan(d: Date, caseless: bool)
    requires ValidDate(d)
    ensures MonthDayYearAt(ShortForm(d), 0, MonthAbbrevs, caseless) == Some(Scan(d, |ShortForm(d)|))
  {
    var dt := Digits(d.day, 2);
    assert ShortForm(d) == MonthAbbrevs[d.month - 1] + (" " + dt + ", " + Digits(d.year, 4));
    FormScan(ShortForm(d), MonthAbbrevs, caseless, d.month - 1, d.day, dt, d.year);
  }
}
