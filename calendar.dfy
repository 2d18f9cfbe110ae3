/**
  Calendar arithmetic behind the month loops of both fetchers: year-month
  values and their `YYYY-MM` tokens, proleptic Gregorian dates as Python's
  `datetime` counts them, the `%Y-%m-%d` rendering and parsing of dates,
  and `str.split` on a single separator character.
 */
module Calendar {
  import opened Wrappers
  import opened Decimal

  /** A calendar month; `datetime(year, month, 1)` in the scripts. */
  datatype YearMonth = YearMonth(year: int, month: int)

  predicate ValidMonth(ym: YearMonth) { 1 <= ym.month <= 12 }

  /** Months since January of year 0: consecutive months have consecutive ordinals. */
  function Ordinal(ym: YearMonth): int { ym.year * 12 + (ym.month - 1) }

  lemma OrdinalInjective(a: YearMonth, b: YearMonth)
    requires ValidMonth(a) && ValidMonth(b) && Ordinal(a) == Ordinal(b)
    ensures a == b
  {
  }

  /** `datetime(a.year, a.month, 1) <= datetime(b.year, b.month, 1)`: tuple comparison. */
  predicate NotAfter(a: YearMonth, b: YearMonth)
  {
    a.year < b.year || (a.year == b.year && a.month <= b.month)
  }

  /** Tuple comparison of months agrees with the order of their ordinals. */
  lemma NotAfterIsOrdinalOrder(a: YearMonth, b: YearMonth)
    requires ValidMonth(a) && ValidMonth(b)
    ensures NotAfter(a, b) <==> Ordinal(a) <= Ordinal(b)
  {
  }

  /** The month after `ym`; December rolls over to January of the next year. */
  function Next(ym: YearMonth): (n: YearMonth)
    requires ValidMonth(ym)
    ensures ValidMonth(n) && Ordinal(n) == Ordinal(ym) + 1
  {
    if ym.month == 12 then YearMonth(ym.year + 1, 1) else YearMonth(ym.year, ym.month + 1)
  }

  // ---------------------------------------------------------------- Gregorian dates

  const MinYear := 1
  const MaxYear := 9999

  predicate IsLeapYear(y: int)
  {
    y % 4 == 0 && (y % 100 != 0 || y % 400 == 0)
  }

  /** Length of a month: 31 or 30, and 28 or 29 for February by the leap rule. */
  function DaysInMonth(y: int, m: int): int
    requires 1 <= m <= 12
  {
    if m == 2 then (if IsLeapYear(y) then 29 else 28)
    else if m == 4 || m == 6 || m == 9 || m == 11 then 30
    else 31
  }

  /** Days in the months of `y` before month `m`, from the cumulative table. */
  function DaysBeforeMonth(y: int, m: int): int
    requires 1 <= m <= 12
  {
    var table := [0, 31, 59, 90, 120, 151, 181, 212, 243, 273, 304, 334];
    table[m - 1] + (if m > 2 && IsLeapYear(y) then 1 else 0)
  }

  /** Days in the years before `y`, counted from 1 January of year 1. */
  function DaysBeforeYear(y: int): int
  {
    var p := y - 1;
    p * 365 + p / 4 - p / 100 + p / 400
  }

  datatype Date = Date(year: int, month: int, day: int)

  /** The dates `datetime` can represent. */
  predicate ValidDate(d: Date)
  {
    && MinYear <= d.year <= MaxYear
    && 1 <= d.month <= 12
    && 1 <= d.day <= DaysInMonth(d.year, d.month)
  }

  /** Day number of a date with 1 January of year 1 as day 1 (`date.toordinal()`). */
  function DayNumber(d: Date): int
    requires 1 <= d.month <= 12
  {
    DaysBeforeYear(d.year) + DaysBeforeMonth(d.year, d.month) + d.day
  }

  lemma DivStep(x: int)
    ensures x / 4 - (x - 1) / 4 == (if x % 4 == 0 then 1 else 0)
    ensures x / 100 - (x - 1) / 100 == (if x % 100 == 0 then 1 else 0)
    ensures x / 400 - (x - 1) / 400 == (if x % 400 == 0 then 1 else 0)
  {
  }

  /** Every multiple of 400 is one of 100, and every multiple of 100 one of 4. */
  lemma Multiples(y: int)
    ensures y % 100 == 0 ==> y % 4 == 0
    ensures y % 400 == 0 ==> y % 100 == 0
  {
    if y % 100 == 0 {
      var k := y / 100;
      assert y == 4 * (25 * k);
    }
    if y % 400 == 0 {
      var k := y / 400;
      assert y == 100 * (4 * k);
    }
  }

  /** A year holds 365 days, or 366 in a leap year. */
  lemma YearLength(y: int)
    ensures DaysBeforeYear(y + 1) - DaysBeforeYear(y) == if IsLeapYear(y) then 366 else 365
  {
    DivStep(y);
    Multiples(y);
  }

  /** The first day of a month. */
  function FirstDay(ym: YearMonth): Date { Date(ym.year, ym.month, 1) }

  /** The last day of a month. */
  function LastDay(ym: YearMonth): Date
    requires ValidMonth(ym)
  {
    Date(ym.year, ym.month, DaysInMonth(ym.year, ym.month))
  }

  /**
    `d - timedelta(days=1)`: the valid date whose day number is one less.
    Year 1, 1 January has no predecessor (Python raises OverflowError).
   */
  function PreviousDay(d: Date): (p: Date)
    requires ValidDate(d) && d != Date(MinYear, 1, 1)
    ensures ValidDate(p) && DayNumber(p) == DayNumber(d) - 1
  {
    if d.day > 1 then Date(d.year, d.month, d.day - 1)
    else if d.month > 1 then
      assert DaysBeforeMonth(d.year, d.month) == DaysBeforeMonth(d.year, d.month - 1) + DaysInMonth(d.year, d.month - 1);
      LastDay(YearMonth(d.year, d.month - 1))
    else
      YearLength(d.year - 1);
      LastDay(YearMonth(d.year - 1, 12))
  }

  /** The day before the first of the next month is the last day of this month. */
  lemma DayBeforeNextMonth(ym: YearMonth)
    requires ValidMonth(ym) && MinYear <= ym.year && Next(ym).year <= MaxYear
    ensures ValidDate(FirstDay(Next(ym)))
    ensures PreviousDay(FirstDay(Next(ym))) == LastDay(ym)
  {
  }

  // ---------------------------------------------------------------- text forms

  /** `strftime('%Y-%m')` of the first day of a month, for years of at most four digits. */
  function Token(ym: YearMonth): string
    requires ValidMonth(ym) && 0 <= ym.year
  {
    Padded(ym.year, 4) + "-" + Padded(ym.month, 2)
  }

  /** `strftime('%Y-%m-%d')`. */
  function DateText(d: Date): string
    requires 0 <= d.year && 0 <= d.month && 0 <= d.day
  {
    Padded(d.year, 4) + "-" + Padded(d.month, 2) + "-" + Padded(d.day, 2)
  }

  /**
    `datetime.strptime(s, '%Y-%m-%d')` on the fixed shape `DDDD-DD-DD`;
    None where it raises ValueError (wrong shape or no such date).
   */
  function ParseDate(s: string): (r: Option<Date>)
    ensures r.Some? ==> ValidDate(r.value)
  {
    if |s| == 10 && s[4] == '-' && s[7] == '-'
       && AllDigits(s[..4]) && AllDigits(s[5..7]) && AllDigits(s[8..])
    then
      var d := Date(Value(s[..4]), Value(s[5..7]), Value(s[8..]));
      if ValidDate(d) then Some(d) else None
    else None
  }

  /** `pd.to_datetime` of a `YYYY-MM` string; None (NaT) for anything else. */
  function ParseToken(s: string): (r: Option<YearMonth>)
    ensures r.Some? ==> ValidMonth(r.value) && MinYear <= r.value.year
  {
    if |s| == 7 && s[4] == '-' && AllDigits(s[..4]) && AllDigits(s[5..])
    then
      var ym := YearMonth(Value(s[..4]), Value(s[5..]));
      if ValidMonth(ym) && MinYear <= ym.year then Some(ym) else None
    else None
  }

  /** Rendering a date and parsing it back gives the same date. */
  lemma ParseDateText(d: Date)
    requires ValidDate(d)
    ensures ParseDate(DateText(d)) == Some(d)
  {
    var y, m, dd := Padded(d.year, 4), Padded(d.month, 2), Padded(d.day, 2);
    PaddedLength(d.year, 4);
    PaddedLength(d.month, 2);
    PaddedLength(d.day, 2);
    ParsePadded(d.year, 4);
    ParsePadded(d.month, 2);
    ParsePadded(d.day, 2);
    var s := DateText(d);
    assert s[..4] == y && s[5..7] == m && s[8..] == dd;
  }

  /** A month token parses back to its month. */
  lemma ParseTokenOfToken(ym: YearMonth)
    requires ValidMonth(ym) && MinYear <= ym.year <= MaxYear
    ensures ParseToken(Token(ym)) == Some(ym)
  {
    PaddedLength(ym.year, 4);
    PaddedLength(ym.month, 2);
    ParsePadded(ym.year, 4);
    ParsePadded(ym.month, 2);
    var s := Token(ym);
    assert s[..4] == Padded(ym.year, 4) && s[5..] == Padded(ym.month, 2);
  }

  /** Distinct months have distinct tokens. */
  lemma TokenInjective(a: YearMonth, b: YearMonth)
    requires ValidMonth(a) && MinYear <= a.year <= MaxYear
    requires ValidMonth(b) && MinYear <= b.year <= MaxYear
    requires Token(a) == Token(b)
    ensures a == b
  {
    ParseTokenOfToken(a);
    ParseTokenOfToken(b);
  }

  // ---------------------------------------------------------------- str.split

  /** `s.split(sep)` for a one-character separator. */
  function Split(s: string, sep: char): (parts: seq<string>)
    ensures |parts| >= 1
  {
    if s == [] then [""]
    else
      var rest := Split(s[1..], sep);
      if s[0] == sep then [""] + rest else [[s[0]] + rest[0]] + rest[1..]
  }

  /** A string without the separator splits into itself alone. */
  lemma {:induction false} SplitNone(s: string, sep: char)
    requires sep !in s
    ensures Split(s, sep) == [s]
  {
    if s != [] {
      SplitNone(s[1..], sep);
      assert [s[0]] + s[1..] == s;
    }
  }

  /** The text before the first separator is the first part. */
  lemma {:induction false} SplitAt(a: string, sep: char, b: string)
    requires sep !in a
    ensures Split(a + [sep] + b, sep) == [a] + Split(b, sep)
  {
    var s := a + [sep] + b;
    if a == [] {
      assert s[1..] == b;
    } else {
      assert s[1..] == a[1..] + [sep] + b;
      SplitAt(a[1..], sep, b);
      assert [a[0]] + a[1..] == a;
    }
  }

  lemma NoDash(s: string)
    requires AllDigits(s)
    ensures '-' !in s
  {
    forall i | 0 <= i < |s|
      ensures s[i] != '-'
    {
      assert IsDigit(s[i]);
    }
  }

  /** A month token splits on `-` into its four-digit year and two-digit month. */
  lemma SplitToken(ym: YearMonth)
    requires ValidMonth(ym) && 0 <= ym.year
    ensures Split(Token(ym), '-') == [Padded(ym.year, 4), Padded(ym.month, 2)]
  {
    var y, m := Padded(ym.year, 4), Padded(ym.month, 2);
    NoDash(y);
    NoDash(m);
    SplitAt(y, '-', m);
    SplitNone(m, '-');
  }
}
