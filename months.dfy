/**
  The month window both fetchers iterate over: every calendar month from
  January 2010 up to and including the month the script runs in, as
  `YYYY-MM` tokens. The two scripts carry identical copies of this loop.
 */
module Months {
  import opened Calendar
  import opened Decimal

  /** `datetime(2010, 1, 1)`: the first month fetched. */
  const Start := YearMonth(2010, 1)

  /**
    The months the loop can be asked to reach. The end month comes from
    `datetime.now()`, so its year is at most 9999; in December 9999 the
    rollover `replace(year=10000)` raises and the script dies.
   */
  predicate ReachableEnd(end: YearMonth)
  {
    ValidMonth(end) && end.year <= MaxYear && end != YearMonth(MaxYear, 12)
  }

  /** Number of months in the window ending at `end` (none if `end` precedes 2010-01). */
  function Count(end: YearMonth): nat
  {
    if Ordinal(end) < Ordinal(Start) then 0 else Ordinal(end) - Ordinal(Start) + 1
  }

  /** The i-th month of the window: 2010-01, then each month the calendar successor of the one before. */
  function MonthAt(i: nat): (ym: YearMonth)
    ensures ValidMonth(ym) && Start.year <= ym.year
    ensures Ordinal(ym) == Ordinal(Start) + i
  {
    if i == 0 then Start else Next(MonthAt(i - 1))
  }

  /** `f` of each of the first `n` months of the window, in order. */
  function MapMonths<T>(n: nat, f: YearMonth --> T): (r: seq<T>)
    requires forall ym :: ValidMonth(ym) && Start.year <= ym.year ==> f.requires(ym)
    ensures |r| == n
  {
    if n == 0 then [] else MapMonths(n - 1, f) + [f(MonthAt(n - 1))]
  }

  /** Entry `i` of the list is `f` of the i-th month. */
  lemma {:induction false} MapMonthsAt<T>(n: nat, f: YearMonth --> T, i: nat)
    requires forall ym :: ValidMonth(ym) && Start.year <= ym.year ==> f.requires(ym)
    requires i < n
    ensures MapMonths(n, f)[i] == f(MonthAt(i))
  {
    if i < n - 1 {
      MapMonthsAt(n - 1, f, i);
    }
  }

  /** The tokens of the first `n` months of the window, in order. */
  function Tokens(n: nat): (ts: seq<string>)
    ensures |ts| == n
    ensures forall i :: 0 <= i < n ==> ts[i] == Token(MonthAt(i))
  {
    if n == 0 then [] else Tokens(n - 1) + [Token(MonthAt(n - 1))]
  }

  /** The tokens of the window ending at `end`, in order. */
  function MonthTokens(end: YearMonth): seq<string>
  {
    Tokens(Count(end))
  }

  /**
    The `while current <= end_date` loop: appends the token of `current`
    and advances `current` by one month until it passes the end month.
   */
  method GenerateMonths(end: YearMonth) returns (months: seq<string>)
    requires ReachableEnd(end)
    ensures months == MonthTokens(end)
  {
    months := [];
    var current := Start;
    while NotAfter(current, end)
      invariant current == MonthAt(|months|)
      invariant months == [] || Ordinal(current) <= Ordinal(end) + 1
      invariant months == Tokens(|months|)
      decreases Ordinal(end) - Ordinal(current)
    {
      NotAfterIsOrdinalOrder(current, end);
      ghost var n := |months|;
      months := months + [Token(current)];
      if current.month == 12 {
        current := YearMonth(current.year + 1, 1);
      } else {
        current := YearMonth(current.year, current.month + 1);
      }
      Advance(n, current);
    }
    NotAfterIsOrdinalOrder(current, end);
    assert |months| == Count(end);
  }

  /** The loop's rollover step is the calendar successor. */
  lemma Advance(n: nat, current: YearMonth)
    requires current == (if MonthAt(n).month == 12 then YearMonth(MonthAt(n).year + 1, 1)
                         else YearMonth(MonthAt(n).year, MonthAt(n).month + 1))
    ensures current == MonthAt(n + 1)
  {
  }

  /** The window starts at January 2010. */
  lemma FirstMonthIsStart(end: YearMonth)
    requires ValidMonth(end) && NotAfter(Start, end)
    ensures 0 < Count(end) && MonthAt(0) == Start
    ensures MonthTokens(end)[0] == "2010-01"
  {
    MonthIn2010(0);
    TokenIn2010(1);
    assert DigitChar(1) == '1';
  }

  /** The window ends exactly at the end month, which is included. */
  lemma LastMonthIsEnd(end: YearMonth)
    requires ValidMonth(end) && NotAfter(Start, end)
    ensures MonthAt(Count(end) - 1) == end
  {
    OrdinalInjective(MonthAt(Count(end) - 1), end);
  }

  /** The window holds (endYear - 2010) * 12 + endMonth months. */
  lemma CountFormula(end: YearMonth)
    requires ValidMonth(end) && NotAfter(Start, end)
    ensures Count(end) == (end.year - 2010) * 12 + end.month
  {
  }

  /** Months of the window are strictly increasing, hence without duplicates. */
  lemma MonthsIncrease(i: nat, j: nat)
    requires i < j
    ensures Ordinal(MonthAt(i)) < Ordinal(MonthAt(j))
    ensures MonthAt(i) != MonthAt(j)
  {
  }

  /** Every month of a reachable window is a four-digit-year month before December 9999. */
  lemma MonthInWindow(end: YearMonth, i: nat)
    requires ReachableEnd(end) && i < Count(end)
    ensures Ordinal(MonthAt(i)) <= Ordinal(end)
    ensures Start.year <= MonthAt(i).year <= MaxYear && MonthAt(i) != YearMonth(MaxYear, 12)
  {
  }

  /** Tokens at distinct positions of the window differ. */
  lemma TokensDistinct(end: YearMonth, i: nat, j: nat)
    requires ReachableEnd(end)
    requires i < Count(end) && j < Count(end) && i != j
    ensures MonthTokens(end)[i] != MonthTokens(end)[j]
  {
    var a, b := MonthAt(i), MonthAt(j);
    MonthInWindow(end, i);
    MonthInWindow(end, j);
    if Token(a) == Token(b) {
      TokenInjective(a, b);
    }
  }

  lemma ShowYear2010()
    ensures Padded(2010, 4) == "2010"
  {
    assert Show(2) == "2";
    assert Show(20) == Show(2) + "0";
    assert Show(201) == Show(20) + "1";
    assert Show(2010) == Show(201) + "0";
  }

  /** Tokens of the months of 2010 before October. */
  lemma TokenIn2010(m: int)
    requires 1 <= m <= 9
    ensures Token(YearMonth(2010, m)) == "2010-0" + [DigitChar(m)]
  {
    ShowYear2010();
    assert Show(m) == [DigitChar(m)];
    assert Padded(m, 2) == "0" + [DigitChar(m)];
  }

  /** The first twelve months of the window are the months of 2010. */
  lemma MonthIn2010(i: nat)
    requires i < 12
    ensures MonthAt(i) == YearMonth(2010, i + 1)
  {
    OrdinalInjective(MonthAt(i), YearMonth(2010, i + 1));
  }

  /** January to April 2010. */
  lemma ExampleFourMonths()
    ensures MonthTokens(YearMonth(2010, 4)) == ["2010-01", "2010-02", "2010-03", "2010-04"]
  {
    var ts := MonthTokens(YearMonth(2010, 4));
    assert |ts| == 4;
    assert ts[0] == "2010-01" by { MonthIn2010(0); TokenIn2010(1); assert DigitChar(1) == '1'; }
    assert ts[1] == "2010-02" by { MonthIn2010(1); TokenIn2010(2); assert DigitChar(2) == '2'; }
    assert ts[2] == "2010-03" by { MonthIn2010(2); TokenIn2010(3); assert DigitChar(3) == '3'; }
    assert ts[3] == "2010-04" by { MonthIn2010(3); TokenIn2010(4); assert DigitChar(4) == '4'; }
  }

  /** December 2010 rolls over to January 2011. */
  lemma ExampleRollover()
    ensures Token(Next(YearMonth(2010, 12))) == "2011-01"
  {
  }
}
