/**
  The weather fetcher: for each month of the window it asks the weather
  archive for the daily series between the month's first and last day,
  zips the parallel daily arrays into one record per day, and finally
  drops all-empty rows, keeps the first row of each date and renumbers
  the rows. The archive's answer for each month is a parameter.
 */
module WeatherFetch {
  import opened Wrappers
  import opened Decimal
  import opened Calendar
  import opened Months
  import opened Frame

  /** An element of a daily series: JSON null, or a value kept as opaque text. */
  datatype Cell = Missing | Present(text: string)

  /** The `daily` object of a response: parallel arrays indexed by day. */
  datatype Daily = Daily(time: seq<Cell>, temperatureMax: seq<Cell>, temperatureMin: seq<Cell>,
                         precipitationSum: seq<Cell>, windspeedMax: seq<Cell>, weatherCode: seq<Cell>)

  /**
    The archive's answer for one month: `Failed` stands for a transport
    error, a timeout, a non-2xx status or a body without `daily`/`time`.
   */
  datatype Response = Failed | Data(daily: Daily)

  /** One row of the combined weather table. */
  datatype WeatherRecord = WeatherRecord(date: Cell, temperatureMax: Cell, temperatureMin: Cell,
                                         precipitationSum: Cell, windspeedMax: Cell, weatherCode: Cell)

  /** What the script reports for a month. */
  datatype Outcome = Fetched | Error

  // ---------------------------------------------------------------- request window

  /**
    `last_day`, the first day of the following month: `{year+1}-01-01` for
    December and `{year}-{mon+1:02d}-01` otherwise; None where `int` raises.
   */
  function NextMonthStart(year: string, mon: string): Option<string>
  {
    if mon == "12" then
      match ParseNat(year)
      case None => None
      case Some(y) => Some(Show(y + 1) + "-01-01")
    else
      match ParseNat(mon)
      case None => None
      case Some(m) => Some(year + "-" + Padded(m + 1, 2) + "-01")
  }

  /**
    The `start_date` and `end_date` parameters computed from a month token:
    the token is split on `-` into year and month, the first day is
    `{year}-{mon}-01`, and the last day is `last_day` parsed with `strptime`
    minus one day. None where the Python code raises (these lines are
    outside the `try`, so the script would stop).
   */
  function MonthWindow(token: string): Option<(string, string)>
  {
    var parts := Split(token, '-');
    if |parts| != 2 then None
    else
      var year, mon := parts[0], parts[1];
      match NextMonthStart(year, mon)
      case None => None
      case Some(text) =>
        match ParseDate(text)
        case None => None
        case Some(d) =>
          if d == Date(MinYear, 1, 1) then None
          else Some((year + "-" + mon + "-01", DateText(PreviousDay(d))))
  }

  lemma TwoDigitTexts()
    ensures Padded(1, 2) == "01" && Padded(12, 2) == "12"
  {
    assert Show(12) == Show(1) + "2";
  }

  /** In December the day after the month is 1 January of the next year. */
  lemma NextMonthStartDecember(ym: YearMonth)
    requires ym.month == 12 && 1000 <= ym.year < MaxYear
    ensures NextMonthStart(Padded(ym.year, 4), Padded(12, 2)) == Some(DateText(FirstDay(Next(ym))))
  {
    TwoDigitTexts();
    ParsePadded(ym.year, 4);
    var y := ym.year + 1;
    ShowFits(y, 4);
    ShowNeeds(y, 4);
    assert Show(y) == Padded(y, 4);
    assert Show(y) + "-01-01" == DateText(Date(y, 1, 1));
  }

  /** In other months the day after the month is the first of month + 1. */
  lemma NextMonthStartOther(ym: YearMonth)
    requires 1 <= ym.month < 12 && 0 <= ym.year
    ensures NextMonthStart(Padded(ym.year, 4), Padded(ym.month, 2)) == Some(DateText(FirstDay(Next(ym))))
  {
    TwoDigitTexts();
    ParsePadded(ym.month, 2);
    assert Padded(ym.month, 2) != "12" by {
      if Padded(ym.month, 2) == "12" { PaddedInjective(ym.month, 12, 2); }
    }
    var mon := Padded(ym.month + 1, 2);
    assert Padded(ym.year, 4) + "-" + mon + "-01" == DateText(Date(ym.year, ym.month + 1, 1));
  }

  /** The request window of a month: its first and its last day. */
  function Request(ym: YearMonth): (string, string)
    requires ValidMonth(ym) && 0 <= ym.year
  {
    (DateText(FirstDay(ym)), DateText(LastDay(ym)))
  }

  /**
    For every month the window runs from its first to its last day:
    the last day is 31 or 30, or 28/29 in February by the leap rule.
   */
  lemma WindowOfMonth(ym: YearMonth)
    requires ValidMonth(ym) && 1000 <= ym.year <= MaxYear && ym != YearMonth(MaxYear, 12)
    ensures MonthWindow(Token(ym)) == Some(Request(ym))
  {
    var year, mon := Padded(ym.year, 4), Padded(ym.month, 2);
    SplitToken(ym);
    TwoDigitTexts();
    assert year + "-" + mon + "-01" == DateText(FirstDay(ym));
    if ym.month == 12 {
      NextMonthStartDecember(ym);
    } else {
      NextMonthStartOther(ym);
    }
    var next := FirstDay(Next(ym));
    ParseDateText(next);
    DayBeforeNextMonth(ym);
  }

  // ---------------------------------------------------------------- daily records

  function Min(a: nat, b: nat): nat { if a <= b then a else b }

  /**
    How many days can be zipped: the loop over `time` stops with an
    IndexError at the first day some other array does not reach.
   */
  function Available(d: Daily): nat
  {
    Min(|d.time|, Min(Min(|d.temperatureMax|, |d.temperatureMin|),
                      Min(|d.precipitationSum|, Min(|d.windspeedMax|, |d.weatherCode|))))
  }

  /** Record i pairs `time[i]` with element i of every parallel array. */
  function RecordAt(d: Daily, i: nat): WeatherRecord
    requires i < Available(d)
  {
    WeatherRecord(d.time[i], d.temperatureMax[i], d.temperatureMin[i],
                  d.precipitationSum[i], d.windspeedMax[i], d.weatherCode[i])
  }

  /**
    The inner `for i, date in enumerate(data['daily']['time'])` loop: appends
    one record per day, in day order; if an array is shorter than `time`,
    the records before the failing day stay appended and `ok` is false.
   */
  method AppendDaily(acc: seq<WeatherRecord>, d: Daily) returns (records: seq<WeatherRecord>, ok: bool)
    ensures ok <==> Available(d) == |d.time|
    ensures |records| == |acc| + Available(d)
    ensures records[..|acc|] == acc
    ensures forall i :: 0 <= i < Available(d) ==> records[|acc| + i] == RecordAt(d, i)
  {
    records := acc;
    var i := 0;
    while i < |d.time|
      invariant i <= Available(d)
      invariant |records| == |acc| + i && records[..|acc|] == acc
      invariant forall k :: 0 <= k < i ==> records[|acc| + k] == RecordAt(d, k)
    {
      if i >= |d.temperatureMax| || i >= |d.temperatureMin| || i >= |d.precipitationSum|
         || i >= |d.windspeedMax| || i >= |d.weatherCode| {
        ok := false;
        return;
      }
      var record := WeatherRecord(d.time[i], d.temperatureMax[i], d.temperatureMin[i],
                                  d.precipitationSum[i], d.windspeedMax[i], d.weatherCode[i]);
      records := records + [record];
      i := i + 1;
    }
    ok := true;
  }

  /** The records one month's answer contributes. */
  function DayRecords(resp: Response): (rs: seq<WeatherRecord>)
  {
    match resp
    case Failed => []
    case Data(d) => seq(Available(d), i requires 0 <= i < Available(d) => RecordAt(d, i))
  }

  /** `weather_records` after the first `n` months, in month order. */
  function Accumulated(responses: seq<Response>, n: nat): seq<WeatherRecord>
    requires n <= |responses|
  {
    if n == 0 then [] else Accumulated(responses, n - 1) + DayRecords(responses[n - 1])
  }

  lemma AppendedDayRecords(acc: seq<WeatherRecord>, d: Daily, records: seq<WeatherRecord>)
    requires |records| == |acc| + Available(d)
    requires records[..|acc|] == acc
    requires forall i :: 0 <= i < Available(d) ==> records[|acc| + i] == RecordAt(d, i)
    ensures records == acc + DayRecords(Data(d))
  {
  }

  function OutcomeOf(resp: Response): Outcome
  {
    match resp
    case Failed => Error
    case Data(d) => if Available(d) == |d.time| then Fetched else Error
  }

  // ---------------------------------------------------------------- the combined table

  /** `dropna(how='all')` keeps a row with at least one present value. */
  predicate NotAllMissing(r: WeatherRecord)
  {
    !(r.date.Missing? && r.temperatureMax.Missing? && r.temperatureMin.Missing?
      && r.precipitationSum.Missing? && r.windspeedMax.Missing? && r.weatherCode.Missing?)
  }

  function DateOf(r: WeatherRecord): Cell { r.date }

  /** `DataFrame(records).dropna(how='all')`: the non-empty records, labelled by position. */
  function NonEmpty(records: seq<WeatherRecord>): seq<Labeled<WeatherRecord>>
  {
    Filter(Enumerate(records), NotAllMissing)
  }

  /** `DataFrame(records).dropna(how='all').drop_duplicates(subset=['date'])`, with labels. */
  function Deduplicated(records: seq<WeatherRecord>): seq<Labeled<WeatherRecord>>
  {
    DropDuplicates(NonEmpty(records), DateOf)
  }

  /** The saved table: `Deduplicated(...).reset_index(drop=True)`. */
  function WeatherTable(records: seq<WeatherRecord>): seq<Labeled<WeatherRecord>>
  {
    ResetIndex(Deduplicated(records))
  }

  /**
    One iteration of the month loop: the request window of the month's
    token, then the body of the `try`: a failed request appends nothing, a
    well-formed answer appends all its days, a ragged one the days before
    the first missing element.
   */
  method FetchMonth(ghost ym: YearMonth, month: string, acc: seq<WeatherRecord>, resp: Response)
    returns (request: (string, string), records: seq<WeatherRecord>, outcome: Outcome)
    requires ValidMonth(ym) && 1000 <= ym.year <= MaxYear && ym != YearMonth(MaxYear, 12)
    requires month == Token(ym)
    ensures request == Request(ym)
    ensures records == acc + DayRecords(resp)
    ensures outcome == OutcomeOf(resp)
  {
    WindowOfMonth(ym);
    var window := MonthWindow(month);
    request := window.value;
    match resp {
      case Failed =>
        records, outcome := acc, Error;
      case Data(daily) =>
        var ok;
        records, ok := AppendDaily(acc, daily);
        AppendedDayRecords(acc, daily, records);
        outcome := if ok then Fetched else Error;
    }
  }

  /** What the script reports for the first `n` months, in order. */
  function Outcomes(responses: seq<Response>, n: nat): (os: seq<Outcome>)
    requires n <= |responses|
    ensures |os| == n
    ensures forall i :: 0 <= i < n ==> os[i] == OutcomeOf(responses[i])
  {
    if n == 0 then [] else Outcomes(responses, n - 1) + [OutcomeOf(responses[n - 1])]
  }

  /**
    The weather script: builds the request window for each month, appends
    each answer's records, reports each month, and builds the combined table.
   */
  method WeatherFetcher(end: YearMonth, responses: seq<Response>)
    returns (requests: seq<(string, string)>, log: seq<Outcome>, table: seq<Labeled<WeatherRecord>>)
    requires ReachableEnd(end) && |responses| == Count(end)
    ensures |requests| == Count(end) && |log| == Count(end)
    ensures requests == MapMonths(Count(end), Request)
    ensures forall i :: 0 <= i < Count(end) ==> requests[i] == Request(MonthAt(i))
    ensures forall i :: 0 <= i < Count(end) ==> log[i] == OutcomeOf(responses[i])
    ensures table == WeatherTable(Accumulated(responses, |responses|))
  {
    var months := GenerateMonths(end);
    var weatherRecords: seq<WeatherRecord> := [];
    requests, log := [], [];
    for i := 0 to |months|
      invariant requests == MapMonths(i, Request)
      invariant log == Outcomes(responses, i)
      invariant weatherRecords == Accumulated(responses, i)
    {
      MonthInWindow(end, i);
      assert months[i] == Token(MonthAt(i));
      var request, outcome;
      request, weatherRecords, outcome := FetchMonth(MonthAt(i), months[i], weatherRecords, responses[i]);
      requests := requests + [request];
      log := log + [outcome];
    }
    table := WeatherTable(weatherRecords);
    forall i | 0 <= i < Count(end)
      ensures requests[i] == Request(MonthAt(i))
    {
      MapMonthsAt(Count(end), Request, i);
    }
  }

  // ---------------------------------------------------------------- properties of the table

  /** The combined table's index runs 0, 1, 2, ... */
  lemma TableIndexContiguous(records: seq<WeatherRecord>)
    ensures forall j :: 0 <= j < |WeatherTable(records)| ==> WeatherTable(records)[j].index == j
  {
  }

  /** Each date occurs at most once in the combined table. */
  lemma TableDatesUnique(records: seq<WeatherRecord>)
    ensures var t := WeatherTable(records);
            forall i, j :: 0 <= i < j < |t| ==> t[i].row.date != t[j].row.date
  {
    var f := NonEmpty(records);
    DropSeenDistinct(f, DateOf, {});
    var d := Deduplicated(records);
    assert forall i, j :: 0 <= i < j < |d| ==> DateOf(d[i].row) != DateOf(d[j].row);
  }

  lemma DroppedEmptyRows(records: seq<WeatherRecord>)
    ensures Selects(NonEmpty(records), records, NotAllMissing, (r: WeatherRecord) => r)
  {
    SelectsAll(records, _ => true, (r: WeatherRecord) => r);
    SelectsFilter(Enumerate(records), records, _ => true, (r: WeatherRecord) => r, NotAllMissing, NotAllMissing);
  }

  /** Row `i` of the non-empty records is an input record at its own position. */
  lemma NonEmptyAt(records: seq<WeatherRecord>, i: nat)
    requires i < |NonEmpty(records)|
    ensures var x := NonEmpty(records)[i];
            0 <= x.index < |records| && x.row == records[x.index] && NotAllMissing(x.row)
  {
    var e := Enumerate(records);
    assert NonEmpty(records)[i] in e;
  }

  /** Where a non-empty record sits among the non-empty records. */
  lemma NonEmptyPosition(records: seq<WeatherRecord>, l: nat) returns (p: nat)
    requires l < |records| && NotAllMissing(records[l])
    ensures p < |NonEmpty(records)| && NonEmpty(records)[p] == Labeled(l, records[l])
  {
    var e := Enumerate(records);
    assert e[l] == Labeled(l, records[l]);
    p :| 0 <= p < |NonEmpty(records)| && NonEmpty(records)[p] == e[l];
  }

  lemma NonEmptyIncreasing(records: seq<WeatherRecord>)
    ensures Increasing(NonEmpty(records))
  {
    FilterIncreasing(Enumerate(records), NotAllMissing);
  }

  /**
    The deduplicated rows keep their original order and are records of the
    input; a record with a date is kept exactly when no earlier record
    has the same date, so the surviving row is the first occurrence.
   */
  lemma KeepsFirstOfEachDate(records: seq<WeatherRecord>, l: nat)
    requires l < |records| && records[l].date.Present?
    ensures Increasing(Deduplicated(records))
    ensures forall j :: 0 <= j < |Deduplicated(records)| ==>
              var x := Deduplicated(records)[j];
              0 <= x.index < |records| && x.row == records[x.index]
    ensures Labeled(l, records[l]) in Deduplicated(records) <==>
            forall k :: 0 <= k < l ==> records[k].date != records[l].date
  {
    var f := NonEmpty(records);
    NonEmptyIncreasing(records);
    DropSeenFirst(f, DateOf, {});
    var out := Deduplicated(records);
    assert out == DropSeen(f, DateOf, {});
    forall j | 0 <= j < |out|
      ensures 0 <= out[j].index < |records| && out[j].row == records[out[j].index]
    {
      assert out[j] in f;
      var i :| 0 <= i < |f| && f[i] == out[j];
      NonEmptyAt(records, i);
    }
    var p := NonEmptyPosition(records, l);
    if forall k :: 0 <= k < l ==> records[k].date != records[l].date {
      forall k | 0 <= k < p
        ensures DateOf(f[k].row) != DateOf(f[p].row)
      {
        NonEmptyAt(records, k);
        assert f[k].index < f[p].index;
      }
      assert f[p] in out;
    } else {
      var k :| 0 <= k < l && records[k].date == records[l].date;
      var q := NonEmptyPosition(records, k);
      PositionOrder(f, q, p);
      assert DateOf(f[q].row) == DateOf(f[p].row);
      assert f[p] !in out;
    }
  }

  /** No date present in the accumulated records is lost by the cleaning. */
  lemma KeepsEveryDate(records: seq<WeatherRecord>, l: nat)
    requires l < |records| && records[l].date.Present?
    ensures exists j :: 0 <= j < |WeatherTable(records)| && WeatherTable(records)[j].row.date == records[l].date
  {
    var f := NonEmpty(records);
    var p := NonEmptyPosition(records, l);
    NonEmptyIncreasing(records);
    DropDuplicatesKeepsKeys(f, DateOf, p);
    var q :| 0 <= q <= p && DateOf(f[q].row) == DateOf(f[p].row) && f[q] in Deduplicated(records);
    var out := Deduplicated(records);
    var j :| 0 <= j < |out| && out[j] == f[q];
    assert WeatherTable(records)[j].row == out[j].row;
  }
}
