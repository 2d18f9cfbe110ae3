/**
  The crime fetcher: for each month of the window it asks the street-crime
  API for the records around the city centre and overwrites that month's
  CSV file with them. The data directory is a map from path to file; the
  API's answer for each month is a parameter.
 */
module CrimeFetch {
  import opened Wrappers
  import opened Calendar
  import opened Months

  /** One key of a crime record with its value as it is written to CSV. */
  datatype Field = Field(key: string, value: string)

  /** A crime record as decoded from the API's JSON, keys in object order. */
  datatype Record = Record(fields: seq<Field>)

  /**
    The API's answer for one month: `Failed` stands for a transport error,
    a timeout, a non-2xx status, a body that is not JSON, or a non-empty
    body that is not a list of records (taking `crimes[0].keys()` raises).
    An empty body (`[]`, `null`, `{}`, `""`) fails `if crimes:` and is
    `Crimes([])`.
   */
  datatype Response = Failed | Crimes(records: seq<Record>)

  /** A CSV file: header row and data rows. */
  datatype File = File(header: seq<string>, rows: seq<seq<string>>)

  type FileSystem = map<string, File>

  /** What the script reports for a month. */
  datatype Outcome = Saved(count: nat) | NoData | Error

  /** The rows `csv.DictWriter.writerows` emitted, and whether it finished without raising. */
  datatype Written = Written(rows: seq<seq<string>>, complete: bool)

  const DataDir := "Data"

  /** `os.path.join(DATA_DIR, f'bristol_crime_{month}.csv')`. */
  function CrimePath(token: string): string
  {
    DataDir + "/bristol_crime_" + token + ".csv"
  }

  /** Distinct tokens name distinct files. */
  lemma CrimePathInjective(a: string, b: string)
    requires CrimePath(a) == CrimePath(b)
    ensures a == b
  {
    var s := CrimePath(a);
    assert |a| == |b|;
    assert a == s[19..|s| - 4];
    assert b == CrimePath(b)[19..|s| - 4];
  }

  /** `crimes[0].keys()`. */
  function Keys(r: Record): (ks: seq<string>)
    ensures |ks| == |r.fields|
    ensures forall i :: 0 <= i < |ks| ==> ks[i] == r.fields[i].key
    decreases |r.fields|
  {
    if r.fields == [] then [] else [r.fields[0].key] + Keys(Record(r.fields[1..]))
  }

  /** `record.get(key)`. */
  function Lookup(r: Record, key: string): (v: Option<string>)
    ensures v.Some? <==> key in Keys(r)
    ensures v.Some? ==> Field(key, v.value) in r.fields
    decreases |r.fields|
  {
    if r.fields == [] then None
    else if r.fields[0].key == key then Some(r.fields[0].value)
    else Lookup(Record(r.fields[1..]), key)
  }

  /**
    `DictWriter._dict_to_list`: the record's values in header order, `""`
    for a header key the record lacks; None where the record has a key
    outside the header (DictWriter raises ValueError).
   */
  function CsvRow(header: seq<string>, r: Record): (row: Option<seq<string>>)
    ensures row.Some? <==> forall k :: k in Keys(r) ==> k in header
    ensures row.Some? ==> |row.value| == |header|
    ensures row.Some? ==>
              forall j :: 0 <= j < |header| ==>
                row.value[j] == if header[j] in Keys(r) then Lookup(r, header[j]).value else ""
  {
    if forall k :: k in Keys(r) ==> k in header
    then Some(seq(|header|, j requires 0 <= j < |header| =>
                  match Lookup(r, header[j]) case Some(v) => v case None => ""))
    else None
  }

  /**
    `writer.writerows(crimes)`: one row per record, stopping at the first
    record that cannot be written (the rows before it are already in the file).
   */
  function CsvRows(header: seq<string>, records: seq<Record>): (w: Written)
    ensures |w.rows| <= |records|
    ensures forall j :: 0 <= j < |w.rows| ==> CsvRow(header, records[j]) == Some(w.rows[j])
    ensures w.complete <==> |w.rows| == |records|
    ensures !w.complete ==> CsvRow(header, records[|w.rows|]).None?
  {
    if records == [] then Written([], true)
    else match CsvRow(header, records[0])
      case None => Written([], false)
      case Some(row) =>
        var rest := CsvRows(header, records[1..]);
        Written([row] + rest.rows, rest.complete)
  }

  /** The first record always fits the header made of its own keys. */
  lemma FirstRecordFits(r: Record)
    ensures CsvRow(Keys(r), r).Some?
  {
  }

  /** Whether the month's response leads to a file being (over)written. */
  predicate Writes(resp: Response)
  {
    resp.Crimes? && |resp.records| > 0
  }

  /** The file written for a non-empty list of records. */
  function WrittenFile(records: seq<Record>): File
    requires |records| > 0
  {
    var header := Keys(records[0]);
    File(header, CsvRows(header, records).rows)
  }

  /** The data directory after processing one month (the specification of one loop iteration). */
  function Apply(fs: FileSystem, token: string, resp: Response): FileSystem
  {
    if Writes(resp) then fs[CrimePath(token) := WrittenFile(resp.records)] else fs
  }

  /** What the script reports for one month. */
  function OutcomeOf(resp: Response): Outcome
  {
    match resp
    case Failed => Error
    case Crimes(records) =>
      if |records| == 0 then NoData
      else if CsvRows(Keys(records[0]), records).complete then Saved(|records|)
      else Error
  }

  /** The data directory after processing the months in order. */
  function Run(fs: FileSystem, tokens: seq<string>, responses: seq<Response>): FileSystem
    requires |responses| == |tokens|
  {
    if tokens == [] then fs
    else
      var n := |tokens| - 1;
      Apply(Run(fs, tokens[..n], responses[..n]), tokens[n], responses[n])
  }

  function Get(fs: FileSystem, path: string): Option<File>
  {
    if path in fs then Some(fs[path]) else None
  }

  /**
    The `for month in months` loop: one request per month, in order; a
    non-empty answer overwrites that month's file, an empty one or a
    failure leaves the directory as it was, and the loop always goes on.
   */
  method FetchCrimeData(months: seq<string>, responses: seq<Response>, fs0: FileSystem)
    returns (fs: FileSystem, log: seq<Outcome>)
    requires |responses| == |months|
    ensures fs == Run(fs0, months, responses)
    ensures |log| == |months|
    ensures forall i :: 0 <= i < |months| ==> log[i] == OutcomeOf(responses[i])
  {
    fs, log := fs0, [];
    for i := 0 to |months|
      invariant |log| == i
      invariant fs == Run(fs0, months[..i], responses[..i])
      invariant forall k :: 0 <= k < i ==> log[k] == OutcomeOf(responses[k])
    {
      ghost var before := fs;
      var month := months[i];
      var outPath := CrimePath(month);
      var outcome: Outcome;
      match responses[i] {
        case Failed =>
          outcome := Error;
        case Crimes(crimes) =>
          if |crimes| > 0 {
            var keys := Keys(crimes[0]);
            var written := CsvRows(keys, crimes);
            fs := fs[outPath := File(keys, written.rows)];
            outcome := if written.complete then Saved(|crimes|) else Error;
          } else {
            outcome := NoData;
          }
      }
      assert fs == Apply(before, month, responses[i]);
      assert outcome == OutcomeOf(responses[i]);
      log := log + [outcome];
      RunStep(fs0, months, responses, i);
    }
    assert months[..|months|] == months;
    assert responses[..|responses|] == responses;
  }

  /** Processing the first `i + 1` months is processing the first `i`, then month `i`. */
  lemma RunStep(fs: FileSystem, tokens: seq<string>, responses: seq<Response>, i: nat)
    requires |responses| == |tokens| && i < |tokens|
    ensures Run(fs, tokens[..i + 1], responses[..i + 1]) ==
            Apply(Run(fs, tokens[..i], responses[..i]), tokens[i], responses[i])
  {
    assert tokens[..i + 1][..i] == tokens[..i];
    assert responses[..i + 1][..i] == responses[..i];
  }

  /** One month's iteration touches no file but that month's. */
  lemma ApplyFrame(fs: FileSystem, token: string, resp: Response, path: string)
    requires path != CrimePath(token)
    ensures Get(Apply(fs, token, resp), path) == Get(fs, path)
  {
  }

  /**
    A non-empty answer writes the month's file: the header is the first
    record's keys and row j is record j; every record is written exactly
    when the month is reported as saved.
   */
  lemma ApplyWrites(fs: FileSystem, token: string, records: seq<Record>)
    requires |records| > 0
    ensures var f := Apply(fs, token, Crimes(records))[CrimePath(token)];
            && f.header == Keys(records[0])
            && 1 <= |f.rows| <= |records|
            && (forall j :: 0 <= j < |f.rows| ==> CsvRow(f.header, records[j]) == Some(f.rows[j]))
            && (|f.rows| == |records| <==> OutcomeOf(Crimes(records)) == Saved(|records|))
  {
    FirstRecordFits(records[0]);
  }

  /** An empty answer or a failure leaves the directory, and any old file of the month, unchanged. */
  lemma ApplyNoWrite(fs: FileSystem, token: string, resp: Response)
    requires resp == Failed || resp == Crimes([])
    ensures Apply(fs, token, resp) == fs
    ensures OutcomeOf(resp) != Saved(0) && (resp == Failed <==> OutcomeOf(resp) == Error)
  {
  }

  /** Files of months outside the processed ones are never touched. */
  lemma {:induction false} RunFrame(fs: FileSystem, tokens: seq<string>, responses: seq<Response>, path: string)
    requires |responses| == |tokens|
    requires forall i :: 0 <= i < |tokens| ==> path != CrimePath(tokens[i])
    ensures Get(Run(fs, tokens, responses), path) == Get(fs, path)
  {
    if tokens != [] {
      var n := |tokens| - 1;
      RunFrame(fs, tokens[..n], responses[..n], path);
      ApplyFrame(Run(fs, tokens[..n], responses[..n]), tokens[n], responses[n], path);
    }
  }

  /**
    With distinct month tokens, each month's file ends up determined by that
    month's answer alone: the file written from it, or the old file (if any).
   */
  lemma {:induction false} RunMonth(fs: FileSystem, tokens: seq<string>, responses: seq<Response>, i: nat)
    requires |responses| == |tokens| && i < |tokens|
    requires forall a, b :: 0 <= a < b < |tokens| ==> tokens[a] != tokens[b]
    ensures Get(Run(fs, tokens, responses), CrimePath(tokens[i])) ==
            if Writes(responses[i]) then Some(WrittenFile(responses[i].records))
            else Get(fs, CrimePath(tokens[i]))
  {
    var n := |tokens| - 1;
    var path := CrimePath(tokens[i]);
    if i == n {
      forall k | 0 <= k < n
        ensures path != CrimePath(tokens[..n][k])
      {
        if path == CrimePath(tokens[k]) {
          CrimePathInjective(tokens[i], tokens[k]);
        }
      }
      RunFrame(fs, tokens[..n], responses[..n], path);
    } else {
      RunMonth(fs, tokens[..n], responses[..n], i);
      if path == CrimePath(tokens[n]) {
        CrimePathInjective(tokens[i], tokens[n]);
      }
      ApplyFrame(Run(fs, tokens[..n], responses[..n]), tokens[n], responses[n], path);
    }
  }

  /**
    The whole script: the month window up to `end`, then the fetch loop.
    Each month's file is decided by its own answer and no other file changes.
   */
  method CrimeFetcher(end: YearMonth, responses: seq<Response>, fs0: FileSystem)
    returns (fs: FileSystem, log: seq<Outcome>)
    requires ReachableEnd(end) && |responses| == Count(end)
    ensures |log| == Count(end)
    ensures forall i :: 0 <= i < Count(end) ==> log[i] == OutcomeOf(responses[i])
    ensures forall i :: 0 <= i < Count(end) ==>
              Get(fs, CrimePath(Token(MonthAt(i)))) ==
              if Writes(responses[i]) then Some(WrittenFile(responses[i].records))
              else Get(fs0, CrimePath(Token(MonthAt(i))))
    ensures forall path :: (forall i :: 0 <= i < Count(end) ==> path != CrimePath(Token(MonthAt(i)))) ==>
              Get(fs, path) == Get(fs0, path)
  {
    var months := GenerateMonths(end);
    fs, log := FetchCrimeData(months, responses, fs0);
    forall a, b | 0 <= a < b < |months|
      ensures months[a] != months[b]
    {
      TokensDistinct(end, a, b);
    }
    forall i | 0 <= i < Count(end)
      ensures Get(fs, CrimePath(Token(MonthAt(i)))) ==
              if Writes(responses[i]) then Some(WrittenFile(responses[i].records))
              else Get(fs0, CrimePath(Token(MonthAt(i))))
    {
      RunMonth(fs0, months, responses, i);
    }
    forall path | forall i :: 0 <= i < Count(end) ==> path != CrimePath(Token(MonthAt(i)))
      ensures Get(fs, path) == Get(fs0, path)
    {
      RunFrame(fs0, months, responses, path);
    }
  }
}
