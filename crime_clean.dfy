/**
  The cleaning script: reads every monthly crime file it can, concatenates
  them, turns blank cells into missing values, drops empty rows, derives
  coordinates, street name, year, month number and a category code, keeps
  only the rows with coordinates, category and month, and renumbers them.
  A row is a map from column name to cell; a column absent from a row's
  map is missing in that row, which is how `concat` aligns files whose
  columns differ.
 */
module CrimeClean {
  import opened Wrappers
  import opened Calendar
  import opened Frame
  import CrimeFetch
  import Decimal

  /** The `street` record of a location, with or without a `name` key. */
  datatype Street = Street(name: Option<string>)

  /** The stored `location` record, already parsed; coordinates are kept as opaque text. */
  datatype Location = Location(latitude: Option<string>, longitude: Option<string>, street: Option<Street>)

  /** A cell: missing (NaN/None), text, a parsed location record, or a number. */
  datatype Value = Missing | Text(s: string) | Loc(location: Location) | Number(n: int)

  type Row = map<string, Value>

  /** A table as read from one file, or as concatenated. */
  datatype Table = Table(columns: seq<string>, rows: seq<Row>)

  /** The cleaned table: columns and rows with their (reset) index. */
  datatype Cleaned = Cleaned(columns: seq<string>, rows: seq<Labeled<Row>>)

  /** Why `clean_crime_data` raises: a location that is not a record literal, or a missing column. */
  datatype CleanError = LocationNotRecord | MissingColumns

  datatype ScriptError = NoDataFiles | CleanFailed(error: CleanError)

  /** The outcome of `pd.read_csv` on one discovered file. */
  datatype ReadResult = Unreadable | Read(table: Table)

  function Cell(r: Row, c: string): Value
  {
    if c in r then r[c] else Missing
  }

  // ---------------------------------------------------------------- discovering the files

  /** Where the cleaned table is saved: `Data/bristol_crime_ml_ready.csv`. */
  const OutputPath := CrimeFetch.DataDir + "/bristol_crime_ml_ready.csv"

  const Prefix := CrimeFetch.DataDir + "/bristol_crime_"

  const Suffix := ".csv"

  /** The name matches `Data/bristol_crime_*.csv` (`*` matches any text without a `/`). */
  predicate GlobMatches(name: string)
  {
    && |Prefix| + |Suffix| <= |name|
    && name[..|Prefix|] == Prefix
    && name[|name| - |Suffix|..] == Suffix
    && forall i :: |Prefix| <= i < |name| - |Suffix| ==> name[i] != '/'
  }

  /** A monthly crime file: the glob matches and the starred part is a `YYYY-MM` month. */
  predicate MonthlyFile(name: string)
  {
    GlobMatches(name) && ParseToken(name[|Prefix|..|name| - |Suffix|]).Some?
  }

  /** The names in a directory listing that satisfy `p`, in listing order. */
  function Matching(listing: seq<string>, p: string -> bool): (r: seq<string>)
    ensures forall i :: 0 <= i < |r| ==> r[i] in listing && p(r[i])
    ensures forall i :: 0 <= i < |listing| && p(listing[i]) ==> listing[i] in r
  {
    if listing == [] then []
    else (if p(listing[0]) then [listing[0]] else []) + Matching(listing[1..], p)
  }

  /** As written, the glob picks up the script's own output file whenever it exists. */
  lemma GlobRereadsOutput(listing: seq<string>)
    requires OutputPath in listing
    ensures OutputPath in Matching(listing, GlobMatches)
  {
    OutputMatchesGlob();
    var i :| 0 <= i < |listing| && listing[i] == OutputPath;
  }

  lemma OutputMatchesGlob()
    ensures GlobMatches(OutputPath)
  {
    assert OutputPath[..|Prefix|] == Prefix;
    assert OutputPath[|OutputPath| - |Suffix|..] == Suffix;
  }

  /** Selecting monthly files never reads the output file back in. */
  lemma MonthlySkipsOutput(listing: seq<string>)
    ensures OutputPath !in Matching(listing, MonthlyFile)
  {
    assert |OutputPath[|Prefix|..|OutputPath| - |Suffix|]| == 8;
    assert !MonthlyFile(OutputPath);
  }

  /** Selecting monthly files still finds every file the fetcher writes. */
  lemma MonthlyFindsCrimeFiles(listing: seq<string>, ym: YearMonth)
    requires ValidMonth(ym) && MinYear <= ym.year <= MaxYear
    requires CrimeFetch.CrimePath(Token(ym)) in listing
    ensures CrimeFetch.CrimePath(Token(ym)) in Matching(listing, MonthlyFile)
  {
    CrimePathMonthly(ym);
    var i :| 0 <= i < |listing| && listing[i] == CrimeFetch.CrimePath(Token(ym));
  }

  lemma CrimePathMonthly(ym: YearMonth)
    requires ValidMonth(ym) && MinYear <= ym.year <= MaxYear
    ensures MonthlyFile(CrimeFetch.CrimePath(Token(ym)))
  {
    var name := CrimeFetch.CrimePath(Token(ym));
    ParseTokenOfToken(ym);
    NoSlashInToken(ym);
    assert name[..|Prefix|] == Prefix;
    assert name[|Prefix|..|name| - |Suffix|] == Token(ym);
    assert name[|name| - |Suffix|..] == Suffix;
  }

  lemma NoSlashInToken(ym: YearMonth)
    requires ValidMonth(ym) && MinYear <= ym.year <= MaxYear
    ensures forall i :: 0 <= i < |Token(ym)| ==> Token(ym)[i] != '/'
  {
    ParseTokenOfToken(ym);
    var t := Token(ym);
    assert Decimal.AllDigits(t[..4]) && Decimal.AllDigits(t[5..]);
    forall i | 0 <= i < |t|
      ensures t[i] != '/'
    {
      if i < 4 {
        assert t[i] == t[..4][i];
      } else if i > 4 {
        assert t[i] == t[5..][i - 5];
      }
    }
  }

  // ---------------------------------------------------------------- reading and concatenation

  /** `df_list` after the first `n` files: the tables that were read, in order. */
  function Readable(results: seq<ReadResult>, n: nat): seq<Table>
    requires n <= |results|
  {
    if n == 0 then []
    else Readable(results, n - 1) + (if results[n - 1].Read? then [results[n - 1].table] else [])
  }

  /** The `for file in all_files` loop: a file that fails to read is skipped. */
  method ReadAll(results: seq<ReadResult>) returns (tables: seq<Table>)
    ensures tables == Readable(results, |results|)
  {
    tables := [];
    for i := 0 to |results|
      invariant tables == Readable(results, i)
    {
      match results[i] {
        case Unreadable =>
        case Read(df) =>
          tables := tables + [df];
      }
    }
  }

  /** Every table that was read is used, and only those. */
  lemma {:induction false} ReadableMembers(results: seq<ReadResult>, n: nat)
    requires n <= |results|
    ensures forall i :: 0 <= i < n && results[i].Read? ==> results[i].table in Readable(results, n)
    ensures forall t :: t in Readable(results, n) ==> Read(t) in results[..n]
  {
    if n > 0 {
      ReadableMembers(results, n - 1);
      assert results[..n] == results[..n - 1] + [results[n - 1]];
    }
  }

  /** Nothing is left to clean exactly when no file could be read. */
  lemma {:induction false} ReadableEmpty(results: seq<ReadResult>, n: nat)
    requires n <= |results|
    ensures Readable(results, n) == [] <==> forall i :: 0 <= i < n ==> results[i] == Unreadable
  {
    if n > 0 {
      ReadableEmpty(results, n - 1);
    }
  }

  /** `col` added after the existing columns unless it is already one of them. */
  function AddColumn(columns: seq<string>, col: string): (r: seq<string>)
    ensures forall c :: c in r <==> c in columns || c == col
  {
    if col in columns then columns else columns + [col]
  }

  function UnionColumns(columns: seq<string>, more: seq<string>): (r: seq<string>)
    ensures forall c :: c in r <==> c in columns || c in more
    decreases |more|
  {
    if more == [] then columns else UnionColumns(AddColumn(columns, more[0]), more[1..])
  }

  /** `pd.concat(df_list, ignore_index=True)`: all rows in read order; columns aligned by name. */
  function Concat(tables: seq<Table>): Table
  {
    if tables == [] then Table([], [])
    else
      var n := |tables| - 1;
      var init := Concat(tables[..n]);
      Table(UnionColumns(init.columns, tables[n].columns), init.rows + tables[n].rows)
  }

  /** Number of rows in the first `k` tables. */
  function Offset(tables: seq<Table>, k: nat): nat
    requires k <= |tables|
  {
    if k == 0 then 0 else Offset(tables, k - 1) + |tables[k - 1].rows|
  }

  /** Concatenation holds as many rows as all tables together. */
  lemma {:induction false} ConcatLength(tables: seq<Table>)
    ensures |Concat(tables).rows| == Offset(tables, |tables|)
  {
    if tables != [] {
      var n := |tables| - 1;
      ConcatLength(tables[..n]);
      OffsetPrefix(tables, n, n);
    }
  }

  /** Concatenation keeps rows in read order: row `j` of table `k` is row `Offset(k) + j` of the result. */
  lemma {:induction false} ConcatRowAt(tables: seq<Table>, k: nat, j: nat)
    requires k < |tables| && j < |tables[k].rows|
    ensures Offset(tables, k) + j < |Concat(tables).rows|
    ensures Concat(tables).rows[Offset(tables, k) + j] == tables[k].rows[j]
  {
    var n := |tables| - 1;
    var init := tables[..n];
    var rows := Concat(init).rows;
    assert Concat(tables).rows == rows + tables[n].rows;
    ConcatLength(init);
    OffsetPrefix(tables, n, n);
    if k < n {
      assert init[k] == tables[k];
      ConcatRowAt(init, k, j);
      OffsetPrefix(tables, n, k);
      OffsetMonotone(tables, k + 1, n);
    }
  }

  /** Every column of every table is a column of the result. */
  lemma {:induction false} ConcatColumn(tables: seq<Table>, k: nat, c: string)
    requires k < |tables| && c in tables[k].columns
    ensures c in Concat(tables).columns
  {
    var n := |tables| - 1;
    if k < n {
      ConcatColumn(tables[..n], k, c);
    }
  }

  /** Every column of the result is a column of one of the tables. */
  lemma {:induction false} ConcatColumnSource(tables: seq<Table>, c: string) returns (k: nat)
    requires c in Concat(tables).columns
    ensures k < |tables| && c in tables[k].columns
  {
    var n := |tables| - 1;
    if c in tables[n].columns {
      k := n;
    } else {
      k := ConcatColumnSource(tables[..n], c);
      assert tables[..n][k] == tables[k];
    }
  }

  /** A column no table has is missing from the concatenation, so cleaning fails without it. */
  lemma AbsentEverywhereFails(tables: seq<Table>, c: string)
    requires c == "category" || c == "month"
    requires forall k :: 0 <= k < |tables| ==> c !in tables[k].columns
    ensures c !in Concat(tables).columns
    ensures Clean(Concat(tables)).Err?
  {
    if c in Concat(tables).columns {
      var k := ConcatColumnSource(tables, c);
    }
    AbsentColumnsFail(Concat(tables));
  }

  lemma {:induction false} OffsetPrefix(tables: seq<Table>, n: nat, k: nat)
    requires k <= n <= |tables|
    ensures Offset(tables[..n], k) == Offset(tables, k)
  {
    if k > 0 {
      OffsetPrefix(tables, n, k - 1);
    }
  }

  lemma {:induction false} OffsetMonotone(tables: seq<Table>, a: nat, b: nat)
    requires a <= b <= |tables|
    ensures Offset(tables, a) <= Offset(tables, b)
    decreases b
  {
    if a < b {
      OffsetMonotone(tables, a, b - 1);
    }
  }

  // ---------------------------------------------------------------- blank cells and empty rows

  /** The characters `\s` matches (ASCII whitespace). */
  predicate IsSpace(c: char)
  {
    c == ' ' || c == '\t' || c == '\n' || c == '\r' || c == '\U{C}' || c == '\U{B}'
  }

  /** Text matched by `^\s*$`: empty or whitespace only. */
  predicate Blank(s: string)
  {
    forall i :: 0 <= i < |s| ==> IsSpace(s[i])
  }

  function Unblank(v: Value): Value
  {
    if v.Text? && Blank(v.s) then Missing else v
  }

  /** `df.replace(r'^\s*$', np.nan, regex=True)` on one row. */
  function Normalize(r: Row): Row
  {
    map c | c in r :: Unblank(r[c])
  }

  /** `dropna(how='all')` drops a row whose every cell is missing. */
  predicate NotAllMissing(r: Row)
  {
    exists c :: c in r && r[c] != Missing
  }

  /** After normalization a cell is missing exactly when it was missing or blank text. */
  lemma NormalizeCell(r: Row, c: string)
    ensures Cell(Normalize(r), c) == Missing <==>
            Cell(r, c) == Missing || (Cell(r, c).Text? && Blank(Cell(r, c).s))
    ensures Cell(Normalize(r), c) != Missing ==> Cell(Normalize(r), c) == Cell(r, c)
  {
  }

  // ---------------------------------------------------------------- derived columns

  /** The location cell is one that `eval` turns into a record (or NaN, which is skipped). */
  predicate LocationParses(v: Value)
  {
    v.Missing? || v.Loc?
  }

  /** `float(eval(x)['latitude']) if pd.notnull(x) and 'latitude' in eval(x) else np.nan`. */
  function LatOf(v: Value): Value
  {
    if v.Loc? && v.location.latitude.Some? then Text(v.location.latitude.value) else Missing
  }

  function LngOf(v: Value): Value
  {
    if v.Loc? && v.location.longitude.Some? then Text(v.location.longitude.value) else Missing
  }

  /** `eval(x)['street']['name']` when both keys exist, else None. */
  function StreetNameOf(v: Value): Value
  {
    if v.Loc? && v.location.street.Some? && v.location.street.value.name.Some?
    then Text(v.location.street.value.name.value)
    else Missing
  }

  /** `pd.to_datetime(df['month'], errors='coerce').dt.year`. */
  function YearOf(v: Value): Value
  {
    if v.Text? && ParseToken(v.s).Some? then Number(ParseToken(v.s).value.year) else Missing
  }

  /** `pd.to_datetime(df['month'], errors='coerce').dt.month`. */
  function MonthNumOf(v: Value): Value
  {
    if v.Text? && ParseToken(v.s).Some? then Number(ParseToken(v.s).value.month) else Missing
  }

  // ---------------------------------------------------------------- category codes

  /** Python's string order: lexicographic by code point, a proper prefix first. */
  predicate StrLess(a: string, b: string)
  {
    if b == [] then false
    else if a == [] then true
    else if a[0] != b[0] then a[0] < b[0]
    else StrLess(a[1..], b[1..])
  }

  lemma {:induction false} StrLessIrreflexive(a: string)
    ensures !StrLess(a, a)
  {
    if a != [] {
      StrLessIrreflexive(a[1..]);
    }
  }

  lemma {:induction false} StrLessTransitive(a: string, b: string, c: string)
    requires StrLess(a, b) && StrLess(b, c)
    ensures StrLess(a, c)
  {
    if a != [] && a[0] == b[0] && b[0] == c[0] {
      StrLessTransitive(a[1..], b[1..], c[1..]);
    }
  }

  lemma {:induction false} StrLessTotal(a: string, b: string)
    requires a != b
    ensures StrLess(a, b) || StrLess(b, a)
  {
    if a != [] && b != [] && a[0] == b[0] {
      assert a == [a[0]] + a[1..] && b == [b[0]] + b[1..];
      StrLessTotal(a[1..], b[1..]);
    }
  }

  /** The distinct categories present (blank ones are missing by now). */
  function Categories(rows: seq<Row>): set<string>
  {
    set i | 0 <= i < |rows| && Cell(rows[i], "category").Text? :: Cell(rows[i], "category").s
  }

  /** The categories that sort before `s`. */
  function Below(cats: set<string>, s: string): set<string>
  {
    set x | x in cats && StrLess(x, s)
  }

  /**
    `astype('category').cat.codes`: a category's code is its position among
    the sorted distinct categories; a missing category gets -1.
   */
  function CodeOf(v: Value, cats: set<string>): int
  {
    if v.Text? then |Below(cats, v.s)| else -1
  }

  lemma SubsetCard<T>(a: set<T>, b: set<T>)
    requires a <= b
    ensures |a| <= |b|
    ensures a < b ==> |a| < |b|
  {
    assert b == a + (b - a);
    if a < b {
      var x :| x in b - a;
    }
  }

  /** Codes of categories lie in 0..k-1 for k distinct categories. */
  lemma CodeRange(cats: set<string>, s: string)
    requires s in cats
    ensures 0 <= CodeOf(Text(s), cats) < |cats|
  {
    StrLessIrreflexive(s);
    SubsetCard(Below(cats, s), cats);
  }

  /** Codes follow the sorted order of the categories. */
  lemma CodeOrder(cats: set<string>, a: string, b: string)
    requires a in cats && b in cats && StrLess(a, b)
    ensures CodeOf(Text(a), cats) < CodeOf(Text(b), cats)
  {
    forall x | x in Below(cats, a)
      ensures x in Below(cats, b)
    {
      StrLessTransitive(x, a, b);
    }
    StrLessIrreflexive(a);
    assert a in Below(cats, b) - Below(cats, a);
    SubsetCard(Below(cats, a), Below(cats, b));
  }

  /** Equal categories get equal codes and distinct categories distinct codes. */
  lemma CodeInjective(cats: set<string>, a: string, b: string)
    requires a in cats && b in cats
    ensures CodeOf(Text(a), cats) == CodeOf(Text(b), cats) <==> a == b
  {
    if a != b {
      StrLessTotal(a, b);
      if StrLess(a, b) {
        CodeOrder(cats, a, b);
      } else {
        CodeOrder(cats, b, a);
      }
    }
  }

  /** `["burglary", "theft", "burglary"]` is coded `[0, 1, 0]`. */
  lemma ExampleCodes()
    ensures var rows: seq<Row> := [map["category" := Text("burglary")], map["category" := Text("theft")],
                                   map["category" := Text("burglary")]];
            var cats := Categories(rows);
            CodeOf(Cell(rows[0], "category"), cats) == 0 &&
            CodeOf(Cell(rows[1], "category"), cats) == 1 &&
            CodeOf(Cell(rows[2], "category"), cats) == 0
  {
    var rows: seq<Row> := [map["category" := Text("burglary")], map["category" := Text("theft")],
                           map["category" := Text("burglary")]];
    var cats := Categories(rows);
    assert Cell(rows[0], "category") == Text("burglary");
    assert Cell(rows[1], "category") == Text("theft");
    assert cats == {"burglary", "theft"} by {
      forall s | s in cats
        ensures s == "burglary" || s == "theft"
      {
        var i :| 0 <= i < |rows| && Cell(rows[i], "category").Text? && Cell(rows[i], "category").s == s;
      }
    }
    assert StrLess("burglary", "theft");
    assert !StrLess("theft", "burglary");
    StrLessIrreflexive("burglary");
    StrLessIrreflexive("theft");
    assert Below(cats, "burglary") == {};
    assert Below(cats, "theft") == {"burglary"};
  }

  // ---------------------------------------------------------------- the cleaning pipeline

  /** Which source columns exist, and the categories to code. */
  datatype Plan = Plan(hasLocation: bool, hasMonth: bool, hasCategory: bool, categories: set<string>)

  /** The columns added by `clean_crime_data`, after the source columns. */
  function DerivedColumns(columns: seq<string>): seq<string>
  {
    var c1 := if "location" in columns
              then AddColumn(AddColumn(AddColumn(columns, "lat"), "lng"), "street_name")
              else columns;
    var c2 := if "month" in columns then AddColumn(AddColumn(c1, "year"), "month_num") else c1;
    if "category" in columns then AddColumn(c2, "category_code") else c2
  }

  /** The derived columns hold the source columns and the columns each source column gives rise to. */
  lemma DerivedColumnsMembers(columns: seq<string>, c: string)
    ensures c in DerivedColumns(columns) <==>
            || c in columns
            || ("location" in columns && (c == "lat" || c == "lng" || c == "street_name"))
            || ("month" in columns && (c == "year" || c == "month_num"))
            || ("category" in columns && c == "category_code")
  {
    var loc, month, cat := "location" in columns, "month" in columns, "category" in columns;
    var c1 := if loc then AddColumn(AddColumn(AddColumn(columns, "lat"), "lng"), "street_name") else columns;
    assert c in c1 <==> c in columns || (loc && (c == "lat" || c == "lng" || c == "street_name"));
    var c2 := if month then AddColumn(AddColumn(c1, "year"), "month_num") else c1;
    assert c in c2 <==> c in c1 || (month && (c == "year" || c == "month_num"));
  }

  /** One row after the derived columns are added. */
  function Derive(r: Row, plan: Plan): Row
  {
    var loc := Cell(r, "location");
    var month := Cell(r, "month");
    var r1 := if plan.hasLocation
              then r["lat" := LatOf(loc)]["lng" := LngOf(loc)]["street_name" := StreetNameOf(loc)]
              else r;
    var r2 := if plan.hasMonth then r1["year" := YearOf(month)]["month_num" := MonthNumOf(month)] else r1;
    if plan.hasCategory then r2["category_code" := Number(CodeOf(Cell(r, "category"), plan.categories))] else r2
  }

  /** `dropna(subset=['lat', 'lng', 'category', 'month'])` keeps the row. */
  predicate Required(r: Row)
  {
    Cell(r, "lat") != Missing && Cell(r, "lng") != Missing
    && Cell(r, "category") != Missing && Cell(r, "month") != Missing
  }

  /** The normalized, non-empty rows with their labels from the concatenated table. */
  function NonEmpty(t: Table): seq<Labeled<Row>>
  {
    Filter(MapRows(Enumerate(t.rows), Normalize), NotAllMissing)
  }

  function PlanOf(t: Table): Plan
  {
    Plan("location" in t.columns, "month" in t.columns, "category" in t.columns, Categories(Rows(NonEmpty(t))))
  }

  /** The kept rows before `reset_index`, still labelled by their position in `t.rows`. */
  function Selected(t: Table): seq<Labeled<Row>>
  {
    var plan := PlanOf(t);
    Filter(MapRows(NonEmpty(t), r => Derive(r, plan)), Required)
  }

  /** `clean_crime_data`. */
  function Clean(t: Table): Result<Cleaned, CleanError>
  {
    var rows := Rows(NonEmpty(t));
    if "location" in t.columns && !(forall i :: 0 <= i < |rows| ==> LocationParses(Cell(rows[i], "location")))
    then Err(LocationNotRecord)
    else
      var columns := DerivedColumns(t.columns);
      if !("lat" in columns && "lng" in columns && "category" in columns && "month" in columns)
      then Err(MissingColumns)
      else Ok(Cleaned(columns, ResetIndex(Selected(t))))
  }

  /** The row a source row becomes, and whether it survives. */
  function CleanRow(t: Table, r: Row): Row
  {
    Derive(Normalize(r), PlanOf(t))
  }

  predicate Survives(t: Table, r: Row)
  {
    NotAllMissing(Normalize(r)) && Required(CleanRow(t, r))
  }

  /** The non-empty rows are the normalized source rows with a present cell, in order. */
  lemma NonEmptySelects(t: Table) returns (keep: Row -> bool, g: Row -> Row)
    ensures forall r :: keep(r) == NotAllMissing(Normalize(r))
    ensures forall r :: g(r) == Normalize(r)
    ensures Selects(NonEmpty(t), t.rows, keep, g)
  {
    keep, g := r => NotAllMissing(Normalize(r)), Normalize;
    var e := Enumerate(t.rows);
    SelectsAll(t.rows, _ => true, (r: Row) => r);
    SelectsMap(e, t.rows, _ => true, (r: Row) => r, Normalize, Normalize);
    SelectsFilter(MapRows(e, Normalize), t.rows, _ => true, Normalize, NotAllMissing, r => NotAllMissing(Normalize(r)));
  }

  /**
    The cleaned rows are exactly the source rows that are not empty and have
    coordinates, category and month, each with its derived columns, in
    their original order.
   */
  lemma CleanSelects(t: Table) returns (keep: Row -> bool, g: Row -> Row)
    ensures forall r :: keep(r) == Survives(t, r)
    ensures forall r :: g(r) == CleanRow(t, r)
    ensures Selects(Selected(t), t.rows, keep, g)
  {
    keep, g := r => Survives(t, r), r => CleanRow(t, r);
    var plan := PlanOf(t);
    var keep1, g1 := NonEmptySelects(t);
    var ne := NonEmpty(t);
    SelectsMap(ne, t.rows, keep1, g1, r => Derive(r, plan), g);
    SelectsFilter(MapRows(ne, r => Derive(r, plan)), t.rows, keep1, g, Required, keep);
  }

  /**
    A successful clean has every row with coordinates, category and month,
    is indexed 0, 1, 2, ..., and holds the selected rows in order.
   */
  lemma CleanOutput(t: Table)
    requires Clean(t).Ok?
    ensures var c := Clean(t).value;
            && |c.rows| == |Selected(t)|
            && forall j :: 0 <= j < |c.rows| ==>
                 c.rows[j].index == j && c.rows[j].row == Selected(t)[j].row && Required(c.rows[j].row)
  {
  }

  /** Without a category or month column, or without any source of coordinates, cleaning fails. */
  lemma AbsentColumnsFail(t: Table)
    requires "category" !in t.columns || "month" !in t.columns
             || ("location" !in t.columns && ("lat" !in t.columns || "lng" !in t.columns))
    ensures Clean(t).Err?
  {
    DerivedColumnsMembers(t.columns, "lat");
    DerivedColumnsMembers(t.columns, "lng");
    DerivedColumnsMembers(t.columns, "category");
    DerivedColumnsMembers(t.columns, "month");
  }

  /**
    `lat`/`lng` are present exactly when the location is a record with a
    `latitude`/`longitude`; `street_name` only when it has `street.name`.
   */
  lemma DeriveLocation(r: Row, plan: Plan)
    requires plan.hasLocation
    ensures var d := Derive(r, plan); var v := Cell(r, "location");
            && (Cell(d, "lat") != Missing <==> v.Loc? && v.location.latitude.Some?)
            && (Cell(d, "lng") != Missing <==> v.Loc? && v.location.longitude.Some?)
            && (Cell(d, "street_name") != Missing <==>
                 v.Loc? && v.location.street.Some? && v.location.street.value.name.Some?)
  {
  }

  /**
    A row whose month does not parse gets no year or month number, yet it
    is kept when its coordinates, category and month text are present.
   */
  lemma UnparseableMonthKept(r: Row, plan: Plan)
    requires plan.hasMonth && Cell(r, "month").Text? && ParseToken(Cell(r, "month").s).None?
    ensures Cell(Derive(r, plan), "year") == Missing && Cell(Derive(r, plan), "month_num") == Missing
    ensures Cell(Derive(r, plan), "month") == Cell(r, "month")
    ensures (plan.hasLocation && LatOf(Cell(r, "location")) != Missing && LngOf(Cell(r, "location")) != Missing
             && Cell(r, "category") != Missing) ==> Required(Derive(r, plan))
  {
  }

  /** A parseable month yields its year and month number. */
  lemma ParsedMonth(r: Row, plan: Plan, ym: YearMonth)
    requires plan.hasMonth && ValidMonth(ym) && MinYear <= ym.year <= MaxYear
    requires Cell(r, "month") == Text(Token(ym))
    ensures Cell(Derive(r, plan), "year") == Number(ym.year)
    ensures Cell(Derive(r, plan), "month_num") == Number(ym.month)
  {
    ParseTokenOfToken(ym);
  }

  /**
    Among the kept rows (those `CleanOutput` shows are the cleaned table's),
    two rows with text categories have the same category code exactly when
    they have the same category, and codes follow the sorted order of the
    categories.
   */
  lemma OutputCodes(t: Table)
    requires "category" in t.columns
    ensures var sel := Selected(t);
            forall i, j :: 0 <= i < |sel| && 0 <= j < |sel| &&
                           Cell(sel[i].row, "category").Text? && Cell(sel[j].row, "category").Text? ==>
              && (Cell(sel[i].row, "category_code") == Cell(sel[j].row, "category_code") <==>
                  Cell(sel[i].row, "category") == Cell(sel[j].row, "category"))
              && (StrLess(Cell(sel[i].row, "category").s, Cell(sel[j].row, "category").s) ==>
                    Cell(sel[i].row, "category_code").n < Cell(sel[j].row, "category_code").n)
  {
    var sel := Selected(t);
    forall i, j | 0 <= i < |sel| && 0 <= j < |sel| &&
                  Cell(sel[i].row, "category").Text? && Cell(sel[j].row, "category").Text?
      ensures && (Cell(sel[i].row, "category_code") == Cell(sel[j].row, "category_code") <==>
                  Cell(sel[i].row, "category") == Cell(sel[j].row, "category"))
              && (StrLess(Cell(sel[i].row, "category").s, Cell(sel[j].row, "category").s) ==>
                    Cell(sel[i].row, "category_code").n < Cell(sel[j].row, "category_code").n)
    {
      var a := CodedRow(t, i);
      var b := CodedRow(t, j);
      CodeInjective(PlanOf(t).categories, a, b);
      if StrLess(a, b) {
        CodeOrder(PlanOf(t).categories, a, b);
      }
    }
  }

  /** The category and code of row `i` of the selection: a coded category and its code. */
  lemma CodedRow(t: Table, i: nat) returns (category: string)
    requires "category" in t.columns
    requires i < |Selected(t)| && Cell(Selected(t)[i].row, "category").Text?
    ensures category == Cell(Selected(t)[i].row, "category").s
    ensures category in PlanOf(t).categories
    ensures Cell(Selected(t)[i].row, "category_code") == Number(CodeOf(Text(category), PlanOf(t).categories))
  {
    var plan := PlanOf(t);
    var sel := Selected(t);
    var keep, g := CleanSelects(t);
    SelectedAt(sel, t.rows, keep, g, i);
    var l := sel[i].index;
    assert sel[i].row == CleanRow(t, t.rows[l]);
    var r := Normalize(t.rows[l]);
    DeriveCategory(r, plan);
    category := Cell(r, "category").s;
    var keep1, g1 := NonEmptySelects(t);
    var p := SelectedPosition(NonEmpty(t), t.rows, keep1, g1, l);
    CategoryListed(Rows(NonEmpty(t)), p);
  }

  /** A row without a category is coded -1 and then dropped. */
  lemma MissingCategoryDropped(t: Table, r: Row)
    requires "category" in t.columns && Cell(Normalize(r), "category") == Missing
    ensures Cell(CleanRow(t, r), "category_code") == Number(-1)
    ensures !Survives(t, r)
  {
    DeriveCategory(Normalize(r), PlanOf(t));
  }

  /** Deriving columns leaves the category alone and codes it when the column exists. */
  lemma DeriveCategory(r: Row, plan: Plan)
    ensures Cell(Derive(r, plan), "category") == Cell(r, "category")
    ensures plan.hasCategory ==>
              Cell(Derive(r, plan), "category_code") == Number(CodeOf(Cell(r, "category"), plan.categories))
  {
  }

  /** A text category of any row is one of the distinct categories. */
  lemma CategoryListed(rows: seq<Row>, p: nat)
    requires p < |rows| && Cell(rows[p], "category").Text?
    ensures Cell(rows[p], "category").s in Categories(rows)
  {
  }

  // ---------------------------------------------------------------- the script

  function Lift(r: Result<Cleaned, CleanError>): Result<Cleaned, ScriptError>
  {
    match r
    case Ok(c) => Ok(c)
    case Err(e) => Err(CleanFailed(e))
  }

  /** The outcome of reading each file in turn. */
  function ReadEach(files: seq<string>, read: string -> ReadResult): (r: seq<ReadResult>)
    ensures |r| == |files| && forall i :: 0 <= i < |r| ==> r[i] == read(files[i])
  {
    seq(|files|, i requires 0 <= i < |files| => read(files[i]))
  }

  /**
    Lines 11-52 for a given list of files: read each (`read` stands for
    `pd.read_csv`), stop when none could be read, otherwise clean their
    concatenation; the cleaned table is what is saved to `OutputPath`.
   */
  method CleanFiles(files: seq<string>, read: string -> ReadResult) returns (out: Result<Cleaned, ScriptError>)
    ensures out == Err(NoDataFiles) <==> forall i :: 0 <= i < |files| ==> read(files[i]) == Unreadable
    ensures out != Err(NoDataFiles) ==>
              out == Lift(Clean(Concat(Readable(ReadEach(files, read), |files|))))
  {
    var results := ReadEach(files, read);
    var tables := ReadAll(results);
    ReadableEmpty(results, |results|);
    if tables == [] {
      return Err(NoDataFiles);
    }
    var crimes := Concat(tables);
    match Clean(crimes) {
      case Ok(cleaned) =>
        out := Ok(cleaned);
      case Err(e) =>
        out := Err(CleanFailed(e));
    }
  }

  /**
    The cleaning script as written: the glob of line 8 selects every
    `bristol_crime_*.csv`, including the output file of an earlier run.
   */
  method CleanCrimeFiles(listing: seq<string>, read: string -> ReadResult)
    returns (files: seq<string>, out: Result<Cleaned, ScriptError>)
    ensures files == Matching(listing, GlobMatches)
    ensures OutputPath in listing ==> OutputPath in files
    ensures out == Err(NoDataFiles) <==> forall i :: 0 <= i < |files| ==> read(files[i]) == Unreadable
    ensures out != Err(NoDataFiles) ==>
              out == Lift(Clean(Concat(Readable(ReadEach(files, read), |files|))))
  {
    files := Matching(listing, GlobMatches);
    if OutputPath in listing {
      GlobRereadsOutput(listing);
    }
    out := CleanFiles(files, read);
  }

  /**
    The cleaning script with the selection corrected to the monthly files
    `bristol_crime_YYYY-MM.csv`: the output file is never read back.
   */
  method CleanMonthlyFiles(listing: seq<string>, read: string -> ReadResult)
    returns (files: seq<string>, out: Result<Cleaned, ScriptError>)
    ensures files == Matching(listing, MonthlyFile)
    ensures OutputPath !in files
    ensures out == Err(NoDataFiles) <==> forall i :: 0 <= i < |files| ==> read(files[i]) == Unreadable
    ensures out != Err(NoDataFiles) ==>
              out == Lift(Clean(Concat(Readable(ReadEach(files, read), |files|))))
  {
    files := Matching(listing, MonthlyFile);
    MonthlySkipsOutput(listing);
    out := CleanFiles(files, read);
  }
}
