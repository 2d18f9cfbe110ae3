# Bristol crime and weather data scripts, modelled in Dafny

Three batch scripts collect and prepare data for crime analysis in Bristol:

- `fetch_bristol_crime_data.py` lists every month from 2010-01 to the current
  month. For each month it asks the police street-crime API for that month's
  crimes and overwrites `Data/bristol_crime_<YYYY-MM>.csv`.
- `fetch_bristol_weather_data.py` walks the same month window. For each month
  it computes the first and last day, asks the Open-Meteo archive for daily
  weather, and assembles records from the response's parallel arrays. The
  records are then deduplicated by date and renumbered.
- `clean_bristol_crime_data.py` reads every file matching
  `Data/bristol_crime_*.csv` and concatenates them. It blanks empty cells, drops empty rows, derives
  coordinates, street name, year, month number and a category code, keeps
  only the rows with coordinates, category and month, and renumbers them.

The model has these modules:

- `Calendar` covers months, dates and their text.
  - Gregorian leap rules and ordinal day numbers.
  - `strftime('%Y-%m')`, `str.split` and a fixed-shape `strptime`.
  - The "first day of next month minus one day" step.
- `Decimal` holds zero-padded digit strings and their values.
- `Months` holds the month-window loop shared by both fetchers, with the
  end month as a parameter.
- `Frame` models a pandas frame as a sequence of rows, each carrying its
  index label. It covers filtering, deriving columns, `drop_duplicates`
  (which keeps the first row of each key) and `reset_index`.
- `CrimeFetch` models the file-writing loop over a `map` from path to file.
- `WeatherFetch` models record assembly and the final table.
- `CrimeClean` models file discovery, reading, concatenation and `clean_crime_data`.

The HTTP responses, the directory listing and the outcome of reading each
file are parameters. Each script is a method whose postcondition ties its
results to specification functions, and lemmas prove the properties of those
functions.

Category codes follow the code. `astype('category').cat.codes` numbers the
distinct categories in their sorted order, not in the order they first
appear. The model does the same (`CrimeClean.CodeOf`), and
`["burglary", "theft", "burglary"]` is coded `[0, 1, 0]` (`CrimeClean.ExampleCodes`).

## Model

| member | source | states |
|---|---|---|
| Decimal.ValueShow | fetch_bristol_weather_data.py:38 | `int()` of the decimal text of `n` is `n` |
| Decimal.ParsePadded | fetch_bristol_weather_data.py:40 | reading a zero-padded field back gives the number that was padded |
| Decimal.PaddedLength | fetch_bristol_crime_data.py:27 | a number below 10^w is padded to exactly w digits |
| Decimal.PaddedInjective | fetch_bristol_crime_data.py:27 | distinct numbers that fit in w digits have distinct padded texts |
| Calendar.Next | fetch_bristol_crime_data.py:29-32 | the month after a valid month is valid and one month later; December rolls over to January of the next year |
| Calendar.NotAfterIsOrdinalOrder | fetch_bristol_crime_data.py:26 | comparing day-1 datetimes is comparing months in time order |
| Calendar.OrdinalInjective | fetch_bristol_crime_data.py:29-32 | two valid months at the same position in time are the same month |
| Calendar.YearLength | fetch_bristol_weather_data.py:46 | the day count of a year is 366 exactly in Gregorian leap years, else 365 |
| Calendar.PreviousDay | fetch_bristol_weather_data.py:46 | subtracting one day gives a valid date whose day number is one less |
| Calendar.DayBeforeNextMonth | fetch_bristol_weather_data.py:37-46 | the day before the first of the next month is the month's last day (31/30, or 28/29 for February) |
| Calendar.ParseDate | fetch_bristol_weather_data.py:46 | `strptime('%Y-%m-%d')` only yields valid dates |
| Calendar.ParseDateText | fetch_bristol_weather_data.py:46 | parsing a formatted date gives the same date back |
| Calendar.ParseToken | clean_bristol_crime_data.py:37 | a parsed `YYYY-MM` month is a valid month |
| Calendar.ParseTokenOfToken | clean_bristol_crime_data.py:37-38 | parsing a month's token gives that month's year and month back |
| Calendar.TokenInjective | fetch_bristol_crime_data.py:27 | distinct months have distinct `YYYY-MM` tokens |
| Calendar.SplitNone | fetch_bristol_weather_data.py:34 | text without the separator splits into itself alone |
| Calendar.SplitAt | fetch_bristol_weather_data.py:34 | splitting at the first separator gives the part before it followed by the split of the rest |
| Calendar.SplitToken | fetch_bristol_weather_data.py:34 | splitting a token on `-` gives exactly the padded year and month |
| Months.GenerateMonths | fetch_bristol_crime_data.py:21-32 | the while loop produces exactly the tokens of months 2010-01 through the end month |
| Months.FirstMonthIsStart | fetch_bristol_crime_data.py:22 | the first token is `2010-01` |
| Months.MonthAt | fetch_bristol_crime_data.py:22-32 | the i-th month of the window, each the calendar successor of the one before, is a valid month exactly i months after 2010-01 |
| Months.Tokens | fetch_bristol_crime_data.py:26-27 | the token list of the first n months has n entries, entry i being the token of month i |
| Months.MapMonthsAt | fetch_bristol_weather_data.py:33-49 | entry i of a per-month list built along the window is the value for month i |
| Months.LastMonthIsEnd | fetch_bristol_crime_data.py:26 | the end month itself is the last month (inclusive end) |
| Months.CountFormula | fetch_bristol_crime_data.py:24-32 | the window holds (endYear-2010)*12 + endMonth months |
| Months.MonthsIncrease | fetch_bristol_crime_data.py:24-32 | months strictly increase along the window, so there are no duplicates |
| Months.MonthInWindow | fetch_bristol_crime_data.py:26 | every month of the window is a valid month between 2010-01 and the end month |
| Months.TokensDistinct | fetch_bristol_crime_data.py:27 | the window's tokens are pairwise distinct |
| Months.ExampleFourMonths | fetch_bristol_crime_data.py:24-32 | an end of 2010-04 gives `2010-01` to `2010-04` |
| Months.ExampleRollover | fetch_bristol_crime_data.py:29-30 | the month after `2010-12` is `2011-01` |
| Frame.ResetIndex | fetch_bristol_weather_data.py:74 | the same rows in the same order, labelled 0, 1, 2, ... |
| Frame.Filter | fetch_bristol_weather_data.py:72 | a row is kept if and only if it passes the test, with its label |
| Frame.FilterIncreasing | fetch_bristol_weather_data.py:72 | filtering preserves the relative order of rows |
| Frame.SelectsFilter | clean_bristol_crime_data.py:43 | filtering a selection of the source rows selects the rows that also pass the filter |
| Frame.SelectsMap | clean_bristol_crime_data.py:32-41 | deriving columns on a selection composes with the earlier derivations |
| Frame.DropSeenDistinct | fetch_bristol_weather_data.py:73 | after `drop_duplicates` each key occurs at most once |
| Frame.DropSeenIncreasing | fetch_bristol_weather_data.py:73 | `drop_duplicates` keeps the surviving rows in their original order |
| Frame.DropSeenAt | fetch_bristol_weather_data.py:73 | row i survives exactly when neither an already seen key nor any earlier row has its key |
| Frame.DropSeenFirst | fetch_bristol_weather_data.py:73 | a row survives `drop_duplicates` if and only if no earlier row has its key; order is preserved |
| Frame.DropDuplicatesKeepsKeys | fetch_bristol_weather_data.py:73 | every key present before deduplication is still present after it |
| CrimeFetch.CrimePathInjective | fetch_bristol_crime_data.py:36 | distinct months are written to distinct paths |
| CrimeFetch.Lookup | fetch_bristol_crime_data.py:53 | a record has a value for exactly the keys it holds, and that value is the one the record pairs with the key |
| CrimeFetch.CsvRow | fetch_bristol_crime_data.py:51-53 | a record is writable exactly when all its keys are header fields; its row has one cell per field, cell j being the record's value for header field j, or empty text when the record lacks that key |
| CrimeFetch.CsvRows | fetch_bristol_crime_data.py:53 | `writerows` writes the records in order and stops at the first one with a key outside the header |
| CrimeFetch.FirstRecordFits | fetch_bristol_crime_data.py:49-53 | the first record always fits the header taken from its own keys |
| CrimeFetch.FetchCrimeData | fetch_bristol_crime_data.py:35-59 | the for loop applies each month's response to the file system in order and logs each month's outcome |
| CrimeFetch.ApplyFrame | fetch_bristol_crime_data.py:36-56 | one month's iteration changes no file other than that month's |
| CrimeFetch.ApplyWrites | fetch_bristol_crime_data.py:47-54 | a non-empty response writes the month's file with the first record's keys as header and one row per written record; it reports success exactly when all records were written |
| CrimeFetch.ApplyNoWrite | fetch_bristol_crime_data.py:55-58 | an empty or failed response leaves the file system unchanged, and only a failure is reported as an error |
| CrimeFetch.RunFrame | fetch_bristol_crime_data.py:35-59 | a path that no month names is never modified |
| CrimeFetch.RunMonth | fetch_bristol_crime_data.py:35-59 | after the loop, each month's file is determined by that month's response alone |
| CrimeFetch.CrimeFetcher | fetch_bristol_crime_data.py:21-59 | the whole script: each window month's file is the one its response wrote (or the old one), every other path is unchanged, and every month is logged |
| WeatherFetch.NextMonthStartDecember | fetch_bristol_weather_data.py:37-38 | December's next-month start is 1 January of the next year |
| WeatherFetch.NextMonthStartOther | fetch_bristol_weather_data.py:39-40 | other months' next-month start is day 1 of the following month |
| WeatherFetch.WindowOfMonth | fetch_bristol_weather_data.py:34-46 | the request for a month's token spans its first day to its last day |
| WeatherFetch.AppendDaily | fetch_bristol_weather_data.py:55-64 | records are appended in index order, pairing `time[i]` with element i of each array; a short array stops the loop after the records already appended, and success means all of `time` was used |
| WeatherFetch.AppendedDayRecords | fetch_bristol_weather_data.py:55-64 | the appended records are exactly the month's day records after the accumulator |
| WeatherFetch.FetchMonth | fetch_bristol_weather_data.py:33-67 | one month: the request spans its first to last day, its records extend the accumulator and its outcome is logged |
| WeatherFetch.Outcomes | fetch_bristol_weather_data.py:65-67 | the report for the first n months has one entry per month, entry i being that month's outcome |
| WeatherFetch.WeatherFetcher | fetch_bristol_weather_data.py:20-74 | the whole script: request i is the first-to-last-day window of window month i, every month is logged with its own outcome, and the table is the cleaned accumulation of all responses in month order |
| WeatherFetch.TableIndexContiguous | fetch_bristol_weather_data.py:74 | the output index runs 0, 1, 2, ... |
| WeatherFetch.TableDatesUnique | fetch_bristol_weather_data.py:73 | no date occurs twice in the output |
| WeatherFetch.DroppedEmptyRows | fetch_bristol_weather_data.py:72 | exactly the rows with every field missing are dropped, order kept |
| WeatherFetch.KeepsFirstOfEachDate | fetch_bristol_weather_data.py:72-73 | a dated record survives if and only if no earlier record has its date; surviving rows are unchanged and in order |
| WeatherFetch.KeepsEveryDate | fetch_bristol_weather_data.py:72-74 | every date that occurs in the records occurs in the output |
| CrimeClean.Matching | clean_bristol_crime_data.py:8 | the selected names are exactly the listed names that match |
| CrimeClean.GlobRereadsOutput | clean_bristol_crime_data.py:8 | the glob as written matches the script's own output file |
| CrimeClean.MonthlySkipsOutput | clean_bristol_crime_data.py:8 | selecting monthly files never selects the output file |
| CrimeClean.MonthlyFindsCrimeFiles | clean_bristol_crime_data.py:8 | selecting monthly files still finds every file the crime fetcher writes |
| CrimeClean.ReadAll | clean_bristol_crime_data.py:11-17 | the read loop keeps the tables that were read, in order, and skips failures |
| CrimeClean.ReadableMembers | clean_bristol_crime_data.py:12-17 | every table that was read is used, and nothing else is |
| CrimeClean.ReadableEmpty | clean_bristol_crime_data.py:19-21 | there is nothing to clean exactly when no file could be read |
| CrimeClean.UnionColumns | clean_bristol_crime_data.py:23 | the concatenated columns are exactly the columns of either side |
| CrimeClean.ConcatLength | clean_bristol_crime_data.py:23 | the concatenation has as many rows as all tables together |
| CrimeClean.ConcatRowAt | clean_bristol_crime_data.py:23 | row j of table k is row offset(k)+j of the concatenation (read order is kept) |
| CrimeClean.ConcatColumn | clean_bristol_crime_data.py:23 | every column of every table is a column of the concatenation |
| CrimeClean.ConcatColumnSource | clean_bristol_crime_data.py:23 | every column of the concatenation is a column of some table |
| CrimeClean.AbsentEverywhereFails | clean_bristol_crime_data.py:23-43 | when no file read has a `category` (or `month`) column, the concatenation lacks it and cleaning fails |
| CrimeClean.NormalizeCell | clean_bristol_crime_data.py:28 | a cell becomes missing exactly when it was missing or empty/whitespace text; other cells are unchanged |
| CrimeClean.NonEmptySelects | clean_bristol_crime_data.py:28-29 | the non-empty rows are the normalized rows with some present cell, in order and labelled by source position |
| CrimeClean.StrLessIrreflexive | clean_bristol_crime_data.py:41 | no category sorts before itself |
| CrimeClean.StrLessTransitive | clean_bristol_crime_data.py:41 | string order is transitive |
| CrimeClean.StrLessTotal | clean_bristol_crime_data.py:41 | of two distinct categories one sorts first |
| CrimeClean.CodeRange | clean_bristol_crime_data.py:41 | a category's code lies in 0..k-1 for k distinct categories |
| CrimeClean.CodeOrder | clean_bristol_crime_data.py:41 | codes follow the sorted order of categories |
| CrimeClean.CodeInjective | clean_bristol_crime_data.py:41 | equal categories get equal codes and distinct categories distinct codes |
| CrimeClean.ExampleCodes | clean_bristol_crime_data.py:41 | `burglary, theft, burglary` is coded `0, 1, 0` |
| CrimeClean.DerivedColumnsMembers | clean_bristol_crime_data.py:31-41 | the output columns are the input columns plus those that `location`, `month` and `category` give rise to |
| CrimeClean.CleanSelects | clean_bristol_crime_data.py:26-45 | the kept rows are exactly the non-empty source rows with lat, lng, category and month, each with its derived columns, in source order |
| CrimeClean.CleanOutput | clean_bristol_crime_data.py:43-45 | a successful clean is indexed from 0 and every row has lat, lng, category and month |
| CrimeClean.AbsentColumnsFail | clean_bristol_crime_data.py:43 | without a category or month column, or without any source of coordinates, the required-field filter fails |
| CrimeClean.DeriveLocation | clean_bristol_crime_data.py:31-34 | lat/lng are present exactly when the location has latitude/longitude; street_name only when it has street.name |
| CrimeClean.UnparseableMonthKept | clean_bristol_crime_data.py:36-43 | an unparseable month gives missing year and month_num but does not by itself drop the row |
| CrimeClean.ParsedMonth | clean_bristol_crime_data.py:36-38 | a `YYYY-MM` month gives its year and month number |
| CrimeClean.OutputCodes | clean_bristol_crime_data.py:41 | among the kept rows, codes are equal exactly when categories are equal, and they follow the category order |
| CrimeClean.CodedRow | clean_bristol_crime_data.py:41 | a kept row's category is one of the coded categories and its code is that category's rank |
| CrimeClean.MissingCategoryDropped | clean_bristol_crime_data.py:41-43 | a row without a category is coded -1 and then dropped |
| CrimeClean.DeriveCategory | clean_bristol_crime_data.py:41 | deriving columns leaves the category unchanged and codes it when the column exists |
| CrimeClean.CategoryListed | clean_bristol_crime_data.py:41 | a text category of any row is one of the distinct categories |
| CrimeClean.CleanFiles | clean_bristol_crime_data.py:11-52 | reading the given files: it stops when none could be read; otherwise the output is the clean of the concatenation of the tables read, in order |
| CrimeClean.CleanCrimeFiles | clean_bristol_crime_data.py:8-52 | the whole script as written: it selects every listed name the glob matches, so the output file of an earlier run is read back whenever it is present, then cleans as `CleanFiles` |
| CrimeClean.CleanMonthlyFiles | clean_bristol_crime_data.py:8-52 | the script with the corrected selection: only monthly files are read, never the output file, then cleaned as `CleanFiles` |

## Left out

- HTTP requests, timeouts, `raise_for_status` and JSON decoding. Each month's response is a parameter: a failure, or the decoded data.
- `time.sleep`, `os.makedirs`, console output and the final "Done" messages.
- `datetime.now()`: the end month is a parameter. Only its year and month matter, because `current` is always day 1 at midnight.
- Months.GenerateMonths: the end month 9999-12 is excluded. There the source's `replace(year=10000)` raises before the loop can stop, so the script crashes.
- The order in which `glob` lists files. The directory listing is a parameter and is used in the order given.
- CSV byte encoding, quoting and type inference by `csv.DictWriter`, `read_csv` and `to_csv`. A file is a header plus rows of text, and `read_csv`'s result is a parameter per file.
- The stored `location` text is not evaluated. A location cell is either missing, an already parsed record (`CrimeClean.Loc`), or other text or a number, and every cell of those last two kinds is reported as `LocationNotRecord`. This agrees with the script where `eval` fails or the key test raises, but not for text that `eval` turns into a container without those keys (such as `"[]"`): there the script carries on with missing coordinates and street name.
- `float()` of coordinates and all weather measurements. They are kept as opaque text, so a coordinate that `float()` rejects is not modelled.
- `pd.to_datetime` is modelled only for `YYYY-MM` text with a year from 1 to 9999. Any other value gives a missing year and month. pandas' own Timestamp range (1677 to 2262) is not modelled.
- `\s` is taken to be ASCII whitespace. Other Unicode whitespace that Python's `re` also matches is not treated as blank.
- CrimeClean.CodeOf: only text categories are coded. A non-text category, which only a column of numbers read by `read_csv` would produce, gets -1 here but a rank in pandas.
- WeatherFetch.WindowOfMonth: proved for years 1000 to 9999, where `str(int(year)+1)` has four digits as `strptime` expects.
- Writing the weather table and the cleaned crime table to CSV. The scripts' results are returned as values.

## Findings

| source | as written | input that shows it | evidently intended | confidence | as-written member | corrected member |
|---|---|---|---|---|---|---|
| clean_bristol_crime_data.py:8 | the cleaner reads every `Data/bristol_crime_*.csv` and saves its result as `Data/bristol_crime_ml_ready.csv` (line 51), which that pattern also matches | a second run, with `bristol_crime_ml_ready.csv` left in `Data` by the first: the previous cleaned rows are concatenated with the monthly files and cleaned again, so they appear twice | read only the monthly files `bristol_crime_YYYY-MM.csv` | high that the pattern matches; medium that it is unintended; not executed | CrimeClean.CleanCrimeFiles | CrimeClean.CleanMonthlyFiles |

`CrimeClean.CleanCrimeFiles` models the script as written, and `CrimeClean.GlobRereadsOutput` shows that its glob matches the output file. `CrimeClean.CleanMonthlyFiles` uses the corrected selection: `CrimeClean.MonthlySkipsOutput` shows that it never reads the output file, and `CrimeClean.MonthlyFindsCrimeFiles` that it still finds every file the crime fetcher writes.
