# SQM logistics dashboard: a Dafny model of its data core

The dashboard loads spreadsheet exports of truck dispatches and truck arrivals and turns
them into key figures, charts and tables. This project models the part of it that does
the computing, and proves properties of that model:

- **Cell coercion** (`DataProcessor`): `cleanNumeric`, `parseExcelTime` and
  `formatHoursToTime`, including the round trip from a clock text `h:mm` to hours and
  back.
- **The operational report** (`OperationalReport`, with worked header rows in
  `OperationalExamples`): the column map found by substring search in header row 0
  with fixed fallback columns, the reading of every row into a dispatch record, the
  list of dates (latest first), the records of the selected date, the product list,
  the KPI cards and the averages sent with an analysis request. The component state
  (`rawData`, `selectedDate`) is the class `Dashboard`.
- **The arrivals report** (`ArrivalsReport`, `ArrivalsCharts`): the search for the
  header row in the first ten rows, its own date and hour parsers, the rejection rules,
  the company and destination selectors, and the selector state as the class
  `ArrivalsBoard`. Then the views: the filtered arrivals, the hourly chart buckets
  (built by in-place counting, as in the source), the hour-by-destination table and its
  footer totals.
- **The product detail section** (`ProductDetail`): the per-product figures (zero-guarded
  ratios, averages over positive durations only), the most frequent destination counted
  by a `forEach` into a dictionary, and the status badge.
- **The chart card** (`ChartCard`): the `H:MM` formatter, the group-by-key `reduce` that
  fills an accumulator of groups in place, the sum or average per axis, the descending
  sort, the top ten, and the deviation table.
- **Shared primitives**: JavaScript strings (`JsString`: `trim`, `toUpperCase`,
  `includes`, `split`, `padStart`, integer rendering, `replace`); numbers read from text
  (`JsNumber`: `parseFloat`, `parseInt` and `Number` as prefix parsers over a decimal
  literal grammar); sequences (`Seqs`: filter, filter-map, sums, averages over the positive
  entries, de-duplication in insertion order, the default string order and sorting);
  calendar dates (`CivilDate`: the spreadsheet serial day, with its 25569-day offset, as a
  day count since 1970-01-01, turned into a proleptic Gregorian date by H. Hinnant's
  `civil_from_days`, and `toISOString().split('T')[0]`); and cells (`Cells`: the decoded
  cell value, JavaScript truthiness, `String(x || fallback)` and `getIdx`).

Numbers are mathematical reals and integers. Renderings that the model cannot see are
fields of a `Host` value passed to the operations that need them: `String(x)` of a
non-integral number, `String(x)` of a date cell, and the imported `normalizeCompanyName`.
An integral number renders as its decimal digits in the model itself. Where the source
mutates a local dictionary in a loop (`chartData`, `pivotTable`, the destination count,
the `reduce` of the chart card) the model is a method with a loop over `map` values,
proved against a function or predicate on the inputs.

Three operations are generalised so that their proofs stay small, with the source's own
case as an instance:

- the chart card's grouping takes the key of a record (`KeyFn`) and the number read
  from a field (`ValFn`) as parameters;
- `HourBuckets` takes the hour label as a parameter;
- the longest-prefix search of `parseFloat` takes the predicate on prefixes as a
  parameter.

`AggregatedData` instantiates them with `String(item[x] || 'S/D').trim()` and
`Number(item[y]) || 0`, and `ChartData` passes the hour label `HH:00`.

The operational report finds the tonnage columns by the tokens `TON_PROG` and
`TON_REAL`. A header written with a space, such as `TON PROG`, does not contain them,
so such a sheet reads the fallback columns 33 and 34. The model follows the code here.
`OperationalExamples.SpacedHeaders` and `OperationalExamples.UnderscoreHeaders` work
through both header spellings.

A blank cell in a header row is a hole of the decoded array. `map` keeps the hole, and
`findIndex` still visits it and calls `includes` on `undefined`, which throws. So the
lookup of any field whose first match lies after a blank header cell throws. Both reports
catch the error and keep their state. The model scans the header array with its holes
(`Cells.ScanHeader`), and both loads fail with a header-hole error when any lookup
reaches a hole (`OperationalExamples.HoleBeforeProducto` is such a sheet).

## Model

| member | source | states |
|---|---|---|
| JsString.Trim | components/App.tsx:73 | `trim` leaves no white space at either end and never lengthens the text |
| JsString.TrimStart | components/App.tsx:73 | the leading white space is dropped: the result is a suffix and everything before it is white space |
| JsString.TrimEnd | components/App.tsx:73 | the trailing white space is dropped: the result is a prefix and everything after it is white space |
| JsString.TrimIsInfix | components/App.tsx:73 | `trim(s)` is the infix of `s` left after removing a white-space prefix and a white-space suffix |
| JsString.TrimKeeps | components/App.tsx:107 | any property of every character of a text holds of every character of its trim |
| JsString.TrimNoSpace | components/App.tsx:108 | a text that neither starts nor ends with white space is its own trim |
| JsString.Upper | components/App.tsx:73 | `toUpperCase` keeps the length and maps every character to its upper case |
| JsString.UpperIsUpper | components/App.tsx:107 | an upper-cased text has no lower-case ASCII letter, and upper-casing it again changes nothing |
| JsString.Lower | components/ChartCard.tsx:80 | `toLowerCase` keeps the length and maps every character to its lower case |
| JsString.ContainsIff | components/App.tsx:75 | `includes` holds exactly when the token occurs at some position |
| JsString.MissingChar | components/App.tsx:75 | a header lacking one character of the token does not contain the token |
| JsString.IndexOfAny | components/LlegadaEquipos.tsx:101 | the first position holding a separator, or the length when there is none |
| JsString.SplitAny | components/LlegadaEquipos.tsx:101 | `split` gives one more part than there are separators, and no part holds a separator |
| JsString.SplitJoin | utils/dataProcessor.ts:19 | joining the parts of a split on one character with that character gives the text back |
| JsString.PadStart2 | components/LlegadaEquipos.tsx:103-104 | `padStart(2, '0')`: texts of two or more characters are kept, shorter ones get leading zeros up to two characters |
| JsString.PadZeros | components/App.tsx:98 | left padding with zeros to a width: the original text is the suffix and the rest is zeros |
| JsString.NatToString | utils/dataProcessor.ts:34 | the rendering of a natural number is non-empty, all digits, without a leading zero |
| JsString.IntToString | utils/dataProcessor.ts:34 | a negative integer renders as a minus sign and the rendering of its magnitude |
| JsString.ReplaceFirst | utils/dataProcessor.ts:4 | `replace(',', '.')` with a string pattern changes only the first comma and keeps the length |
| JsString.KeepOnly | utils/dataProcessor.ts:4 | the global character-class `replace` keeps exactly the allowed characters, in order |
| JsString.KeepOnlyAppend | utils/dataProcessor.ts:4 | that filtering distributes over concatenation |
| JsNumber.ParseFloat | utils/dataProcessor.ts:5 | `parseFloat` fails exactly when no non-empty prefix of the text after leading white space is a decimal literal |
| JsNumber.ParseFloatValue | utils/dataProcessor.ts:5 | otherwise it yields the value of the longest such prefix |
| JsNumber.LongestPrefixUpTo | utils/dataProcessor.ts:5 | the longest prefix satisfying a predicate: it satisfies it and no longer prefix does |
| JsNumber.ParseInt | utils/dataProcessor.ts:21-23 | `parseInt` fails exactly when no digit follows the optional sign after leading white space |
| JsNumber.ParseIntValue | utils/dataProcessor.ts:21-23 | otherwise it yields the value of the digit run, negated after a minus sign |
| JsNumber.ParseIntOfDigits | utils/dataProcessor.ts:21 | `parseInt` of a text of digits is its decimal value |
| JsNumber.ParseIntOfRendered | utils/dataProcessor.ts:21-22 | `parseInt` reads back a rendered natural number, also when padded to two digits |
| JsNumber.NatToStringValue | utils/dataProcessor.ts:34 | the decimal value of the rendering of `n` is `n` |
| JsNumber.DigitsAreLiteral | utils/dataProcessor.ts:5 | a text of digits is a decimal literal worth its decimal value |
| JsNumber.ToNumber | components/LlegadaEquipos.tsx:116 | `Number` of a blank text is 0; otherwise it is defined exactly when the trimmed text is a decimal literal |
| JsNumber.ToNumberOfRendered | components/LlegadaEquipos.tsx:116 | `Number` reads back a rendered natural number |
| Seqs.Filter | components/App.tsx:153 | `filter` keeps exactly the elements satisfying the predicate and is no longer than its input |
| Seqs.FilterAppend | components/App.tsx:153 | filtering distributes over concatenation, so order is kept |
| Seqs.FilterMap | components/App.tsx:94-119 | `map` to a record or null followed by dropping the nulls: exactly the images of the kept elements |
| Seqs.FilterMapAppend | components/App.tsx:94-119 | that `map` then `filter` distributes over concatenation, so order is kept |
| Seqs.CountIsFilterLength | components/LlegadaEquipos.tsx:183-188 | counting the elements satisfying a predicate is the length of their filter |
| Seqs.SumOfAppend | components/App.tsx:159-163 | a `reduce` sum over a concatenation is the sum of the sums |
| Seqs.SumOfNonNegative | components/App.tsx:159-163 | a sum of non-negative terms is non-negative, and positive when one term is |
| Seqs.Positives | components/App.tsx:165-166 | `filter(v => v > 0)` keeps exactly the positive entries |
| Seqs.PositivesAppend | components/App.tsx:165-166 | that filter distributes over concatenation |
| Seqs.PositiveMean | components/App.tsx:167-168 | the average of the positive entries, 0 when there are none, is never negative and is positive exactly when some entry is |
| Seqs.PositiveMeanTimesCount | components/App.tsx:167-168 | that average times the number of positive entries is their sum |
| Seqs.PositiveMeanPositive | components/App.tsx:167-168 | the average is positive exactly when some entry is positive |
| Seqs.PositiveMeanIgnoresNonPositive | components/App.tsx:165-168 | adding a non-positive entry at either end does not change the average |
| Seqs.Dedup | components/App.tsx:122 | `[...new Set(xs)]` has no repeated element and the same elements as `xs` |
| Seqs.DedupSnoc | components/App.tsx:122 | that de-duplication keeps first-occurrence order: one more element is appended exactly when it is new |
| Seqs.DistinctOccurrences | components/ProductDetailSection.tsx:43-47 | in a list without repetition every element occurs once |
| Seqs.OccurrenceTotalAll | components/ProductDetailSection.tsx:43-47 | the occurrence counts of the elements of a list, over distinct keys covering them, add up to its length |
| Seqs.FilterDistinct | components/LlegadaEquipos.tsx:290 | filtering a list without repetition leaves one without repetition |
| Seqs.StrLessIrreflexive | components/App.tsx:122 | the default `sort` order of strings is irreflexive |
| Seqs.StrLessTransitive | components/App.tsx:122 | that order is transitive |
| Seqs.StrLessTotal | components/App.tsx:122 | any two different strings are ordered one way or the other |
| Seqs.AscendingDistinct | components/App.tsx:154 | a strictly ascending list has no repetition |
| Seqs.InsertString | components/App.tsx:154 | insertion into a sorted list keeps it sorted and adds exactly the new element |
| Seqs.SortStrings | components/App.tsx:154 | `sort()` of strings gives a sorted permutation of its input |
| Seqs.SortedDistinct | components/App.tsx:154 | `[...new Set(xs)].sort()` is strictly ascending with the same elements as `xs` |
| Seqs.Reverse | components/App.tsx:122 | `reverse()` puts element `i` at position `n-1-i` |
| Seqs.DescendingDistinct | components/App.tsx:122 | `[...new Set(xs)].sort().reverse()` is strictly descending with the same elements as `xs` |
| CivilDate.DivModUnique | components/App.tsx:100 | Euclidean quotient and remainder are unique, which the day arithmetic relies on |
| CivilDate.EraSplit | components/App.tsx:100-101 | within a 400-year era the year of the era and the day of the year stay in range, and day 365 happens only in a leap year |
| CivilDate.MonthSplit | components/App.tsx:100-101 | the month and day computed from the day of a March-based year are in range for that month |
| CivilDate.CivilFromDaysCorrect | components/App.tsx:100-101 | the date of every day count is a valid calendar date, and counting its days gives the day count back |
| CivilDate.EpochDay | components/App.tsx:100 | day 0 is 1970-01-01 |
| CivilDate.Trunc | components/App.tsx:100 | the `Date` constructor truncates a time value toward zero |
| CivilDate.SerialTimeValue | components/App.tsx:100-101 | a serial day gives a time value exactly when its millisecond product lies within the valid `Date` range, and the value stays in that range |
| CivilDate.SerialToIsoDate | components/App.tsx:99-101 | a serial day gives a date exactly when its time value is valid, and the date is that of its day |
| CivilDate.SerialDay | components/App.tsx:100 | the day of a serial `n` is `floor(n - 25569)` days after the epoch, and `n - 25569` for a whole number |
| CivilDate.Serial45292 | components/App.tsx:99-101 | serial day 45292 is 2024-01-01 and 45293 is 2024-01-02 |
| CivilDate.SerialOfDay | components/App.tsx:99-101 | a whole serial day within range gives the ISO date of its day count |
| Cells.CellString | components/App.tsx:107 | `String(c)` of a text is the text, of a whole number of magnitude below 10^21 its decimal digits, and of any other number the host's rendering |
| Cells.StringOr | components/App.tsx:107-108 | `String(c || fallback)` is the fallback for a falsy cell and `String(c)` otherwise |
| Cells.CellAt | components/App.tsx:97 | `row[i]` is the cell inside the row and undefined beyond it |
| Cells.HeaderNames | components/App.tsx:73 | every header cell becomes `String(h || '').toUpperCase().trim()`, one per cell |
| Cells.FindHeader | components/App.tsx:75 | `findIndex` gives the first header containing the token, or none when no header does |
| Cells.GetIdx | components/App.tsx:74-77 | on the header texts, `getIdx` gives the first header containing the upper-cased name when one exists, and the fallback otherwise |
| Cells.HeaderSlots | components/App.tsx:73 | the mapped header array keeps a hole exactly where the row has one, and the normalised text everywhere else |
| Cells.ScanHeader | components/App.tsx:75 | `findIndex` stops at the first header containing the token, or at a hole before it, where `includes` on `undefined` throws, or runs past the end when every slot is a header without the token |
| Cells.HitHoleIff | components/App.tsx:75 | the scan throws exactly when some hole has no matching header before it |
| Cells.ScanFinds | components/App.tsx:75 | a scan that reaches no hole finds what `findIndex` finds on the header texts |
| Cells.ScanAgrees | components/App.tsx:74-77 | a lookup that does not throw gives the same column as `getIdx` on the header texts, so a header row with no hole before a name's first match loads as if it had none |
| Cells.NoHoleNoThrow | components/App.tsx:73-75 | a header row without holes never makes a lookup throw |
| Cells.GetIdxFallback | components/App.tsx:76 | with no usable header every field keeps its fallback column |
| Cells.FoundName | components/App.tsx:75-76 | a name found in header `j` and in no earlier header resolves to `j` |
| Cells.AbsentName | components/App.tsx:75-76 | a name holding a character that no header has resolves to the fallback |
| Cells.PlainHeader | components/App.tsx:73 | a trimmed upper-case text header is read as itself |
| DataProcessor.CleanText | utils/dataProcessor.ts:4 | after the clean only `-`, digits and `.` remain, and a text of those alone is unchanged |
| DataProcessor.CleanNumeric | utils/dataProcessor.ts:1-7 | 0 for an empty cell or `''`, a number unchanged, otherwise `parseFloat` of the cleaned text, and 0 when that fails |
| DataProcessor.CleanNumericCommaExample | utils/dataProcessor.ts:4-6 | `"1.234,56"` is cleaned to `"1.234.56"` and reads as 1.234 |
| DataProcessor.CleanNumericOfRendered | utils/dataProcessor.ts:3-6 | a rendered natural number reads back as itself |
| DataProcessor.ParseFloatOfRendered | utils/dataProcessor.ts:5 | `parseFloat` reads back a rendered natural number |
| DataProcessor.ClockTextHours | utils/dataProcessor.ts:18-27 | a text without `:` reads as 0 hours |
| DataProcessor.ClockTextHoursOfParts | utils/dataProcessor.ts:19-24 | a text in two `:` parts reads as `h + m/60`, each part being `parseInt(p) \|\| 0` |
| DataProcessor.ClockTextHoursOfThreeParts | utils/dataProcessor.ts:19-24 | a text in three `:` parts adds `s/3600` |
| DataProcessor.ParseExcelTime | utils/dataProcessor.ts:9-28 | 0 for an empty cell, `''` or a boolean; `n * 24` for a number; the time of day for a date; the clock reading for a text |
| DataProcessor.ParseClockText | utils/dataProcessor.ts:19-24 | the clock text `h:mm` reads as `h + m/60` hours |
| DataProcessor.ParseClockTextSeconds | utils/dataProcessor.ts:19-24 | the clock text `h:mm:ss` reads as `h + m/60 + s/3600` hours |
| DataProcessor.Round | utils/dataProcessor.ts:33 | `Math.round` gives the integer within one half of its argument, halves rounding up |
| DataProcessor.HoursAndMinutes | utils/dataProcessor.ts:32-33 | the whole hours are the floor, and the minutes are the rounded fraction times 60, at most 60 |
| DataProcessor.FormatHoursToTime | utils/dataProcessor.ts:30-35 | `"0:00"` for a non-positive value, otherwise the floor, `:` and the rounded minutes padded to two digits; the local copy in `components/ProductDetailSection.tsx:20-25` has the same text and is this function |
| DataProcessor.FormatSixtyMinutes | utils/dataProcessor.ts:33 | the minutes can reach 60: 0.999 hours is written `0:60` |
| DataProcessor.FormatParseRoundTrip | utils/dataProcessor.ts:19-24 | formatting the hours read from the clock text `h:mm`, for minutes below 60, gives the same text back |
| OperationalReport.ColumnsFallback | components/App.tsx:79-92 | with no usable header every field takes its fixed fallback column (1, 31, 32, 33, 34, 35, 36, 46, 4, 5, 49, 50) |
| OperationalExamples.SpacedHeaders | components/App.tsx:80-84 | with headers `FECHA`, `PRODUCTO`, `DESTINO`, `TON PROG`, `TON REAL` the first three are found and the tonnage fields fall back to 33 and 34 |
| OperationalExamples.UnderscoreHeaders | components/App.tsx:80-84 | with headers `FECHA`, `PRODUCTO`, `TON_PROG`, `TON_REAL` the tonnage columns are found and the missing destination falls back to 32 |
| OperationalExamples.ScenarioRecords | components/App.tsx:71-121 | the three-row sheet with header `FECHA`, `PRODUCTO`, `TON_PROG`, `TON_REAL` loads as three records in sheet order, dated 2024-01-01, 2024-01-01 and 2024-01-02 from serials 45292 and 45293, with their tonnages |
| OperationalExamples.ScenarioDates | components/App.tsx:122-123 | the same sheet offers the dates `2024-01-02` and `2024-01-01`, in that order |
| OperationalExamples.TwoDates | components/App.tsx:122 | a strictly descending date list holding exactly two dates is those two, later first |
| OperationalExamples.ScenarioKpis | components/App.tsx:153-178 | filtered to 2024-01-01 the same sheet keeps two records, 150 tonnes programmed and 90 delivered, and the compliance card is 60 |
| OperationalReport.RowDate | components/App.tsx:96-103 | a date cell gives its ISO date, a number its serial date when valid, and a text, boolean or empty cell no date |
| OperationalReport.ProductName | components/App.tsx:107 | the product is trimmed, has no lower-case ASCII letter, and is `SIN PRODUCTO` for a falsy cell |
| OperationalReport.DestinationName | components/App.tsx:108 | the destination is trimmed and is `S/D` for a falsy cell |
| OperationalReport.ProcessRow | components/App.tsx:94-119 | a row becomes a record exactly when it has two or more cells and its date cell gives a date; the record holds that date, product and destination, the five cleaned numbers of its tonnage, equipment and regulation columns, and the four durations of its time columns in hours |
| OperationalReport.TextDateRejected | components/App.tsx:98-103 | a row whose date cell is a text is always dropped |
| OperationalReport.DateList | components/App.tsx:122 | the date list holds exactly the dates of the records, strictly descending |
| OperationalReport.ProcessGrid | components/App.tsx:71-122 | fewer than two rows is the empty-file error; a header row on which one of the twelve lookups reaches a hole before its match is the header-hole error; otherwise the records of rows 1 on, and their dates distinct and latest first |
| OperationalReport.NoHoleLoads | components/App.tsx:71-92 | a grid of two or more rows whose header row has no hole always loads |
| OperationalExamples.ScenarioLoads | components/App.tsx:71-92 | the worked sheet's header has no hole, so the sheet loads |
| OperationalExamples.HoleBeforeProducto | components/App.tsx:73-80 | a header `FECHA`, blank, `PRODUCTO` is rejected: the `PRODUCTO` lookup reaches the hole first |
| OperationalReport.FirstDateIsLatest | components/App.tsx:122-123 | the first entry of a strictly descending list is at least every entry |
| OperationalReport.LatestSelected | components/App.tsx:122-123 | with at least one record the first date of the list is a record's date and no record is later |
| OperationalReport.Dashboard.ProcessFile | components/App.tsx:60-131 | a grid that fails to load, with fewer than two rows or a header row that makes a lookup throw, changes nothing, as the `catch` only logs; otherwise the records are stored and the first date, when there is one, is selected, so the selection is the latest date |
| OperationalReport.Dashboard.Load | components/App.tsx:121-123 | the table's records become the data and its first date, if any, the selected date |
| OperationalReport.GridDates | components/App.tsx:122 | the date list of the loaded table is that of its records |
| OperationalReport.FilteredData | components/App.tsx:153 | the records of the selected date, exactly |
| OperationalReport.ProductList | components/App.tsx:154 | exactly the products of the records, strictly ascending |
| OperationalReport.FixedKpis | components/App.tsx:156-178 | none for no records; otherwise compliance, load and fleet use with their zero guards, the faena deviation as the difference of the positive averages, the card text of that deviation, the warning exactly above ten minutes, and the plain sum of regulations |
| OperationalReport.DeviationText | components/App.tsx:175 | a positive deviation is written with `+`, any other as `0:00` |
| OperationalReport.AnalysisAverages | components/App.tsx:137-144 | the SDA and PANG averages over positive times only, formatted, and `0:00` when no SDA time is positive |
| OperationalReport.NoPositiveSda | components/App.tsx:137-139 | with no positive SDA time the average is 0 |
| ArrivalsReport.SearchLimit | components/LlegadaEquipos.tsx:64 | the header search covers `min(rows, 10)` rows |
| ArrivalsReport.HeaderRowFrom | components/LlegadaEquipos.tsx:64-70 | the first header row from a position on within the searched rows, or none |
| ArrivalsReport.HeaderRow | components/LlegadaEquipos.tsx:63-73 | the first searched row holding a cell exactly `FECHA`, `EMPRESA` or `PRODUCTO`, and row 0 when there is none |
| ArrivalsReport.FindHeaderRow | components/LlegadaEquipos.tsx:63-73 | the `for` loop with `break` finds that row |
| ArrivalsReport.ColumnsFallback | components/LlegadaEquipos.tsx:81-86 | with no usable header the columns are fecha 0, destino 3, empresa 11, hora 14 |
| ArrivalsReport.TextDate | components/LlegadaEquipos.tsx:99-106 | a text date gives a date exactly when it splits on `-` or `/` into three parts |
| ArrivalsReport.IsoTextDate | components/LlegadaEquipos.tsx:103 | a text `YYYY-M-D` with a four-digit year gives `YYYY-MM-DD`, month and day padded, so a text already `YYYY-MM-DD` gives itself |
| ArrivalsReport.DayFirstTextDate | components/LlegadaEquipos.tsx:104 | a text `D/M/Y` with a first part not of length 4 gives `Y-MM-DD`, month and day padded |
| ArrivalsReport.SplitDate | components/LlegadaEquipos.tsx:101 | three digit groups joined by `-` or `/` split into those three groups |
| ArrivalsReport.ArrivalDate | components/LlegadaEquipos.tsx:92-106 | a date cell gives its ISO date, a valid serial number its serial date, a text its text date, anything else the empty date |
| ArrivalsReport.ArrivalHour | components/LlegadaEquipos.tsx:110-120 | a date gives `h + m/60` without seconds, a text with `:` `part0 + part1/60` through `Number`, a number `n * 24`, anything else 0 |
| ArrivalsReport.ArrivalHourOfParts | components/LlegadaEquipos.tsx:115-117 | a text in two `:` parts reads as `(Number(a) \|\| 0) + (Number(b) \|\| 0)/60` |
| ArrivalsReport.ArrivalHourOfClock | components/LlegadaEquipos.tsx:115-117 | the clock text `h:mm` reads as `h + m/60` |
| ArrivalsReport.DestinationName | components/LlegadaEquipos.tsx:124 | the destination has no lower-case ASCII letter and is `SIN DESTINO` for a falsy cell |
| ArrivalsReport.ArrivalOf | components/LlegadaEquipos.tsx:88-128 | a row is kept exactly when it has two or more cells, a non-empty date and a non-empty company, and then holds the parsed date, destination, company and hour |
| ArrivalsReport.ArrivalRows | components/LlegadaEquipos.tsx:88-128 | every kept arrival has a date and a company |
| ArrivalsReport.LoadArrivals | components/LlegadaEquipos.tsx:60-130 | fewer than two rows is the empty-file error, a header row on which one of the four lookups reaches a hole before its match the header-hole error, no kept row the no-data error, and otherwise the kept arrivals |
| ArrivalsReport.NoHoleLoads | components/LlegadaEquipos.tsx:73-86 | a grid of two or more rows whose header row has no hole is never the header-hole error |
| ArrivalsReport.LoadIsSheet | components/LlegadaEquipos.tsx:73-88 | the load fails on a header row that makes a lookup throw, and otherwise reads the arrivals from the rows after the header row |
| ArrivalsReport.DateList | components/LlegadaEquipos.tsx:133 | exactly the dates of the arrivals, strictly descending, and non-empty for some arrival |
| ArrivalsReport.Companies | components/LlegadaEquipos.tsx:150-153 | exactly the companies arriving on the date, strictly ascending |
| ArrivalsReport.AllDestinations | components/LlegadaEquipos.tsx:155-158 | exactly the destinations of the company on the date, strictly ascending |
| ArrivalsReport.LoadedSelection | components/LlegadaEquipos.tsx:133-139 | after a load the selected date is the latest one and the selected company the first in order on that date |
| ArrivalsReport.ArrivalsBoard.ProcessFile | components/LlegadaEquipos.tsx:43-163 | an error leaves the state unchanged; a load stores the arrivals, selects the latest date, its first company and all of that company's destinations |
| ArrivalsReport.ArrivalsBoard.Install | components/LlegadaEquipos.tsx:132-163 | the arrivals are stored with the latest date, its first company and all of its destinations selected |
| ArrivalsReport.ArrivalsBoard.SyncDestinations | components/LlegadaEquipos.tsx:160-163 | the selected destinations become all destinations of the selected date and company, as the effect and the select-all button do; nothing else changes |
| ArrivalsReport.ArrivalsBoard.SelectDate | components/LlegadaEquipos.tsx:230 | the date changes, the company stays, and the selected destinations become those of the new selection (the effect at lines 160-163) |
| ArrivalsReport.ArrivalsBoard.SelectCompany | components/LlegadaEquipos.tsx:267 | the company changes and the selected destinations become those of the new selection (the effect at lines 160-163) |
| ArrivalsReport.ArrivalsBoard.ToggleDestination | components/LlegadaEquipos.tsx:290 | the destination's membership flips, it is appended when it was absent, removed with the others kept in order when it was present, and every other destination stays as it was |
| ArrivalsCharts.FilteredArrivals | components/LlegadaEquipos.tsx:165-172 | exactly the arrivals of the date, company and selected destinations whose hour lies in `lo ..= hi + 0.99` |
| ArrivalsCharts.FilteredInBuckets | components/LlegadaEquipos.tsx:165-188 | every filtered arrival falls in an hour bucket of the range and in a selected destination |
| ArrivalsCharts.LastHundredthExcluded | components/LlegadaEquipos.tsx:170 | an arrival later than `hi + 0.99` is not shown |
| ArrivalsCharts.ZeroCounts | components/LlegadaEquipos.tsx:178-180 | every selected destination starts at 0, and no other key |
| ArrivalsCharts.EmptyHours | components/LlegadaEquipos.tsx:175-181 | one bucket per hour of the range, each with every selected destination at 0 |
| ArrivalsCharts.CountArrivals | components/LlegadaEquipos.tsx:183-188 | after the counting loop each bucket holds, per destination, the number of filtered arrivals of that hour and destination; no key is added |
| ArrivalsCharts.HourBuckets | components/LlegadaEquipos.tsx:190-193 | one bucket per hour in order, with its label and its counts |
| ArrivalsCharts.ChartData | components/LlegadaEquipos.tsx:174-194 | exactly one bucket per hour of the range, labelled `HH:00`, with every selected destination and its count of filtered arrivals |
| ArrivalsCharts.ChartTotal | components/LlegadaEquipos.tsx:174-194 | for selected destinations without repetition, the bucket counts add up to the number of filtered arrivals |
| ArrivalsCharts.HourCountAppend | components/LlegadaEquipos.tsx:183-188 | the count of an hour and destination over a concatenation is the sum of the counts |
| ArrivalsCharts.CountTable | components/LlegadaEquipos.tsx:200-204 | the counting loop builds, for every hour with arrivals, every destination arriving then and its count, and the hours met |
| ArrivalsCharts.PivotExtend | components/LlegadaEquipos.tsx:203 | counting one more arrival keeps the table exact |
| ArrivalsCharts.SortDistinct | components/LlegadaEquipos.tsx:208 | sorting distinct hours gives them strictly ascending |
| ArrivalsCharts.SortInts | components/LlegadaEquipos.tsx:208 | a sorted permutation of the hours |
| ArrivalsCharts.PivotTable | components/LlegadaEquipos.tsx:196-209 | one row per hour with arrivals, ascending, holding exactly the destinations arriving then and their counts |
| ArrivalsCharts.TableIsPivot | components/LlegadaEquipos.tsx:206-208 | the table read from the counts in ascending hour order is the pivot of the arrivals |
| ArrivalsCharts.FooterSum | components/LlegadaEquipos.tsx:409 | each destination's footer total is its number of filtered arrivals |
| ProductDetail.DestKey | components/ProductDetailSection.tsx:45 | a record's destination key is never empty, and a missing destination counts as `S/D` |
| ProductDetail.CountValues | components/ProductDetailSection.tsx:43-47 | the `forEach` count: keys in first-occurrence order, and each key's count is its number of occurrences |
| ProductDetail.CountDestinations | components/ProductDetailSection.tsx:43-47 | the destination keys of the records in first-occurrence order, each counted by its number of records |
| ProductDetail.TallyDone | components/ProductDetailSection.tsx:43-47 | the loop's invariant at the end is the counting specification |
| ProductDetail.DestinationCountsTotal | components/ProductDetailSection.tsx:43-47 | the destination counts add up to the number of records |
| ProductDetail.FirstMax | components/ProductDetailSection.tsx:48 | the stable descending sort puts first the earliest key of highest count |
| ProductDetail.Stats | components/ProductDetailSection.tsx:27-61 | none for no records; otherwise the sums, differences, zero-guarded compliance and load, regulations per record, positive-only averages, and a most frequent destination with its count, the earliest of the highest count in record order |
| ProductDetail.MainDestination | components/ProductDetailSection.tsx:48 | the first entry after the stable descending sort: a key of highest count, with its count, that occurs no later than any other key of that count |
| ProductDetail.EarliestMax | components/ProductDetailSection.tsx:48 | the first key of highest count in first-occurrence order occurs no later than every other key of that count |
| ProductDetail.SingleDestination | components/ProductDetailSection.tsx:48-59 | when all records go to one destination it is the main one, with all records |
| ProductDetail.StatusOf | components/ProductDetailSection.tsx:72-78 | below 85% is the tonnage alert, then a time deviation, then at least 95% optimal, otherwise acceptable, each case exactly |
| ProductDetail.LowPerformanceUnreachable | components/ProductDetailSection.tsx:77 | the low-performance badge is never chosen |
| ProductDetail.StatusText | components/ProductDetailSection.tsx:73-77 | every badge has a text |
| ProductDetail.PageStatus | components/ProductDetailSection.tsx:63-80 | none for no records; otherwise the badge of the compliance and of the time deviation (both averages positive and at least ten minutes apart) |
| ProductDetail.NoProgramIsAlert | components/ProductDetailSection.tsx:53-73 | without programmed tonnage the compliance is 0 and the badge is the tonnage alert |
| ChartCard.FormatDecimalToHHMM | components/ChartCard.tsx:35-40 | `"0:00"` only for exactly 0; a positive value as `formatHoursToTime`; a negative one with floor and rounding, not clamped |
| ChartCard.NegativeNotClamped | components/ChartCard.tsx:35-40 | -1.5 hours is written `-2:30`, where `formatHoursToTime` writes `0:00` |
| ChartCard.GroupKey | components/ChartCard.tsx:60-61 | a group key is trimmed and never empty, `undefined` or `null`; a record is dropped only when its field is truthy |
| ChartCard.MissingFieldGroup | components/ChartCard.tsx:60 | a record without the field falls in the `S/D` group |
| ChartCard.ProductGroup | components/ChartCard.tsx:60 | a dispatch record is grouped under its trimmed product name |
| ChartCard.TextGroup | components/ChartCard.tsx:60-61 | a field reading as a trimmed text other than `''`, `undefined` and `null` is the group |
| ChartCard.KeyIsGroup | components/ChartCard.tsx:61 | no group is named `''`, `undefined` or `null` |
| ChartCard.AddValuesAt | components/ChartCard.tsx:69-71 | adding a record adds its value to each axis, once per mention of that axis |
| ChartCard.SumsOfAt | components/ChartCard.tsx:69-71 | a group's sum on an axis is the sum of its records' values, once per mention of that axis |
| ChartCard.AddToSums | components/ChartCard.tsx:69-71 | adding one more record to the sums gives the sums of the longer list |
| ChartCard.TimesIsProduct | components/ChartCard.tsx:69-71 | repeated addition is multiplication |
| ChartCard.GroupMeaning | components/ChartCard.tsx:63-71 | the accumulated group of a key has the number of its records and their sums |
| ChartCard.GroupRows | components/ChartCard.tsx:59-74 | the `reduce` yields groups keyed by the distinct keys in first-occurrence order, each with its records' count and sums |
| ChartCard.AddRecord | components/ChartCard.tsx:60-73 | one step of the `reduce` keeps the accumulator exact |
| ChartCard.Finalize | components/ChartCard.tsx:77-85 | the finished group has its name and one value per axis |
| ChartCard.FinalizeAt | components/ChartCard.tsx:80-82 | an averaged axis is divided by the count, any other is the sum |
| ChartCard.SortDescSorted | components/ChartCard.tsx:86 | the sort orders the groups by the first axis, descending |
| ChartCard.SortDescPermutes | components/ChartCard.tsx:86 | the sort is a permutation |
| ChartCard.SortStable | components/ChartCard.tsx:86 | the sort is stable: groups of equal value keep their order |
| ChartCard.TopTen | components/ChartCard.tsx:87 | `slice(0, 10)`: the first ten, or all when fewer |
| ChartCard.AggregatedData | components/ChartCard.tsx:56-88 | the memoised chart data: the records grouped by `String(item[x] \|\| 'S/D').trim()`, each axis read as `Number(item[y]) \|\| 0`, summed or averaged, sorted and cut to ten |
| ChartCard.Aggregated | components/ChartCard.tsx:86-87 | at most ten groups |
| ChartCard.AggregatedEmpty | components/ChartCard.tsx:57 | no records give no groups |
| ChartCard.AggregatedSorted | components/ChartCard.tsx:86-87 | the groups are in descending order of the first axis |
| ChartCard.AggregatedDistinct | components/ChartCard.tsx:63-64 | no group name repeats |
| ChartCard.AggregatedRow | components/ChartCard.tsx:60-83 | every group is a key of some record, not `''`, `undefined` or `null`, with one value per axis |
| ChartCard.AggregatedValue | components/ChartCard.tsx:69-82 | a group's value on an axis is its records' sum, divided by their number when averaged, and the group has records |
| ChartCard.DeviatingRows | components/ChartCard.tsx:91-94 | exactly the groups short of 85% of a positive programme or at least ten minutes over a positive target |
| ChartCard.DeviatingRowsAppend | components/ChartCard.tsx:91-94 | the selection distributes over concatenation, so the table lists the deviating groups in chart order |
| ChartCard.DeviatedProducts | components/ChartCard.tsx:90-99 | one line per such group with its name, its tonnage flag and its time flag at five minutes |
| ChartCard.ListedHaveFlag | components/ChartCard.tsx:95-99 | every listed product carries at least one flag |
| ChartCard.TimeFlagWithoutListing | components/ChartCard.tsx:90-99 | a product seven minutes over target is flagged but not listed |

## Left out

- Reading the file and the workbook (`FileReader`, `XLSX.read`, `sheet_to_json`) and the
  choice of the sheet: the model starts from the decoded grid of cells. A blank cell
  before the last filled cell of a row is `Empty`, which stands for the hole the reader
  leaves there; rows end at their last filled cell.
- Rendering (JSX, charts, tables), export to PDF and PNG, the AI analysis call and its
  prompt, the service worker, the Electron shell and the build configuration.
- The loading flag and the error messages shown to the user: errors are results.
- `formatDateToCL`, which only formats a date for display.
- `toFixed`, `toLocaleString` and `toString` of the KPI values: the cards are modelled as
  numbers.
- `StatsGrid.tsx`, which no modelled file uses.
- Floating point: numbers are exact reals, so rounding errors, NaN and the infinities are
  not modelled. A failed `parseFloat`, `parseInt` or `Number` is `None`, and an invalid
  `Date` is a time value out of range, so the `isNaN` tests on those are modelled. The
  `isNaN` tests in `formatHoursToTime` and `formatDecimalToHHMM` can never fire here.
- JsNumber.ParseFloat: decimal literals only; `Infinity` is not read.
- JsNumber.ToNumber: decimal literals only. The hexadecimal, octal and binary prefixes and
  `Infinity` are not read.
- JsNumber.ParseInt: base 10 only; the `0x` prefix is not read.
- JsString.Upper: maps ASCII and Latin-1 letters one for one. `ß`, `ÿ`, `µ` and letters
  beyond Latin-1 keep their character, where JavaScript changes it or the length.
- JsString.Lower: ASCII and Latin-1 letters only.
- JsString.Trim: white space is the ASCII set, the no-break space and the byte-order
  mark. The other Unicode space separators and line terminators are not removed.
- Seqs.StrLess: compares Unicode scalar values. JavaScript compares UTF-16 code units, and
  the two orders differ only for characters beyond the Basic Multilingual Plane.
- ChartCard.GroupRows: groups come out in first-occurrence order. JavaScript lists
  integer-like object keys first, in numeric order, so a chart grouped by numeric names
  can differ before the sort.
- ChartCard.GroupRows: a key that names an `Object.prototype` member, such as
  `constructor`, is an ordinary group here. In the source it finds the inherited member.
- ProductDetail.CountDestinations: the same holds for a destination named like an
  `Object.prototype` member.
- ProductDetail.Stats: the destination counts are kept in first-occurrence order, and the
  main destination is the earliest of the highest count. `Object.entries` lists
  integer-like keys such as `"123"` first, in numeric order, so when such a destination
  ties for the highest count the source can pick it instead.
- ArrivalsReport.TextDate: the four-character test on the first part counts characters.
  JavaScript's `length` counts UTF-16 code units, so a first part holding a character
  beyond the Basic Multilingual Plane can take the other branch there.
- ChartCard.AggregatedData: a record's field is a number, a text or missing. Other
  JavaScript values are not modelled.
- CivilDate.SerialToIsoDate: the date is taken in UTC. `getHours` and `getMinutes` of the
  date-time cells are local time; their fields are given as they come.
- ArrivalsCharts.FilteredArrivals: the hour range is fixed at 0 to 23. The source never
  changes it.
- ArrivalsCharts.ChartData: the bucket for each hour is a record with the destinations
  as fields next to `hora` and `horaStr`. Here the counts are a separate map. The two
  cannot clash: every destination is upper-cased when the row is read, and both field names
  hold lower-case letters.
- Host fields: `String(x)` of a non-integral number, of an integral number of magnitude
  10^21 or more (written in exponent form), or of a date, and `normalizeCompanyName`, are
  parameters whose results the model does not know.
- CivilDate.SerialTimeValue: the product `(n - 25569) * 86400 * 1000` is exact. In the
  source it is a double, so its rounding is not modelled; the range test is applied to the
  exact product before it is rounded toward zero, as `TimeClip` does.
