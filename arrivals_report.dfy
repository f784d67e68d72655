/** The equipment-arrivals report: finding the header row of the sheet, reading every row
    as an arrival (date, destination, company, hour), and the selector state built on
    the loaded arrivals. */
module ArrivalsReport {
  import opened Wrappers
  import opened JsString
  import opened JsNumber
  import opened CivilDate
  import opened Seqs
  import opened Cells
  import opened DataProcessor

  /** One arrival of a truck. */
  datatype Arrival = Arrival(fecha: string, destino: string, empresa: string, hora: real)

  // ---------------------------------------------------------------------------------
  // The header row
  // ---------------------------------------------------------------------------------

  /** How many leading rows are searched for the header row. */
  const HeaderSearchRows: nat := 10

  /** The cell texts that mark a header row (whole-cell equality). */
  predicate IsHeaderKey(s: string) {
    s == "FECHA" || s == "EMPRESA" || s == "PRODUCTO"
  }

  /** `String(c || '').toUpperCase()`: the header search does not trim. */
  function SearchName(host: Host, c: Cell): string {
    Upper(StringOr(host, c, ""))
  }

  /** A row is a header row when one of its cells reads exactly as a header key. */
  predicate IsHeaderRow(host: Host, row: seq<Cell>) {
    exists j :: 0 <= j < |row| && IsHeaderKey(SearchName(host, row[j]))
  }

  /** `Math.min(rows, 10)`. */
  function SearchLimit(grid: seq<seq<Cell>>): (n: nat)
    ensures n <= |grid| && n <= HeaderSearchRows
    ensures n == |grid| || n == HeaderSearchRows
  {
    if |grid| < HeaderSearchRows then |grid| else HeaderSearchRows
  }

  /** The first header row at or after row `i` among the searched rows. */
  function HeaderRowFrom(host: Host, grid: seq<seq<Cell>>, i: nat): (r: Option<nat>)
    requires i <= SearchLimit(grid)
    ensures r.Some? ==> (i <= r.value < SearchLimit(grid) && IsHeaderRow(host, grid[r.value])
                         && forall j :: i <= j < r.value ==> !IsHeaderRow(host, grid[j]))
    ensures r.None? ==> forall j :: i <= j < SearchLimit(grid) ==> !IsHeaderRow(host, grid[j])
    decreases SearchLimit(grid) - i
  {
    if i == SearchLimit(grid) then None
    else if IsHeaderRow(host, grid[i]) then Some(i)
    else HeaderRowFrom(host, grid, i + 1)
  }

  /** The header row: the first of the first ten rows that is a header row, or row 0. */
  function HeaderRow(host: Host, grid: seq<seq<Cell>>): (r: nat)
    ensures r == 0 || r < SearchLimit(grid)
    ensures (exists i :: 0 <= i < SearchLimit(grid) && IsHeaderRow(host, grid[i])) ==>
      (r < SearchLimit(grid) && IsHeaderRow(host, grid[r])
       && forall j :: 0 <= j < r ==> !IsHeaderRow(host, grid[j]))
    ensures (forall i :: 0 <= i < SearchLimit(grid) ==> !IsHeaderRow(host, grid[i])) ==> r == 0
  {
    match HeaderRowFrom(host, grid, 0)
    case Some(k) => k
    case None => 0
  }

  /** The header search loop: stops at the first header row among the first ten rows. */
  method FindHeaderRow(host: Host, grid: seq<seq<Cell>>) returns (startRow: nat)
    ensures startRow == HeaderRow(host, grid)
    ensures (exists i :: 0 <= i < SearchLimit(grid) && IsHeaderRow(host, grid[i])) ==>
      (IsHeaderRow(host, grid[startRow]) && forall j :: 0 <= j < startRow ==> !IsHeaderRow(host, grid[j]))
    ensures (forall i :: 0 <= i < SearchLimit(grid) ==> !IsHeaderRow(host, grid[i])) ==> startRow == 0
  {
    var headerIdx: int := -1;
    var limit := if |grid| < HeaderSearchRows then |grid| else HeaderSearchRows;
    var i := 0;
    while i < limit
      invariant 0 <= i <= limit == SearchLimit(grid)
      invariant headerIdx == -1
      invariant HeaderRowFrom(host, grid, i) == HeaderRowFrom(host, grid, 0)
    {
      if IsHeaderRow(host, grid[i]) {
        headerIdx := i;
        break;
      }
      i := i + 1;
    }
    startRow := if headerIdx != -1 then headerIdx else 0;
  }

  // ---------------------------------------------------------------------------------
  // Columns
  // ---------------------------------------------------------------------------------

  datatype ArrivalColumns = ArrivalColumns(fecha: nat, destino: nat, empresa: nat, hora: nat)

  /** The column map: every field's search token and fallback column. */
  function ColumnsOf(headers: seq<string>): ArrivalColumns {
    ArrivalColumns(
      GetIdx(headers, "FECHA", 0), GetIdx(headers, "DESTINO", 3),
      GetIdx(headers, "EMPRESA", 11), GetIdx(headers, "HORA", 14))
  }

  /** A header row naming none of the fields leaves every field at its fallback column. */
  lemma ColumnsFallback(headers: seq<string>)
    requires forall j :: 0 <= j < |headers| ==> headers[j] == ""
    ensures ColumnsOf(headers) == ArrivalColumns(0, 3, 11, 14)
  {
    GetIdxFallback(headers, "FECHA", 0);
    GetIdxFallback(headers, "DESTINO", 3);
    GetIdxFallback(headers, "EMPRESA", 11);
    GetIdxFallback(headers, "HORA", 14);
  }

  // ---------------------------------------------------------------------------------
  // Dates
  // ---------------------------------------------------------------------------------

  /** The separators of a text date. */
  const DateSeparators: set<char> := {'-', '/'}

  /** A text date: exactly three parts separated by '-' or '/'. A four-character first
      part is the year (Y-M-D), otherwise the last part is (D/M/Y); month and day are
      padded to two characters. Anything else gives no date. */
  function TextDate(s: string): (r: string)
    ensures r != "" <==> |SplitAny(s, DateSeparators)| == 3
  {
    var p := SplitAny(s, DateSeparators);
    if |p| != 3 then ""
    else if |p[0]| == 4 then p[0] + "-" + PadStart2(p[1]) + "-" + PadStart2(p[2])
    else p[2] + "-" + PadStart2(p[1]) + "-" + PadStart2(p[0])
  }

  /** The date of an arrival, "" when the cell gives none: a date cell gives its calendar
      date, a number is a serial day, a text is read by `TextDate`. */
  function ArrivalDate(c: Cell): (r: string)
    ensures c.DateTime? ==> r == IsoDate(c.t.date)
    ensures c.Num? && SerialToIsoDate(c.n).Some? ==> r == SerialToIsoDate(c.n).value
    ensures c.Num? && SerialToIsoDate(c.n).None? ==> r == ""
    ensures c.Text? ==> r == TextDate(c.s)
    ensures c.Empty? || c.Bool? ==> r == ""
  {
    match c
    case DateTime(t) => IsoDate(t.date)
    case Num(n) => (match SerialToIsoDate(n) case Some(d) => d case None => "")
    case Text(s) => TextDate(s)
    case _ => ""
  }

  lemma SplitCons(a: string, c: char, rest: string, seps: set<char>)
    requires c in seps && IndexOfAny(a, seps) == |a|
    ensures SplitAny(a + [c] + rest, seps) == [a] + SplitAny(rest, seps)
  {
    var s := a + [c] + rest;
    assert s == a + ([c] + rest);
    assert IndexOfAny([c] + rest, seps) == 0;
    IndexOfAnyPrefix(a, [c] + rest, seps);
    assert s[..|a|] == a && s[|a| + 1..] == rest;
  }

  lemma SplitDate(a: string, c1: char, b: string, c2: char, d: string)
    requires AllDigits(a) && AllDigits(b) && AllDigits(d)
    requires c1 in DateSeparators && c2 in DateSeparators
    ensures SplitAny(a + [c1] + b + [c2] + d, DateSeparators) == [a, b, d]
  {
    var t := b + [c2] + d;
    assert a + [c1] + b + [c2] + d == a + [c1] + t;
    NoChar(a, DateSeparators);
    SplitLastTwo(b, c2, d);
    SplitCons(a, c1, t, DateSeparators);
  }

  lemma SplitLastTwo(b: string, c2: char, d: string)
    requires AllDigits(b) && AllDigits(d) && c2 in DateSeparators
    ensures SplitAny(b + [c2] + d, DateSeparators) == [b, d]
  {
    NoChar(b, DateSeparators);
    SplitOne(d);
    SplitCons(b, c2, d, DateSeparators);
  }

  lemma SplitOne(d: string)
    requires AllDigits(d)
    ensures SplitAny(d, DateSeparators) == [d]
  {
    NoChar(d, DateSeparators);
  }

  /** A year-first text date "YYYY-M-D" keeps its order with month and day padded, so
      "YYYY-MM-DD" is kept as it is. */
  lemma IsoTextDate(y: string, m: string, d: string)
    requires |y| == 4 && AllDigits(y) && AllDigits(m) && AllDigits(d)
    ensures TextDate(y + "-" + m + "-" + d) == y + "-" + PadStart2(m) + "-" + PadStart2(d)
    ensures |m| == 2 && |d| == 2 ==> TextDate(y + "-" + m + "-" + d) == y + "-" + m + "-" + d
  {
    SplitDate(y, '-', m, '-', d);
  }

  /** A day-first text date "D/M/YYYY" is rewritten year first, with month and day padded. */
  lemma DayFirstTextDate(d: string, m: string, y: string)
    requires |d| != 4 && AllDigits(d) && AllDigits(m) && AllDigits(y)
    ensures TextDate(d + "/" + m + "/" + y) == y + "-" + PadStart2(m) + "-" + PadStart2(d)
  {
    SplitDate(d, '/', m, '/', y);
  }

  // ---------------------------------------------------------------------------------
  // Hours
  // ---------------------------------------------------------------------------------

  /** `Number(p) || 0` on a clock part; a missing part also counts as 0. */
  function ClockNumber(parts: seq<string>, k: nat): real {
    if k < |parts| then OrZero(ToNumber(parts[k])) else 0.0
  }

  /** The hour of an arrival: a date cell gives hours and minutes (seconds ignored); a text
      with ':' gives its first part plus its second part in minutes, non-numbers as 0; a
      number is a fraction of a day; anything else is 0. */
  function ArrivalHour(c: Cell): (r: real)
    ensures c.DateTime? ==> r == c.t.hour as real + c.t.minute as real / 60.0
    ensures c.Text? && Contains(c.s, ":") ==>
      var parts := SplitAny(c.s, {':'});
      r == ClockNumber(parts, 0) + ClockNumber(parts, 1) / 60.0
    ensures c.Text? && !Contains(c.s, ":") ==> r == 0.0
    ensures c.Num? ==> r == c.n * 24.0
    ensures c.Empty? || c.Bool? ==> r == 0.0
  {
    match c
    case DateTime(t) => t.hour as real + t.minute as real / 60.0
    case Text(s) =>
      if Contains(s, ":") then
        var parts := SplitAny(s, {':'});
        ClockNumber(parts, 0) + ClockNumber(parts, 1) / 60.0
      else 0.0
    case Num(n) => n * 24.0
    case _ => 0.0
  }

  /** The clock text "h:mm" reads back as h + m/60 hours. */
  lemma ArrivalHourOfClock(h: nat, m: nat)
    ensures ArrivalHour(Text(NatToString(h) + ":" + PadStart2(NatToString(m)))) == h as real + m as real / 60.0
  {
    var a := NatToString(h);
    var b := PadStart2(NatToString(m));
    ClockSplit(h, m);
    ToNumberOfRendered(h);
    ToNumberOfPadded(m);
    ArrivalHourOfParts(a + ":" + b, a, b);
  }

  lemma ArrivalHourOfParts(s: string, a: string, b: string)
    requires Contains(s, ":") && SplitAny(s, {':'}) == [a, b]
    ensures ArrivalHour(Text(s)) == OrZero(ToNumber(a)) + OrZero(ToNumber(b)) / 60.0
  {
  }

  lemma ClockSplit(h: nat, m: nat)
    ensures var a := NatToString(h); var b := PadStart2(NatToString(m));
      Contains(a + ":" + b, ":") && SplitAny(a + ":" + b, {':'}) == [a, b]
  {
    var a := NatToString(h);
    var b := PadStart2(NatToString(m));
    var s := a + ":" + b;
    PaddedDigits(m);
    SplitClock(a, b);
    assert s[|a|..|a| + 1] == ":";
    assert OccursAt(s, ":", |a|);
    ContainsIff(s, ":");
  }

  lemma ToNumberOfPadded(m: nat)
    ensures ToNumber(PadStart2(NatToString(m))) == Some(m as real)
  {
    var p := PadStart2(NatToString(m));
    PaddedDigits(m);
    AllDigitsRun(p);
    TrimNoSpace(p);
    DigitsAreLiteral(p);
    ParseIntOfRendered(m);
    ParseIntOfDigits(p);
  }

  // ---------------------------------------------------------------------------------
  // Rows
  // ---------------------------------------------------------------------------------

  /** The destination: trimmed and upper-cased, "SIN DESTINO" for an empty cell. */
  function DestinationName(host: Host, c: Cell): (r: string)
    ensures forall i :: 0 <= i < |r| ==> !IsLowerAsciiLetter(r[i])
    ensures !Truthy(c) ==> r == "SIN DESTINO"
  {
    var r := Upper(Trim(StringOr(host, c, "SIN DESTINO")));
    UpperIsUpper(Trim(StringOr(host, c, "SIN DESTINO")));
    if !Truthy(c) then DefaultDestination(); r else r
  }

  lemma DefaultDestination()
    ensures Upper(Trim("SIN DESTINO")) == "SIN DESTINO"
  {
    TrimNoSpace("SIN DESTINO");
    UpperFixed("SIN DESTINO");
  }

  /** One sheet row as an arrival. Rows of fewer than two cells, rows without a date and
      rows whose company reads as "" are dropped. */
  function ArrivalOf(host: Host, cols: ArrivalColumns, row: seq<Cell>): (r: Option<Arrival>)
    ensures r.Some? <==> (|row| >= 2 && ArrivalDate(CellAt(row, cols.fecha)) != ""
                          && host.companyName(CellAt(row, cols.empresa)) != "")
    ensures r.Some? ==> r.value == Arrival(
      ArrivalDate(CellAt(row, cols.fecha)), DestinationName(host, CellAt(row, cols.destino)),
      host.companyName(CellAt(row, cols.empresa)), ArrivalHour(CellAt(row, cols.hora)))
  {
    if |row| < 2 then None
    else
      var fecha := ArrivalDate(CellAt(row, cols.fecha));
      if fecha == "" then None
      else
        var a := Arrival(fecha, DestinationName(host, CellAt(row, cols.destino)),
                         host.companyName(CellAt(row, cols.empresa)), ArrivalHour(CellAt(row, cols.hora)));
        if a.empresa == "" then None else Some(a)
  }

  /** The arrivals below the header row, in sheet order. */
  function ArrivalRows(host: Host, grid: seq<seq<Cell>>): (rows: seq<Arrival>)
    requires |grid| >= 1
    ensures forall x :: x in rows ==> x.fecha != "" && x.empresa != ""
  {
    SheetArrivals(host, grid, HeaderRow(host, grid))
  }

  /** The arrivals below a given header row. */
  function SheetArrivals(host: Host, grid: seq<seq<Cell>>, start: nat): (rows: seq<Arrival>)
    requires start < |grid|
    ensures forall x :: x in rows ==> x.fecha != "" && x.empresa != ""
  {
    var cols := ColumnsOf(HeaderNames(host, grid[start]));
    FilterMap(grid[start + 1..], row => ArrivalOf(host, cols, row))
  }

  /** Fewer than two rows, a header row on which building the column map throws, or no
      arrival left (`"No se procesaron datos."`). */
  datatype ArrivalError = EmptyFile | HeaderHole | NoData

  /** Whether building the column map throws: some field's lookup reaches a hole of the
      header row before that field's first match. */
  predicate HeaderThrows(host: Host, row: seq<Cell>) {
    IdxThrows(host, row, "FECHA") || IdxThrows(host, row, "DESTINO")
    || IdxThrows(host, row, "EMPRESA") || IdxThrows(host, row, "HORA")
  }

  /** `processFile` after decoding: a grid of fewer than two rows is an error, so is a header
      row on which the column map throws, and so is a grid from which no arrival survives. */
  function LoadArrivals(host: Host, grid: seq<seq<Cell>>): (r: Result<seq<Arrival>, ArrivalError>)
    ensures r == Err(EmptyFile) <==> |grid| < 2
    ensures r == Err(HeaderHole) <==> |grid| >= 2 && HeaderThrows(host, grid[HeaderRow(host, grid)])
    ensures r == Err(NoData) <==>
      |grid| >= 2 && !HeaderThrows(host, grid[HeaderRow(host, grid)]) && |ArrivalRows(host, grid)| == 0
    ensures r.Ok? ==> |grid| >= 2 && r.value == ArrivalRows(host, grid) && |r.value| > 0
  {
    if |grid| < 2 then Err(EmptyFile)
    else if HeaderThrows(host, grid[HeaderRow(host, grid)]) then Err(HeaderHole)
    else
      var rows := ArrivalRows(host, grid);
      if |rows| == 0 then Err(NoData) else Ok(rows)
  }

  /** A grid of two or more rows whose header row has no hole gets past the column map. */
  lemma NoHoleLoads(host: Host, grid: seq<seq<Cell>>)
    requires |grid| >= 2
    requires var row := grid[HeaderRow(host, grid)]; forall j :: 0 <= j < |row| ==> !row[j].Empty?
    ensures LoadArrivals(host, grid) != Err(HeaderHole)
  {
    var row := grid[HeaderRow(host, grid)];
    NoHoleNoThrow(host, row, "FECHA");
    NoHoleNoThrow(host, row, "DESTINO");
    NoHoleNoThrow(host, row, "EMPRESA");
    NoHoleNoThrow(host, row, "HORA");
  }

  // ---------------------------------------------------------------------------------
  // Selectors
  // ---------------------------------------------------------------------------------

  function Fechas(rows: seq<Arrival>): (r: seq<string>)
    ensures |r| == |rows| && forall i :: 0 <= i < |rows| ==> r[i] == rows[i].fecha
  {
    seq(|rows|, i requires 0 <= i < |rows| => rows[i].fecha)
  }

  /** The date selector: the distinct dates, latest first. */
  function DateList(rows: seq<Arrival>): (dates: seq<string>)
    ensures forall d :: d in dates <==> exists i :: 0 <= i < |rows| && rows[i].fecha == d
    ensures forall i, j :: 0 <= i < j < |dates| ==> StrLess(dates[j], dates[i])
    ensures |rows| > 0 ==> |dates| > 0
  {
    var f := Fechas(rows);
    assert forall d :: d in f <==> exists i :: 0 <= i < |rows| && rows[i].fecha == d by {
      forall d | (exists i :: 0 <= i < |rows| && rows[i].fecha == d) ensures d in f {
        var i :| 0 <= i < |rows| && rows[i].fecha == d;
        assert f[i] == d;
      }
    }
    assert |rows| > 0 ==> f[0] in f;
    DescendingDistinct(f)
  }

  function Empresas(rows: seq<Arrival>): (r: seq<string>)
    ensures |r| == |rows| && forall i :: 0 <= i < |rows| ==> r[i] == rows[i].empresa
  {
    seq(|rows|, i requires 0 <= i < |rows| => rows[i].empresa)
  }

  function Destinos(rows: seq<Arrival>): (r: seq<string>)
    ensures |r| == |rows| && forall i :: 0 <= i < |rows| ==> r[i] == rows[i].destino
  {
    seq(|rows|, i requires 0 <= i < |rows| => rows[i].destino)
  }

  /** The arrivals of one date. */
  function DayRows(rows: seq<Arrival>, date: string): (r: seq<Arrival>)
    ensures forall x :: x in r <==> x in rows && x.fecha == date
  {
    Filter(rows, (x: Arrival) => x.fecha == date)
  }

  /** `companies`: the distinct companies arriving on the date, ascending. */
  function Companies(rows: seq<Arrival>, date: string): (r: seq<string>)
    ensures forall c :: c in r <==> exists x :: x in rows && x.fecha == date && x.empresa == c
    ensures forall i, j :: 0 <= i < j < |r| ==> StrLess(r[i], r[j])
  {
    var day := DayRows(rows, date);
    var e := Empresas(day);
    assert forall c :: c in e <==> exists x :: x in day && x.empresa == c by {
      forall c | c in e ensures exists x :: x in day && x.empresa == c {
        var i :| 0 <= i < |e| && e[i] == c;
        assert day[i] in day;
      }
      forall c | (exists x :: x in day && x.empresa == c) ensures c in e {
        var x :| x in day && x.empresa == c;
        var i :| 0 <= i < |day| && day[i] == x;
        assert e[i] == c;
      }
    }
    SortedDistinct(e)
  }

  /** The arrivals of one date and company. */
  function CompanyRows(rows: seq<Arrival>, date: string, company: string): (r: seq<Arrival>)
    ensures forall x :: x in r <==> x in rows && x.fecha == date && x.empresa == company
  {
    Filter(rows, (x: Arrival) => x.fecha == date && x.empresa == company)
  }

  /** `allDestinations`: the distinct destinations of the company on the date, ascending. */
  function AllDestinations(rows: seq<Arrival>, date: string, company: string): (r: seq<string>)
    ensures forall d :: d in r <==> exists x :: x in rows && x.fecha == date && x.empresa == company && x.destino == d
    ensures forall i, j :: 0 <= i < j < |r| ==> StrLess(r[i], r[j])
  {
    var sel := CompanyRows(rows, date, company);
    var e := Destinos(sel);
    assert forall d :: d in e <==> exists x :: x in sel && x.destino == d by {
      forall d | d in e ensures exists x :: x in sel && x.destino == d {
        var i :| 0 <= i < |e| && e[i] == d;
        assert sel[i] in sel;
      }
      forall d | (exists x :: x in sel && x.destino == d) ensures d in e {
        var x :| x in sel && x.destino == d;
        var i :| 0 <= i < |sel| && sel[i] == x;
        assert e[i] == d;
      }
    }
    SortedDistinct(e)
  }

  /** After a load, the first entry of the date list is the latest date of the arrivals and
      the first company of that date is the least one arriving on it. */
  lemma LoadedSelection(rows: seq<Arrival>)
    requires |rows| > 0
    ensures var dates := DateList(rows);
      |dates| > 0 && (exists x :: x in rows && x.fecha == dates[0])
      && (forall x :: x in rows ==> StrLessEq(x.fecha, dates[0]))
      && |Companies(rows, dates[0])| > 0
      && forall x :: x in rows && x.fecha == dates[0] ==> StrLessEq(Companies(rows, dates[0])[0], x.empresa)
  {
    LatestDate(rows);
    var dates := DateList(rows);
    FirstCompany(rows, dates[0]);
  }

  lemma LatestDate(rows: seq<Arrival>)
    requires |rows| > 0
    ensures var dates := DateList(rows);
      |dates| > 0 && (exists x :: x in rows && x.fecha == dates[0])
      && (forall x :: x in rows ==> StrLessEq(x.fecha, dates[0]))
  {
    var dates := DateList(rows);
    assert rows[0].fecha in dates;
    assert dates[0] in dates;
    var i :| 0 <= i < |rows| && rows[i].fecha == dates[0];
    assert rows[i] in rows;
    forall x | x in rows ensures StrLessEq(x.fecha, dates[0]) {
      var k :| 0 <= k < |rows| && rows[k] == x;
      assert x.fecha in dates;
    }
  }

  lemma FirstCompany(rows: seq<Arrival>, date: string)
    requires exists x :: x in rows && x.fecha == date
    ensures |Companies(rows, date)| > 0
    ensures forall x :: x in rows && x.fecha == date ==> StrLessEq(Companies(rows, date)[0], x.empresa)
  {
    var cs := Companies(rows, date);
    var x0 :| x0 in rows && x0.fecha == date;
    assert x0.empresa in cs;
    forall x | x in rows && x.fecha == date ensures StrLessEq(cs[0], x.empresa) {
      assert x.empresa in cs;
    }
  }

  lemma LoadIsSheet(host: Host, grid: seq<seq<Cell>>, start: nat)
    requires |grid| >= 2 && start == HeaderRow(host, grid)
    ensures start < |grid|
    ensures LoadArrivals(host, grid) ==
      if HeaderThrows(host, grid[start]) then Err(HeaderHole)
      else if |SheetArrivals(host, grid, start)| == 0 then Err(NoData)
      else Ok(SheetArrivals(host, grid, start))
  {
  }

  /** The report's selector state. The hour range stays at its initial 0..23. */
  class ArrivalsBoard {
    var data: seq<Arrival>
    var selectedDate: string
    var selectedCompany: string
    var selectedDestinations: seq<string>

    /** The destination selection never lists a destination twice. */
    predicate Valid()
      reads this
    {
      Distinct(selectedDestinations)
    }

    constructor ()
      ensures Valid()
      ensures data == [] && selectedDate == "" && selectedCompany == "" && selectedDestinations == []
    {
      data := [];
      selectedDate := "";
      selectedCompany := "";
      selectedDestinations := [];
    }

    /** The selection follows the date and company: it is reset to all their destinations. */
    method SyncDestinations()
      modifies this
      ensures Valid()
      ensures selectedDestinations == AllDestinations(data, selectedDate, selectedCompany)
      ensures data == old(data) && selectedDate == old(selectedDate) && selectedCompany == old(selectedCompany)
    {
      selectedDestinations := AllDestinations(data, selectedDate, selectedCompany);
      AscendingDistinct(selectedDestinations);
    }

    /** Loads a decoded grid. On an error nothing changes. Otherwise the arrivals replace
        the data, the latest date is selected, the first company of that date is selected
        and every destination of that company on that date is selected. */
    method ProcessFile(host: Host, grid: seq<seq<Cell>>) returns (error: Option<ArrivalError>)
      requires Valid()
      modifies this
      ensures Valid()
      ensures LoadArrivals(host, grid).Err? ==>
        error == Some(LoadArrivals(host, grid).error)
        && data == old(data) && selectedDate == old(selectedDate) && selectedCompany == old(selectedCompany)
        && selectedDestinations == old(selectedDestinations)
      ensures LoadArrivals(host, grid).Ok? ==>
        error == None && data == LoadArrivals(host, grid).value
        && selectedDate == DateList(data)[0]
        && |Companies(data, selectedDate)| > 0 && selectedCompany == Companies(data, selectedDate)[0]
        && selectedDestinations == AllDestinations(data, selectedDate, selectedCompany)
    {
      if |grid| < 2 {
        return Some(EmptyFile);
      }
      var startRow := FindHeaderRow(host, grid);
      LoadIsSheet(host, grid, startRow);
      if HeaderThrows(host, grid[startRow]) {
        return Some(HeaderHole);
      }
      var processed := SheetArrivals(host, grid, startRow);
      if |processed| == 0 {
        return Some(NoData);
      }
      Install(processed);
      error := None;
    }

    /** Installs loaded arrivals and selects the latest date and its first company. */
    method Install(rows: seq<Arrival>)
      requires |rows| > 0
      modifies this
      ensures Valid()
      ensures data == rows && selectedDate == DateList(rows)[0]
      ensures |Companies(rows, selectedDate)| > 0 && selectedCompany == Companies(rows, selectedDate)[0]
      ensures selectedDestinations == AllDestinations(rows, selectedDate, selectedCompany)
    {
      data := rows;
      LoadedSelection(rows);
      var dates := DateList(rows);
      selectedDate := dates[0];
      var cos := Companies(rows, dates[0]);
      selectedCompany := cos[0];
      SyncDestinations();
    }

    /** Choosing another date keeps the company and reselects all its destinations. */
    method SelectDate(date: string)
      modifies this
      ensures Valid()
      ensures data == old(data) && selectedDate == date && selectedCompany == old(selectedCompany)
      ensures selectedDestinations == AllDestinations(data, date, selectedCompany)
    {
      selectedDate := date;
      SyncDestinations();
    }

    /** Choosing another company reselects all its destinations on the date. */
    method SelectCompany(company: string)
      modifies this
      ensures Valid()
      ensures data == old(data) && selectedDate == old(selectedDate) && selectedCompany == company
      ensures selectedDestinations == AllDestinations(data, selectedDate, company)
    {
      selectedCompany := company;
      SyncDestinations();
    }

    /** A destination button: removes a selected destination, appends an unselected one. */
    method ToggleDestination(dest: string)
      requires Valid()
      modifies this
      ensures Valid()
      ensures data == old(data) && selectedDate == old(selectedDate) && selectedCompany == old(selectedCompany)
      ensures dest in selectedDestinations <==> dest !in old(selectedDestinations)
      ensures forall d :: d != dest ==> (d in selectedDestinations <==> d in old(selectedDestinations))
      ensures dest !in old(selectedDestinations) ==> selectedDestinations == old(selectedDestinations) + [dest]
      ensures dest in old(selectedDestinations) ==>
        selectedDestinations == Filter(old(selectedDestinations), (d: string) => d != dest)
    {
      if dest in selectedDestinations {
        FilterDistinct(selectedDestinations, (d: string) => d != dest);
        selectedDestinations := Filter(selectedDestinations, (d: string) => d != dest);
      } else {
        selectedDestinations := selectedDestinations + [dest];
      }
    }
  }
}
