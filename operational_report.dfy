/** The operational report: loading the "Base de Datos" sheet into dispatch records, the
    date selector, the per-date product list, the fixed KPI cards and the duration
    averages sent along with the analysis request. */
module OperationalReport {
  import opened Wrappers
  import opened JsString
  import opened CivilDate
  import opened Seqs
  import opened Cells
  import opened DataProcessor

  /** One dispatch row of the sheet. */
  datatype Dispatch = Dispatch(
    fecha: string, producto: string, destino: string,
    tonProg: real, tonReal: real, eqProg: real, eqReal: real, regulacionReal: real,
    sdaHours: real, pangHours: real, faenaMetaHours: real, faenaRealHours: real)

  /** The column of every field. */
  datatype Columns = Columns(
    fecha: nat, producto: nat, destino: nat, tonProg: nat, tonReal: nat, eqProg: nat,
    eqReal: nat, regReal: nat, sda: nat, pang: nat, faenaMeta: nat, faenaReal: nat)

  /** The column map: every field's search token and fallback column. */
  function ColumnsOf(headers: seq<string>): Columns {
    Columns(
      GetIdx(headers, "FECHA", 1), GetIdx(headers, "PRODUCTO", 31), GetIdx(headers, "DESTINO", 32),
      GetIdx(headers, "TON_PROG", 33), GetIdx(headers, "TON_REAL", 34), GetIdx(headers, "EQ_PROG", 35),
      GetIdx(headers, "EQ_REAL", 36), GetIdx(headers, "REGULACION", 46), GetIdx(headers, "TPO SDA", 4),
      GetIdx(headers, "TPO PANG", 5), GetIdx(headers, "FAENA META", 49), GetIdx(headers, "FAENA REAL", 50))
  }

  /** A header row that names none of the fields leaves every field at its fallback column. */
  lemma ColumnsFallback(headers: seq<string>)
    requires forall j :: 0 <= j < |headers| ==> headers[j] == ""
    ensures ColumnsOf(headers) == Columns(1, 31, 32, 33, 34, 35, 36, 46, 4, 5, 49, 50)
  {
    GetIdxFallback(headers, "FECHA", 1);
    GetIdxFallback(headers, "PRODUCTO", 31);
    GetIdxFallback(headers, "DESTINO", 32);
    GetIdxFallback(headers, "TON_PROG", 33);
    GetIdxFallback(headers, "TON_REAL", 34);
    GetIdxFallback(headers, "EQ_PROG", 35);
    GetIdxFallback(headers, "EQ_REAL", 36);
    GetIdxFallback(headers, "REGULACION", 46);
    GetIdxFallback(headers, "TPO SDA", 4);
    GetIdxFallback(headers, "TPO PANG", 5);
    GetIdxFallback(headers, "FAENA META", 49);
    GetIdxFallback(headers, "FAENA REAL", 50);
  }

  /** The date of a row: a date cell gives its calendar date, a number is a serial day;
      anything else, text included, gives none. */
  function RowDate(c: Cell): (r: Option<string>)
    ensures c.DateTime? ==> r == Some(IsoDate(c.t.date))
    ensures c.Num? ==> r == SerialToIsoDate(c.n)
    ensures c.Text? || c.Empty? || c.Bool? ==> r.None?
  {
    match c
    case DateTime(t) => Some(IsoDate(t.date))
    case Num(n) => SerialToIsoDate(n)
    case _ => None
  }

  /** `String(cell || 'SIN PRODUCTO').toUpperCase().trim()`: no lower-case ASCII letter and
      no white space at either end. */
  function ProductName(host: Host, c: Cell): (r: string)
    ensures forall i :: 0 <= i < |r| ==> !IsLowerAsciiLetter(r[i])
    ensures r == [] || (!IsSpace(r[0]) && !IsSpace(r[|r| - 1]))
    ensures !Truthy(c) ==> r == "SIN PRODUCTO"
  {
    UpperTrimmed(StringOr(host, c, "SIN PRODUCTO"));
    if !Truthy(c) then
      DefaultProduct();
      Trim(Upper(StringOr(host, c, "SIN PRODUCTO")))
    else Trim(Upper(StringOr(host, c, "SIN PRODUCTO")))
  }

  /** Trimming an upper-cased string leaves no lower-case ASCII letter. */
  lemma UpperTrimmed(s: string)
    ensures var r := Trim(Upper(s)); forall i :: 0 <= i < |r| ==> !IsLowerAsciiLetter(r[i])
  {
    UpperNoLower(s);
    TrimKeepsNoLower(Upper(s));
  }

  /** Trimming a string with no lower-case ASCII letter leaves none. */
  lemma TrimKeepsNoLower(u: string)
    requires forall k :: 0 <= k < |u| ==> !IsLowerAsciiLetter(u[k])
    ensures forall k :: 0 <= k < |Trim(u)| ==> !IsLowerAsciiLetter(Trim(u)[k])
  {
    TrimKeeps(u, c => !IsLowerAsciiLetter(c));
  }

  lemma DefaultProduct()
    ensures Trim(Upper("SIN PRODUCTO")) == "SIN PRODUCTO"
  {
    var s := "SIN PRODUCTO";
    forall i | 0 <= i < |s| ensures UpperChar(s[i]) == s[i] {
    }
    assert Upper(s) == s;
    TrimNoSpace(s);
  }

  /** `String(cell || 'S/D').trim()`. */
  function DestinationName(host: Host, c: Cell): (r: string)
    ensures r == [] || (!IsSpace(r[0]) && !IsSpace(r[|r| - 1]))
    ensures !Truthy(c) ==> r == "S/D"
  {
    if !Truthy(c) then
      DefaultDestination();
      Trim(StringOr(host, c, "S/D"))
    else Trim(StringOr(host, c, "S/D"))
  }

  lemma DefaultDestination()
    ensures Trim("S/D") == "S/D"
  {
    TrimNoSpace("S/D");
  }

  /** One sheet row as a dispatch record; rows of fewer than two cells and rows without a
      usable date are dropped. */
  function ProcessRow(host: Host, cols: Columns, row: seq<Cell>): (r: Option<Dispatch>)
    ensures r.Some? <==> |row| >= 2 && RowDate(CellAt(row, cols.fecha)).Some?
    ensures r.Some? ==> r.value.fecha == RowDate(CellAt(row, cols.fecha)).value
    ensures r.Some? ==> (r.value.producto == ProductName(host, CellAt(row, cols.producto))
                         && r.value.destino == DestinationName(host, CellAt(row, cols.destino)))
    ensures r.Some? ==> (r.value.tonProg == CleanNumeric(host, CellAt(row, cols.tonProg))
                         && r.value.tonReal == CleanNumeric(host, CellAt(row, cols.tonReal))
                         && r.value.eqProg == CleanNumeric(host, CellAt(row, cols.eqProg))
                         && r.value.eqReal == CleanNumeric(host, CellAt(row, cols.eqReal))
                         && r.value.regulacionReal == CleanNumeric(host, CellAt(row, cols.regReal)))
    ensures r.Some? ==> (r.value.sdaHours == ParseExcelTime(CellAt(row, cols.sda))
                         && r.value.pangHours == ParseExcelTime(CellAt(row, cols.pang))
                         && r.value.faenaMetaHours == ParseExcelTime(CellAt(row, cols.faenaMeta))
                         && r.value.faenaRealHours == ParseExcelTime(CellAt(row, cols.faenaReal)))
  {
    if |row| < 2 then None
    else match RowDate(CellAt(row, cols.fecha))
      case None => None
      case Some(fecha) =>
        Some(Dispatch(
          fecha,
          ProductName(host, CellAt(row, cols.producto)),
          DestinationName(host, CellAt(row, cols.destino)),
          CleanNumeric(host, CellAt(row, cols.tonProg)),
          CleanNumeric(host, CellAt(row, cols.tonReal)),
          CleanNumeric(host, CellAt(row, cols.eqProg)),
          CleanNumeric(host, CellAt(row, cols.eqReal)),
          CleanNumeric(host, CellAt(row, cols.regReal)),
          ParseExcelTime(CellAt(row, cols.sda)),
          ParseExcelTime(CellAt(row, cols.pang)),
          ParseExcelTime(CellAt(row, cols.faenaMeta)),
          ParseExcelTime(CellAt(row, cols.faenaReal))))
  }

  /** A text date is never read by this report: the row is dropped. */
  lemma TextDateRejected(host: Host, cols: Columns, row: seq<Cell>)
    requires CellAt(row, cols.fecha).Text?
    ensures ProcessRow(host, cols, row).None?
  {
  }

  function Fechas(rows: seq<Dispatch>): (r: seq<string>)
    ensures |r| == |rows| && forall i :: 0 <= i < |rows| ==> r[i] == rows[i].fecha
  {
    seq(|rows|, i requires 0 <= i < |rows| => rows[i].fecha)
  }

  /** The date selector's list: the distinct dates of the records, latest first. */
  function DateList(rows: seq<Dispatch>): (dates: seq<string>)
    ensures forall d :: d in dates <==> exists x :: x in rows && x.fecha == d
    ensures forall i, j :: 0 <= i < j < |dates| ==> StrLess(dates[j], dates[i])
  {
    FechasMembership(rows);
    DescendingDistinct(Fechas(rows))
  }

  lemma FechasMembership(rows: seq<Dispatch>)
    ensures forall d :: d in Fechas(rows) <==> exists x :: x in rows && x.fecha == d
  {
    forall d | d in Fechas(rows) ensures exists x :: x in rows && x.fecha == d {
      var i :| 0 <= i < |rows| && Fechas(rows)[i] == d;
      assert rows[i] in rows;
    }
    forall d | (exists x :: x in rows && x.fecha == d) ensures d in Fechas(rows) {
      var x :| x in rows && x.fecha == d;
      var i :| 0 <= i < |rows| && rows[i] == x;
      assert Fechas(rows)[i] == d;
    }
  }

  /** The loaded sheet: its records in sheet order and the distinct dates, latest first. */
  datatype Table = Table(rows: seq<Dispatch>, dates: seq<string>)

  /** Fewer than two rows (`"Archivo vacío."`), or a header row on which building the
      column map throws. */
  datatype LoadError = EmptyFile | HeaderHole

  /** Whether building the column map throws: some field's lookup reaches a hole of the
      header row before that field's first match. */
  predicate HeaderThrows(host: Host, row: seq<Cell>) {
    IdxThrows(host, row, "FECHA") || IdxThrows(host, row, "PRODUCTO") || IdxThrows(host, row, "DESTINO")
    || IdxThrows(host, row, "TON_PROG") || IdxThrows(host, row, "TON_REAL") || IdxThrows(host, row, "EQ_PROG")
    || IdxThrows(host, row, "EQ_REAL") || IdxThrows(host, row, "REGULACION") || IdxThrows(host, row, "TPO SDA")
    || IdxThrows(host, row, "TPO PANG") || IdxThrows(host, row, "FAENA META") || IdxThrows(host, row, "FAENA REAL")
  }

  /** The records of a grid whose row 0 is the header row. */
  function SheetRows(host: Host, grid: seq<seq<Cell>>): seq<Dispatch>
    requires |grid| >= 1
  {
    var cols := ColumnsOf(HeaderNames(host, grid[0]));
    FilterMap(grid[1..], row => ProcessRow(host, cols, row))
  }

  /** `processFile` after decoding: fewer than two rows is an error, and so is a header row
      on which the column map throws; otherwise the records and the date list. */
  function ProcessGrid(host: Host, grid: seq<seq<Cell>>): (r: Result<Table, LoadError>)
    ensures r == Err(EmptyFile) <==> |grid| < 2
    ensures r == Err(HeaderHole) <==> |grid| >= 2 && HeaderThrows(host, grid[0])
    ensures r.Ok? ==> r.value.rows == SheetRows(host, grid)
    ensures r.Ok? ==> forall d :: d in r.value.dates <==> exists x :: x in r.value.rows && x.fecha == d
    ensures r.Ok? ==> forall i, j :: 0 <= i < j < |r.value.dates| ==> StrLess(r.value.dates[j], r.value.dates[i])
  {
    if |grid| < 2 then Err(EmptyFile)
    else if HeaderThrows(host, grid[0]) then Err(HeaderHole)
    else
      var rows := SheetRows(host, grid);
      var dates := DateList(rows);
      Ok(Table(rows, dates))
  }

  /** A grid of two or more rows whose header row has no hole always loads. */
  lemma NoHoleLoads(host: Host, grid: seq<seq<Cell>>)
    requires |grid| >= 2 && forall j :: 0 <= j < |grid[0]| ==> !grid[0][j].Empty?
    ensures ProcessGrid(host, grid).Ok?
  {
    var row := grid[0];
    NoHoleNoThrow(host, row, "FECHA");
    NoHoleNoThrow(host, row, "PRODUCTO");
    NoHoleNoThrow(host, row, "DESTINO");
    NoHoleNoThrow(host, row, "TON_PROG");
    NoHoleNoThrow(host, row, "TON_REAL");
    NoHoleNoThrow(host, row, "EQ_PROG");
    NoHoleNoThrow(host, row, "EQ_REAL");
    NoHoleNoThrow(host, row, "REGULACION");
    NoHoleNoThrow(host, row, "TPO SDA");
    NoHoleNoThrow(host, row, "TPO PANG");
    NoHoleNoThrow(host, row, "FAENA META");
    NoHoleNoThrow(host, row, "FAENA REAL");
  }

  /** The first entry of a list in strictly descending order is its latest date. */
  lemma FirstDateIsLatest(dates: seq<string>)
    requires |dates| > 0
    requires forall i, j :: 0 <= i < j < |dates| ==> StrLess(dates[j], dates[i])
    ensures forall d :: d in dates ==> StrLessEq(d, dates[0])
  {
  }

  /** The report's loaded state. */
  class Dashboard {
    var rawData: seq<Dispatch>
    var selectedDate: string

    constructor ()
      ensures rawData == [] && selectedDate == ""
    {
      rawData := [];
      selectedDate := "";
    }

    /** Loads a decoded grid. A grid that fails to load is rejected and nothing changes;
        otherwise the records replace the data and the latest date, if there is one,
        becomes the selected date. */
    method ProcessFile(host: Host, grid: seq<seq<Cell>>)
      modifies this
      ensures ProcessGrid(host, grid).Err? ==> rawData == old(rawData) && selectedDate == old(selectedDate)
      ensures ProcessGrid(host, grid).Ok? ==> rawData == SheetRows(host, grid)
      ensures ProcessGrid(host, grid).Ok? ==>
        var dates := ProcessGrid(host, grid).value.dates;
        selectedDate == (if |dates| > 0 then dates[0] else old(selectedDate))
      ensures ProcessGrid(host, grid).Ok? && |rawData| > 0 ==>
        selectedDate in Fechas(rawData) && forall x :: x in rawData ==> StrLessEq(x.fecha, selectedDate)
    {
      var r := ProcessGrid(host, grid);
      if r.Ok? {
        GridDates(host, grid, r);
        Load(r.value);
      }
    }

    /** Installs a loaded table: its records become the data and its first date, when
        there is one, the selected date. */
    method Load(table: Table)
      requires table.dates == DateList(table.rows)
      modifies this
      ensures rawData == table.rows
      ensures selectedDate == (if |table.dates| > 0 then table.dates[0] else old(selectedDate))
      ensures |rawData| > 0 ==>
        selectedDate in Fechas(rawData) && forall x :: x in rawData ==> StrLessEq(x.fecha, selectedDate)
    {
      rawData := table.rows;
      if |table.dates| > 0 {
        selectedDate := table.dates[0];
      }
      if |rawData| > 0 {
        LatestSelected(rawData, table.dates);
      }
    }
  }

  /** The date list of a loaded table is the date list of its records. */
  lemma GridDates(host: Host, grid: seq<seq<Cell>>, r: Result<Table, LoadError>)
    requires r == ProcessGrid(host, grid) && r.Ok?
    ensures r.value.dates == DateList(r.value.rows)
  {
  }

  /** With at least one record, the first entry of the date list is one of the records'
      dates and no record is later. */
  lemma LatestSelected(rows: seq<Dispatch>, dates: seq<string>)
    requires |rows| > 0 && dates == DateList(rows)
    ensures |dates| > 0 && dates[0] in Fechas(rows)
    ensures forall x :: x in rows ==> StrLessEq(x.fecha, dates[0])
  {
    assert rows[0] in rows;
    assert rows[0].fecha in dates;
    FirstDateIsLatest(dates);
    FechasMembership(rows);
  }

  /** `filteredData`: the records of the selected date, in order. */
  function FilteredData(rows: seq<Dispatch>, date: string): (r: seq<Dispatch>)
    ensures forall x :: x in r <==> x in rows && x.fecha == date
  {
    Filter(rows, (x: Dispatch) => x.fecha == date)
  }

  function Productos(rows: seq<Dispatch>): (r: seq<string>)
    ensures |r| == |rows| && forall i :: 0 <= i < |rows| ==> r[i] == rows[i].producto
  {
    seq(|rows|, i requires 0 <= i < |rows| => rows[i].producto)
  }

  /** `productList`: the distinct products of the rows, ascending. */
  function ProductList(rows: seq<Dispatch>): (r: seq<string>)
    ensures forall p :: p in r <==> exists i :: 0 <= i < |rows| && rows[i].producto == p
    ensures forall i, j :: 0 <= i < j < |r| ==> StrLess(r[i], r[j])
  {
    var ps := Productos(rows);
    assert forall p :: p in ps <==> exists i :: 0 <= i < |rows| && rows[i].producto == p by {
      forall p | (exists i :: 0 <= i < |rows| && rows[i].producto == p) ensures p in ps {
        var i :| 0 <= i < |rows| && rows[i].producto == p;
        assert ps[i] == p;
      }
    }
    SortedDistinct(ps)
  }

  function TonProg(rows: seq<Dispatch>): real { SumOf(rows, (x: Dispatch) => x.tonProg) }
  function TonReal(rows: seq<Dispatch>): real { SumOf(rows, (x: Dispatch) => x.tonReal) }
  function EqProg(rows: seq<Dispatch>): real { SumOf(rows, (x: Dispatch) => x.eqProg) }
  function EqReal(rows: seq<Dispatch>): real { SumOf(rows, (x: Dispatch) => x.eqReal) }
  function TotalRegulations(rows: seq<Dispatch>): real { SumOf(rows, (x: Dispatch) => x.regulacionReal) }

  function FaenaRealHours(rows: seq<Dispatch>): seq<real> {
    seq(|rows|, i requires 0 <= i < |rows| => rows[i].faenaRealHours)
  }

  function FaenaMetaHours(rows: seq<Dispatch>): seq<real> {
    seq(|rows|, i requires 0 <= i < |rows| => rows[i].faenaMetaHours)
  }

  function SdaHours(rows: seq<Dispatch>): seq<real> {
    seq(|rows|, i requires 0 <= i < |rows| => rows[i].sdaHours)
  }

  function PangHours(rows: seq<Dispatch>): seq<real> {
    seq(|rows|, i requires 0 <= i < |rows| => rows[i].pangHours)
  }

  /** The warning threshold of the time deviation: ten minutes. */
  const DeviationWarning: real := 10.0 / 60.0

  /** The KPI cards as numbers; `deviationText` is the card's text. */
  datatype Kpis = Kpis(
    compliance: real, averageLoad: real, fleetUse: real,
    timeDiff: real, deviationText: string, deviationWarning: bool, totalRegulations: real)

  /** `fixedKPIs`: none for no rows; every ratio is 0 when its denominator is not positive. */
  function FixedKpis(rows: seq<Dispatch>): (r: Option<Kpis>)
    ensures r.None? <==> |rows| == 0
    ensures r.Some? ==>
      && r.value.compliance == (if TonProg(rows) > 0.0 then TonReal(rows) / TonProg(rows) * 100.0 else 0.0)
      && r.value.averageLoad == (if EqReal(rows) > 0.0 then TonReal(rows) / EqReal(rows) else 0.0)
      && r.value.fleetUse == (if EqProg(rows) > 0.0 then EqReal(rows) / EqProg(rows) * 100.0 else 0.0)
      && r.value.timeDiff == PositiveMean(FaenaRealHours(rows)) - PositiveMean(FaenaMetaHours(rows))
      && r.value.deviationText == DeviationText(r.value.timeDiff)
      && (r.value.deviationWarning <==> r.value.timeDiff > DeviationWarning)
      && r.value.totalRegulations == TotalRegulations(rows)
  {
    if |rows| == 0 then None
    else
      var tp := TonProg(rows);
      var tr := TonReal(rows);
      var ep := EqProg(rows);
      var er := EqReal(rows);
      var diff := PositiveMean(FaenaRealHours(rows)) - PositiveMean(FaenaMetaHours(rows));
      Some(Kpis(
        if tp > 0.0 then tr / tp * 100.0 else 0.0,
        if er > 0.0 then tr / er else 0.0,
        if ep > 0.0 then er / ep * 100.0 else 0.0,
        diff,
        DeviationText(diff),
        diff > DeviationWarning,
        TotalRegulations(rows)))
  }

  /** The deviation card: a '+' before a positive deviation; a deviation that is not
      positive is written "0:00". */
  function DeviationText(diff: real): (r: string)
    ensures diff <= 0.0 ==> r == "0:00"
    ensures diff > 0.0 ==> r == "+" + FormatHoursToTime(diff)
  {
    (if diff > 0.0 then "+" else "") + FormatHoursToTime(diff)
  }

  /** The duration averages of the analysis request, as clock texts. */
  function AnalysisAverages(dayData: seq<Dispatch>): (r: (string, string))
    ensures r.0 == FormatHoursToTime(PositiveMean(SdaHours(dayData)))
    ensures r.1 == FormatHoursToTime(PositiveMean(PangHours(dayData)))
    ensures (forall i :: 0 <= i < |dayData| ==> dayData[i].sdaHours <= 0.0) ==> r.0 == "0:00"
  {
    var sda := PositiveMean(SdaHours(dayData));
    NoPositiveSda(dayData, SdaHours(dayData), sda);
    (FormatHoursToTime(sda), FormatHoursToTime(PositiveMean(PangHours(dayData))))
  }

  /** With no positive SDA time the SDA average is 0. */
  lemma NoPositiveSda(rows: seq<Dispatch>, xs: seq<real>, m: real)
    requires xs == SdaHours(rows) && m == PositiveMean(xs)
    ensures (forall i :: 0 <= i < |rows| ==> rows[i].sdaHours <= 0.0) ==> m == 0.0
  {
    if forall i :: 0 <= i < |rows| ==> rows[i].sdaHours <= 0.0 {
      var p := Positives(xs);
      if |p| > 0 {
        assert p[0] in p;
        assert p[0] in xs;
      }
    }
  }
}
