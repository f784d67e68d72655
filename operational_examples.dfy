/** Worked header rows for the operational report's column map. */
module OperationalExamples {
  import opened JsString
  import opened Cells
  import opened OperationalReport
  import opened Wrappers
  import opened Seqs
  import opened CivilDate

  /** Headers written with spaces ("TON PROG") do not contain the underscore tokens, so
      the tonnage columns stay at their fallbacks while the named columns resolve. */
  lemma SpacedHeaders()
    ensures var h := ["FECHA", "PRODUCTO", "DESTINO", "TON PROG", "TON REAL"];
      var c := ColumnsOf(h);
      c.fecha == 0 && c.producto == 1 && c.destino == 2 && c.tonProg == 33 && c.tonReal == 34
  {
    SpacedNames();
    SpacedTonnage();
  }

  lemma SpacedNames()
    ensures GetIdx(["FECHA", "PRODUCTO", "DESTINO", "TON PROG", "TON REAL"], "FECHA", 1) == 0
    ensures GetIdx(["FECHA", "PRODUCTO", "DESTINO", "TON PROG", "TON REAL"], "PRODUCTO", 31) == 1
    ensures GetIdx(["FECHA", "PRODUCTO", "DESTINO", "TON PROG", "TON REAL"], "DESTINO", 32) == 2
  {
    var h := ["FECHA", "PRODUCTO", "DESTINO", "TON PROG", "TON REAL"];
    UpperTokens();
    FirstFound(h, "FECHA", 1);
    SecondFound(h, "PRODUCTO", 'P', 31);
    SpacedDestino();
  }

  lemma SpacedDestino()
    ensures GetIdx(["FECHA", "PRODUCTO", "DESTINO", "TON PROG", "TON REAL"], "DESTINO", 32) == 2
  {
    var h := ["FECHA", "PRODUCTO", "DESTINO", "TON PROG", "TON REAL"];
    UpperTokens();
    ThirdFound(h, "DESTINO", 'S', 32);
  }

  /** The first header is the name itself. */
  lemma FirstFound(h: seq<string>, name: string, fallback: nat)
    requires Upper(name) == name && |h| > 0 && h[0] == name
    ensures GetIdx(h, name, fallback) == 0
  {
    Found(h, name, 0, fallback);
  }

  /** The second header is the name and the first lacks one of its characters. */
  lemma SecondFound(h: seq<string>, name: string, x: char, fallback: nat)
    requires Upper(name) == name && |h| > 1 && h[1] == name
    requires x in name && x !in h[0]
    ensures GetIdx(h, name, fallback) == 1
  {
    Missing(h[0], name, x);
    Found(h, name, 1, fallback);
  }

  /** The third header is the name and the first two lack one of its characters. */
  lemma ThirdFound(h: seq<string>, name: string, x: char, fallback: nat)
    requires Upper(name) == name && |h| > 2 && h[2] == name
    requires x in name && x !in h[0] && x !in h[1]
    ensures GetIdx(h, name, fallback) == 2
  {
    Missing(h[0], name, x);
    Missing(h[1], name, x);
    Found(h, name, 2, fallback);
  }

  /** The fourth header is the name and the first three lack one of its characters. */
  lemma FourthFound(h: seq<string>, name: string, x: char, y: char, fallback: nat)
    requires Upper(name) == name && |h| > 3 && h[3] == name
    requires x in name && x !in h[0] && x !in h[1] && y in name && y !in h[2]
    ensures GetIdx(h, name, fallback) == 3
  {
    Missing(h[0], name, x);
    Missing(h[1], name, x);
    Missing(h[2], name, y);
    Found(h, name, 3, fallback);
  }

  lemma SpacedTonnage()
    ensures GetIdx(["FECHA", "PRODUCTO", "DESTINO", "TON PROG", "TON REAL"], "TON_PROG", 33) == 33
    ensures GetIdx(["FECHA", "PRODUCTO", "DESTINO", "TON PROG", "TON REAL"], "TON_REAL", 34) == 34
  {
    UpperTokens();
    Absent5("FECHA", "PRODUCTO", "DESTINO", "TON PROG", "TON REAL", "TON_PROG", '_', 33);
    Absent5("FECHA", "PRODUCTO", "DESTINO", "TON PROG", "TON REAL", "TON_REAL", '_', 34);
  }

  /** The same sheet with underscore headers resolves its tonnage columns. */
  lemma UnderscoreHeaders()
    ensures var h := ["FECHA", "PRODUCTO", "TON_PROG", "TON_REAL"];
      var c := ColumnsOf(h);
      c.fecha == 0 && c.producto == 1 && c.tonProg == 2 && c.tonReal == 3 && c.destino == 32
  {
    UnderscoreNames();
    UnderscoreProg();
    UnderscoreReal();
  }

  lemma UnderscoreNames()
    ensures GetIdx(["FECHA", "PRODUCTO", "TON_PROG", "TON_REAL"], "FECHA", 1) == 0
    ensures GetIdx(["FECHA", "PRODUCTO", "TON_PROG", "TON_REAL"], "PRODUCTO", 31) == 1
    ensures GetIdx(["FECHA", "PRODUCTO", "TON_PROG", "TON_REAL"], "DESTINO", 32) == 32
  {
    var h := ["FECHA", "PRODUCTO", "TON_PROG", "TON_REAL"];
    UpperTokens();
    FirstFound(h, "FECHA", 1);
    SecondFound(h, "PRODUCTO", 'P', 31);
    UnderscoreDestino();
  }

  lemma UnderscoreDestino()
    ensures GetIdx(["FECHA", "PRODUCTO", "TON_PROG", "TON_REAL"], "DESTINO", 32) == 32
  {
    UpperTokens();
    Absent4("FECHA", "PRODUCTO", "TON_PROG", "TON_REAL", "DESTINO", 'S', 32);
  }

  lemma UnderscoreProg()
    ensures GetIdx(["FECHA", "PRODUCTO", "TON_PROG", "TON_REAL"], "TON_PROG", 33) == 2
  {
    var h := ["FECHA", "PRODUCTO", "TON_PROG", "TON_REAL"];
    UpperTokens();
    ThirdFound(h, "TON_PROG", '_', 33);
  }

  lemma UnderscoreReal()
    ensures GetIdx(["FECHA", "PRODUCTO", "TON_PROG", "TON_REAL"], "TON_REAL", 34) == 3
  {
    var h := ["FECHA", "PRODUCTO", "TON_PROG", "TON_REAL"];
    UpperTokens();
    FourthFound(h, "TON_REAL", '_', 'L', 34);
  }

  /** The tokens of the examples are already upper case. */
  lemma UpperTokens()
    ensures Upper("FECHA") == "FECHA" && Upper("PRODUCTO") == "PRODUCTO" && Upper("DESTINO") == "DESTINO"
    ensures Upper("TON_PROG") == "TON_PROG" && Upper("TON_REAL") == "TON_REAL"
  {
    UpperFixed("FECHA");
    UpperFixed("PRODUCTO");
    UpperFixed("DESTINO");
    UpperFixed("TON_PROG");
    UpperFixed("TON_REAL");
  }

  /** A header holding a character the name lacks does not contain the name. */
  lemma Missing(h: string, name: string, c: char)
    requires c in name && c !in h
    ensures !Contains(h, name)
  {
    var k :| 0 <= k < |name| && name[k] == c;
    MissingChar(h, name, k);
  }

  /** A name found in header `j`, equal to it, and in no earlier header resolves to `j`. */
  lemma Found(headers: seq<string>, name: string, j: nat, fallback: nat)
    requires Upper(name) == name && j < |headers| && headers[j] == name
    requires forall i :: 0 <= i < j ==> !Contains(headers[i], name)
    ensures GetIdx(headers, name, fallback) == j
  {
    ContainsSelf(name);
    FoundName(headers, name, j, fallback);
  }

  lemma Absent5(a: string, b: string, c: string, d: string, e: string, name: string, x: char, fallback: nat)
    requires Upper(name) == name && x in name
    requires x !in a && x !in b && x !in c && x !in d && x !in e
    ensures GetIdx([a, b, c, d, e], name, fallback) == fallback
  {
    var k :| 0 <= k < |name| && name[k] == x;
    AbsentName([a, b, c, d, e], name, k, fallback);
  }

  lemma Absent4(a: string, b: string, c: string, d: string, name: string, x: char, fallback: nat)
    requires Upper(name) == name && x in name
    requires x !in a && x !in b && x !in c && x !in d
    ensures GetIdx([a, b, c, d], name, fallback) == fallback
  {
    var k :| 0 <= k < |name| && name[k] == x;
    AbsentName([a, b, c, d], name, k, fallback);
  }
  /** The worked sheet: a header row and three dispatch rows on serial days 45292 and
      45293. */
  function ScenarioGrid(): seq<seq<Cell>> {
    [[Text("FECHA"), Text("PRODUCTO"), Text("TON_PROG"), Text("TON_REAL")],
     [Num(45292.0), Text("Litio A"), Num(100.0), Num(90.0)],
     [Num(45292.0), Text("Litio A"), Num(50.0), Num(0.0)],
     [Num(45293.0), Text("Litio B"), Num(20.0), Num(25.0)]]
  }

  /** The header row of the worked sheet reads as its own texts. */
  lemma ScenarioHeader(host: Host, row: seq<Cell>)
    requires |row| == 4 && row[0] == Text("FECHA") && row[1] == Text("PRODUCTO")
    requires row[2] == Text("TON_PROG") && row[3] == Text("TON_REAL")
    ensures HeaderNames(host, row) == ["FECHA", "PRODUCTO", "TON_PROG", "TON_REAL"]
  {
    NameHeaders(host);
    TonnageHeaders(host);
    TokenHeaderRow(host, row);
  }

  /** A row whose four cells read as the underscore tokens reads as that header list. */
  lemma TokenHeaderRow(host: Host, row: seq<Cell>)
    requires |row| == 4 && HeaderName(host, row[0]) == "FECHA" && HeaderName(host, row[1]) == "PRODUCTO"
    requires HeaderName(host, row[2]) == "TON_PROG" && HeaderName(host, row[3]) == "TON_REAL"
    ensures HeaderNames(host, row) == ["FECHA", "PRODUCTO", "TON_PROG", "TON_REAL"]
  {
    var h := HeaderNames(host, row);
    assert |h| == 4;
    assert h[0] == "FECHA";
    assert h[1] == "PRODUCTO";
    assert h[2] == "TON_PROG";
    assert h[3] == "TON_REAL";
    FourItems(h, "FECHA", "PRODUCTO", "TON_PROG", "TON_REAL");
  }

  lemma FourItems(h: seq<string>, a: string, b: string, c: string, d: string)
    requires |h| == 4 && h[0] == a && h[1] == b && h[2] == c && h[3] == d
    ensures h == [a, b, c, d]
  {
  }

  lemma NameHeaders(host: Host)
    ensures HeaderName(host, Text("FECHA")) == "FECHA" && HeaderName(host, Text("PRODUCTO")) == "PRODUCTO"
  {
    UpperTokens();
    TokenHeader(host, "FECHA");
    TokenHeader(host, "PRODUCTO");
  }

  lemma TonnageHeaders(host: Host)
    ensures HeaderName(host, Text("TON_PROG")) == "TON_PROG" && HeaderName(host, Text("TON_REAL")) == "TON_REAL"
  {
    UpperTokens();
    TokenHeader(host, "TON_PROG");
    TokenHeader(host, "TON_REAL");
  }

  /** An upper-case token without surrounding white space is read as itself. */
  lemma TokenHeader(host: Host, s: string)
    requires |s| > 0 && Upper(s) == s && !IsSpace(s[0]) && !IsSpace(s[|s| - 1])
    ensures HeaderName(host, Text(s)) == s
  {
    TrimNoSpace(s);
    HeaderNameOf(host, Text(s), s);
  }

  /** A row of the worked sheet becomes a record of its serial day's date and its tonnages. */
  lemma ScenarioRow(host: Host, cols: Columns, row: seq<Cell>, serial: real, date: string, tp: real, tr: real)
    requires cols.fecha == 0 && cols.producto == 1 && cols.tonProg == 2 && cols.tonReal == 3
    requires |row| == 4 && row[0] == Num(serial) && row[2] == Num(tp) && row[3] == Num(tr)
    requires SerialToIsoDate(serial) == Some(date)
    ensures var r := ProcessRow(host, cols, row);
      r.Some? && r.value.fecha == date && r.value.tonProg == tp && r.value.tonReal == tr
  {
  }

  /** The worked sheet loads as three records, in sheet order. */
  lemma ScenarioRecords(host: Host)
    ensures var rows := SheetRows(host, ScenarioGrid());
      && |rows| == 3
      && rows[0].fecha == "2024-01-01" && rows[0].tonProg == 100.0 && rows[0].tonReal == 90.0
      && rows[1].fecha == "2024-01-01" && rows[1].tonProg == 50.0 && rows[1].tonReal == 0.0
      && rows[2].fecha == "2024-01-02" && rows[2].tonProg == 20.0 && rows[2].tonReal == 25.0
  {
    var g := ScenarioGrid();
    ScenarioHeader(host, g[0]);
    UnderscoreHeaders();
    var cols := ColumnsOf(HeaderNames(host, g[0]));
    var f := row => ProcessRow(host, cols, row);
    assert SheetRows(host, g) == FilterMap(g[1..], f);
    Serial45292();
    ScenarioRow(host, cols, g[1], 45292.0, "2024-01-01", 100.0, 90.0);
    ScenarioRow(host, cols, g[2], 45292.0, "2024-01-01", 50.0, 0.0);
    ScenarioRow(host, cols, g[3], 45293.0, "2024-01-02", 20.0, 25.0);
    FilterMapAllSome3(g[1..], f);
  }

  lemma FilterMapAllSome3<A(!new), B(!new)>(xs: seq<A>, f: A -> Option<B>)
    requires |xs| == 3 && f(xs[0]).Some? && f(xs[1]).Some? && f(xs[2]).Some?
    ensures FilterMap(xs, f) == [f(xs[0]).value, f(xs[1]).value, f(xs[2]).value]
  {
    FilterMapSome(xs, f);
    FilterMapSome(xs[1..], f);
    FilterMapSome(xs[2..], f);
    assert xs[1..][1..] == xs[2..];
    assert xs[2..][1..] == [];
  }

  lemma FilterMapSome<A(!new), B(!new)>(xs: seq<A>, f: A -> Option<B>)
    requires |xs| > 0 && f(xs[0]).Some?
    ensures FilterMap(xs, f) == [f(xs[0]).value] + FilterMap(xs[1..], f)
  {
  }
  /** The worked sheet's header row has no hole, so the sheet loads. */
  lemma ScenarioLoads(host: Host)
    ensures ProcessGrid(host, ScenarioGrid()).Ok?
  {
    var g := ScenarioGrid();
    var h: seq<Cell> := g[0];
    assert forall j :: 0 <= j < |h| ==> h[j].Text?;
    NoHoleLoads(host, g);
  }

  /** A blank header cell between FECHA and PRODUCTO is a hole that the PRODUCTO lookup
      reaches first, so the sheet is rejected and nothing loads. */
  lemma HoleBeforeProducto(host: Host, grid: seq<seq<Cell>>)
    requires |grid| == 2 && grid[0] == [Text("FECHA"), Empty, Text("PRODUCTO")] && grid[1] == [Num(45292.0)]
    ensures ProcessGrid(host, grid) == Err(HeaderHole)
  {
    NameHeaders(host);
    ProductoThrows(host, grid[0]);
    assert HeaderThrows(host, grid[0]);
  }

  lemma ProductoThrows(host: Host, row: seq<Cell>)
    requires |row| > 1 && !row[0].Empty? && HeaderName(host, row[0]) == "FECHA" && row[1].Empty?
    ensures IdxThrows(host, row, "PRODUCTO")
  {
    var slots := HeaderSlots(host, row);
    assert slots[0] == Some("FECHA") && slots[1].None?;
    ProductoNotInFecha();
    HoleAtOne(slots, Upper("PRODUCTO"));
  }

  lemma ProductoNotInFecha()
    ensures !Contains("FECHA", Upper("PRODUCTO"))
  {
    UpperTokens();
    Missing("FECHA", "PRODUCTO", 'P');
  }

  /** A scan whose first header lacks the token and whose second slot is a hole throws. */
  lemma HoleAtOne(slots: seq<Option<string>>, token: string)
    requires |slots| > 1 && slots[0].Some? && !Contains(slots[0].value, token) && slots[1].None?
    ensures ScanHeader(slots, token) == HitHole(1)
  {
    assert ScanHeader(slots[1..], token) == HitHole(0);
  }

  /** Loading the worked sheet offers its two dates, latest first. */
  lemma ScenarioDates(host: Host)
    ensures var t := ProcessGrid(host, ScenarioGrid());
      t.Ok? && t.value.dates == ["2024-01-02", "2024-01-01"]
  {
    var g := ScenarioGrid();
    ScenarioLoads(host);
    ScenarioRecords(host);
    var t := ProcessGrid(host, g);
    TwoDays(t.value.rows, t.value.dates, "2024-01-02", "2024-01-01");
    DayOrder();
    TwoDates(t.value.dates, "2024-01-02", "2024-01-01");
  }

  /** Records on two days offer exactly those two days. */
  lemma TwoDays(rows: seq<Dispatch>, dates: seq<string>, hi: string, lo: string)
    requires |rows| == 3 && rows[0].fecha == lo && rows[1].fecha == lo && rows[2].fecha == hi
    requires forall d :: d in dates <==> exists x :: x in rows && x.fecha == d
    ensures forall d :: d in dates <==> d == hi || d == lo
  {
    forall d ensures d in dates <==> d == hi || d == lo {
      if d in dates {
        var x :| x in rows && x.fecha == d;
        var i :| 0 <= i < |rows| && rows[i] == x;
      }
      if d == hi {
        assert rows[2] in rows;
      }
      if d == lo {
        assert rows[0] in rows;
      }
    }
  }

  lemma DayOrder()
    ensures StrLess("2024-01-01", "2024-01-02")
  {
    var lo, hi := "2024-01-01", "2024-01-02";
    assert lo[9..] == "1" && hi[9..] == "2";
    assert StrLess(lo[9..], hi[9..]);
  }

  /** A strictly descending list holding exactly two dates lists the later one first. */
  lemma TwoDates(dates: seq<string>, hi: string, lo: string)
    requires StrLess(lo, hi)
    requires forall d :: d in dates <==> d == hi || d == lo
    requires forall i, j :: 0 <= i < j < |dates| ==> StrLess(dates[j], dates[i])
    ensures dates == [hi, lo]
  {
    StrLessAsymmetric(lo, hi);
    StrLessIrreflexive(hi);
    forall i, j | 0 <= i < j < |dates| ensures dates[i] != dates[j] {
      StrLessIrreflexive(dates[i]);
    }
    assert Distinct(dates);
    assert Distinct([hi, lo]);
    OccurrenceTotalAll(dates, [hi, lo]);
    assert [hi, lo][1..] == [lo] && [lo][1..] == [];
    assert OccurrenceTotal(dates, [lo]) == Occurrences(dates, lo) + OccurrenceTotal(dates, []);
    assert OccurrenceTotal(dates, [hi, lo]) == Occurrences(dates, hi) + Occurrences(dates, lo);
    DistinctOccurrences(dates, hi);
    DistinctOccurrences(dates, lo);
    assert |dates| == 2;
    assert dates[0] in dates && dates[1] in dates;
    assert StrLess(dates[1], dates[0]);
  }

  /** Filtering the worked sheet to 1 January 2024 keeps its first two records: 150 tonnes
      programmed, 90 delivered, a compliance of 60%. */
  lemma ScenarioKpis(host: Host)
    ensures var t := ProcessGrid(host, ScenarioGrid());
      && t.Ok?
      && var day := FilteredData(t.value.rows, "2024-01-01");
      && |day| == 2
      && TonProg(day) == 150.0 && TonReal(day) == 90.0
      && FixedKpis(day).Some? && FixedKpis(day).value.compliance == 60.0
  {
    var g := ScenarioGrid();
    ScenarioLoads(host);
    ScenarioRecords(host);
    var rows := ProcessGrid(host, g).value.rows;
    var date := "2024-01-01";
    var p := (x: Dispatch) => x.fecha == date;
    assert FilteredData(rows, date) == Filter(rows, p);
    FilterFirstTwo(rows, p);
    var day := FilteredData(rows, date);
    SumOfTwo(day, (x: Dispatch) => x.tonProg);
    SumOfTwo(day, (x: Dispatch) => x.tonReal);
    assert TonProg(day) == 150.0 && TonReal(day) == 90.0;
  }

  lemma FilterFirstTwo<T(!new)>(xs: seq<T>, p: T -> bool)
    requires |xs| == 3 && p(xs[0]) && p(xs[1]) && !p(xs[2])
    ensures Filter(xs, p) == [xs[0], xs[1]]
  {
    assert xs[1..][1..] == xs[2..];
    assert xs[2..][1..] == [];
  }

  lemma SumOfTwo<T>(xs: seq<T>, f: T -> real)
    requires |xs| == 2
    ensures SumOf(xs, f) == f(xs[0]) + f(xs[1])
  {
    assert xs[1..][1..] == [];
    assert SumOf(xs[1..], f) == f(xs[1]) + SumOf(xs[1..][1..], f);
  }
}
