/** Proleptic Gregorian calendar arithmetic in UTC: day numbers counted from
    1970-01-01, the `YYYY-MM-DD` form `toISOString` writes, and the conversion of a
    spreadsheet serial day number to a calendar date. */
module CivilDate {
  import opened Wrappers
  import opened JsString

  datatype Date = Date(year: int, month: int, day: int)

  predicate IsLeapYear(y: int) {
    y % 4 == 0 && (y % 100 != 0 || y % 400 == 0)
  }

  function DaysInMonth(y: int, m: int): int {
    if m == 2 then (if IsLeapYear(y) then 29 else 28)
    else if m == 4 || m == 6 || m == 9 || m == 11 then 30
    else 31
  }

  predicate IsValid(d: Date) {
    1 <= d.month <= 12 && 1 <= d.day <= DaysInMonth(d.year, d.month)
  }

  /** Days since 1970-01-01 of a calendar date (H. Hinnant's days_from_civil): eras of
      400 years of 146097 days, years counted from 1 March. */
  function DaysFromCivil(date: Date): int {
    var y := date.year - (if date.month <= 2 then 1 else 0);
    var era := y / 400;
    var yoe := y % 400;
    var mp := if date.month > 2 then date.month - 3 else date.month + 9;
    var doy := (153 * mp + 2) / 5 + date.day - 1;
    var doe := yoe * 365 + yoe / 4 - yoe / 100 + doy;
    era * 146097 + doe - 719468
  }

  /** Year of a 400-year era holding its day `doe` (day 0 is 1 March of year 0 of the era). */
  function YearOfEra(doe: int): int {
    (doe - doe / 1460 + doe / 36524 - doe / 146096) / 365
  }

  /** Day of the March-based year holding day `doe` of an era. */
  function DayOfYear(doe: int): int {
    var yoe := YearOfEra(doe);
    doe - (365 * yoe + yoe / 4 - yoe / 100)
  }

  /** Quotient and remainder of Euclidean division are unique. */
  lemma DivModUnique(x: int, n: int, q: int, r: int)
    requires 0 < n && 0 <= r < n && x == q * n + r
    ensures x / n == q && x % n == r
  {
    var k := q - x / n;
    assert k * n == x % n - r;
  }

  /** Every day of an era falls in one of its 400 years, and only the last day of a year
      that ends in a leap February is its day 365. */
  lemma EraSplit(doe: int)
    requires 0 <= doe < 146097
    ensures 0 <= YearOfEra(doe) < 400
    ensures 0 <= DayOfYear(doe) <= 365
    ensures DayOfYear(doe) == 365 ==>
      ((YearOfEra(doe) + 1) % 4 == 0 && ((YearOfEra(doe) + 1) % 100 != 0 || YearOfEra(doe) == 399))
  {
    if doe == 146096 {
      DivModUnique(doe, 1460, 100, 96);
      DivModUnique(doe, 36524, 4, 0);
      DivModUnique(doe, 146096, 1, 0);
      DivModUnique(145700, 365, 399, 65);
      assert YearOfEra(doe) == 399;
      DivModUnique(399, 4, 99, 3);
      DivModUnique(399, 100, 3, 99);
      DivModUnique(400, 4, 100, 0);
    } else {
      var c := doe / 36524;
      var r := doe % 36524;
      var q := r / 1461;
      var s := r % 1461;
      assert 0 <= c <= 3;
      assert 0 <= q <= 24;
      assert q == 24 ==> s <= 1459;
      var w := 24 * c + q + s;
      var e := if w >= 1460 then 1 else 0;
      DivModUnique(doe, 1460, 25 * c + q + e, w - 1460 * e);
      DivModUnique(doe, 146096, 0, doe);
      var k := (s - e) / 365;
      assert 0 <= s - e;
      assert 0 <= k <= 3;
      var y := 100 * c + 4 * q + k;
      DivModUnique(doe - doe / 1460 + doe / 36524 - doe / 146096, 365, y, (s - e) % 365);
      assert YearOfEra(doe) == y;
      DivModUnique(y, 4, 25 * c + q, k);
      DivModUnique(y, 100, c, 4 * q + k);
      assert DayOfYear(doe) == s - 365 * k;
      if DayOfYear(doe) == 365 {
        assert k == 3 && s == 1460 && q <= 23;
        DivModUnique(y + 1, 4, 25 * c + q + 1, 0);
        DivModUnique(y + 1, 100, c, 4 * q + 4);
      }
    }
  }

  /** Month (0 = March) and day of month of a day of a March-based year. */
  lemma MonthSplit(doy: int)
    requires 0 <= doy <= 365
    ensures var mp := (5 * doy + 2) / 153;
      var d := doy - (153 * mp + 2) / 5 + 1;
      0 <= mp <= 11 && 1 <= d
      && d <= (if mp == 11 then 29 else if mp == 1 || mp == 3 || mp == 6 || mp == 8 then 30 else 31)
      && (mp == 11 && d == 29 ==> doy == 365)
  {
  }

  /** The calendar date of a day number (H. Hinnant's civil_from_days). */
  function CivilFromDays(z: int): Date {
    var z' := z + 719468;
    var doe := z' % 146097;
    DateOfParts(z' / 146097, YearOfEra(doe), DayOfYear(doe))
  }

  /** The date on day `doy` (0 = 1 March) of year `yoe` of era `era`. */
  function DateOfParts(era: int, yoe: int, doy: int): Date {
    var mp := (5 * doy + 2) / 153;
    var d := doy - (153 * mp + 2) / 5 + 1;
    var m := if mp < 10 then mp + 3 else mp - 9;
    Date(yoe + era * 400 + (if m <= 2 then 1 else 0), m, d)
  }

  /** `CivilFromDays` yields a valid date, and `DaysFromCivil` gives the day number back. */
  lemma CivilFromDaysCorrect(z: int)
    ensures IsValid(CivilFromDays(z))
    ensures DaysFromCivil(CivilFromDays(z)) == z
  {
    var z' := z + 719468;
    var era := z' / 146097;
    var doe := z' % 146097;
    EraSplit(doe);
    var yoe := YearOfEra(doe);
    var doy := DayOfYear(doe);
    ValidParts(yoe, era, doy);
    RoundTripParts(z', era, doe, yoe, doy);
  }

  lemma ValidParts(yoe: int, era: int, doy: int)
    requires 0 <= doy <= 365
    requires doy == 365 ==> ((yoe + 1) % 4 == 0 && ((yoe + 1) % 100 != 0 || yoe == 399))
    ensures IsValid(DateOfParts(era, yoe, doy))
  {
    MonthSplit(doy);
    var mp := (5 * doy + 2) / 153;
    var d := doy - (153 * mp + 2) / 5 + 1;
    var m := if mp < 10 then mp + 3 else mp - 9;
    if m == 2 && d == 29 {
      LeapFebruary(yoe, era);
    }
  }

  lemma LeapFebruary(yoe: int, era: int)
    requires (yoe + 1) % 4 == 0 && ((yoe + 1) % 100 != 0 || yoe == 399)
    ensures IsLeapYear(yoe + 1 + era * 400)
  {
    var a := yoe + 1;
    var y := a + era * 400;
    DivModUnique(y, 4, a / 4 + 100 * era, 0);
    if yoe == 399 {
      DivModUnique(y, 400, era + 1, 0);
    } else {
      DivModUnique(y, 100, a / 100 + 4 * era, a % 100);
    }
  }

  lemma RoundTripParts(z': int, era: int, doe: int, yoe: int, doy: int)
    requires era == z' / 146097 && doe == z' % 146097
    requires yoe == YearOfEra(doe) && doy == DayOfYear(doe)
    requires 0 <= yoe < 400 && 0 <= doy <= 365
    ensures DaysFromCivil(DateOfParts(era, yoe, doy)) == z' - 719468
  {
    var date := DateOfParts(era, yoe, doy);
    var mp := (5 * doy + 2) / 153;
    assert 0 <= mp <= 11;
    var d := doy - (153 * mp + 2) / 5 + 1;
    var y' := date.year - (if date.month <= 2 then 1 else 0);
    assert y' == yoe + era * 400;
    DivModUnique(y', 400, era, yoe);
    var mp' := if date.month > 2 then date.month - 3 else date.month + 9;
    assert mp' == mp;
    DaysFromCivilParts(date, era, yoe, (153 * mp' + 2) / 5 + date.day - 1);
    assert (153 * mp' + 2) / 5 + date.day - 1 == doy;
    assert yoe * 365 + yoe / 4 - yoe / 100 + doy == doe;
  }

  /** `DaysFromCivil` in terms of the era, the year of the era and the day of the year it
      computes. */
  lemma DaysFromCivilParts(date: Date, era: int, yoe: int, doy: int)
    requires var y := date.year - (if date.month <= 2 then 1 else 0); y / 400 == era && y % 400 == yoe
    requires doy == (153 * (if date.month > 2 then date.month - 3 else date.month + 9) + 2) / 5 + date.day - 1
    ensures DaysFromCivil(date) == era * 146097 + (yoe * 365 + yoe / 4 - yoe / 100 + doy) - 719468
  {
  }

  /** Day 0 is the Unix epoch. */
  lemma EpochDay()
    ensures CivilFromDays(0) == Date(1970, 1, 1)
  {
    assert 719468 / 146097 == 4 && 719468 % 146097 == 135080;
    assert YearOfEra(135080) == 369;
    assert DayOfYear(135080) == 306;
    assert DateOfParts(4, 369, 306) == Date(1970, 1, 1);
  }

  /** The year as `toISOString` writes it: four digits for years 0 to 9999, otherwise a
      sign and six digits. */
  function YearText(y: int): string {
    if 0 <= y <= 9999 then PadZeros(NatToString(y), 4)
    else if y < 0 then "-" + PadZeros(NatToString(-y), 6)
    else "+" + PadZeros(NatToString(y), 6)
  }

  /** `toISOString().split('T')[0]`: the date part `YYYY-MM-DD`. */
  function IsoDate(d: Date): string {
    YearText(d.year) + "-" + PadZeros(NatToString(if d.month < 0 then 0 else d.month), 2)
      + "-" + PadZeros(NatToString(if d.day < 0 then 0 else d.day), 2)
  }

  /** Offset between the spreadsheet serial day count (day 0 = 1899-12-30) and the Unix
      epoch. */
  const SerialEpochOffset: int := 25569
  const MsPerDay: int := 86400000
  /** Largest magnitude of a JavaScript time value; beyond it a Date is invalid. */
  const MaxTimeValue: int := 8640000000000000

  /** Rounding toward zero, as `new Date(ms)` applies to a fractional time value. */
  function Trunc(x: real): (t: int)
    ensures x >= 0.0 ==> t == x.Floor
    ensures x < 0.0 ==> t == -((-x).Floor)
  {
    if x >= 0.0 then x.Floor else -((-x).Floor)
  }

  /** The time value `new Date((n - 25569) * 86400 * 1000)` holds, or `None` when it is
      invalid (its `getTime()` is NaN): the range is checked on the exact product, before it
      is rounded toward zero. */
  function SerialTimeValue(n: real): (t: Option<int>)
    ensures t.Some? <==>
      -(MaxTimeValue as real) <= (n - SerialEpochOffset as real) * MsPerDay as real <= MaxTimeValue as real
    ensures t.Some? ==> -MaxTimeValue <= t.value <= MaxTimeValue
  {
    var x := (n - SerialEpochOffset as real) * MsPerDay as real;
    if -(MaxTimeValue as real) <= x <= MaxTimeValue as real then Some(Trunc(x)) else None
  }

  /** The UTC date of a serial day number, as `toISOString().split('T')[0]` writes it;
      `None` when the Date would be invalid. */
  function SerialToIsoDate(n: real): (r: Option<string>)
    ensures r.Some? <==> SerialTimeValue(n).Some?
    ensures r.Some? ==> r.value == IsoDate(CivilFromDays(SerialTimeValue(n).value / MsPerDay))
  {
    match SerialTimeValue(n)
    case None => None
    case Some(ms) => Some(IsoDate(CivilFromDays(ms / MsPerDay)))
  }

  /** For serial numbers from the Unix epoch on, the day is floor(n - 25569), and an integral
      serial number n is day n - 25569. */
  lemma SerialDay(n: real)
    requires SerialTimeValue(n).Some?
    ensures n >= SerialEpochOffset as real ==>
      SerialTimeValue(n).value / MsPerDay == (n - SerialEpochOffset as real).Floor
    ensures n == n.Floor as real ==>
      SerialTimeValue(n).value / MsPerDay == n.Floor - SerialEpochOffset
  {
    var x := n - SerialEpochOffset as real;
    var ms := SerialTimeValue(n).value;
    if n >= SerialEpochOffset as real {
      var f := x.Floor;
      assert f as real <= x < f as real + 1.0;
      assert f * MsPerDay <= ms < (f + 1) * MsPerDay;
    }
    if n == n.Floor as real {
      assert x == (n.Floor - SerialEpochOffset) as real;
      assert ms == (n.Floor - SerialEpochOffset) * MsPerDay;
    }
  }

  /** Serial 45292 is 1 January 2024. */
  lemma Serial45292()
    ensures SerialToIsoDate(45292.0) == Some("2024-01-01")
    ensures SerialToIsoDate(45293.0) == Some("2024-01-02")
  {
    SerialJanuary(1, 45292.0, "2024-01-01");
    SerialJanuary(2, 45293.0, "2024-01-02");
  }

  lemma SerialJanuary(d: int, n: real, text: string)
    requires (d == 1 && n == 45292.0 && text == "2024-01-01") || (d == 2 && n == 45293.0 && text == "2024-01-02")
    ensures SerialToIsoDate(n) == Some(text)
  {
    SerialOfDay(45291 + d, 19722 + d);
    assert n == (45291 + d) as real;
    JanuaryDay(d);
    IsoJanuary(d, text);
  }

  lemma SerialOfDay(n: int, z: int)
    requires z == n - SerialEpochOffset && -100000000 <= z <= 100000000
    ensures SerialToIsoDate(n as real) == Some(IsoDate(CivilFromDays(z)))
  {
    var ms := Trunc((n as real - SerialEpochOffset as real) * MsPerDay as real);
    assert (n as real - SerialEpochOffset as real) * MsPerDay as real == (z * MsPerDay) as real;
    assert ms == z * MsPerDay;
    assert SerialTimeValue(n as real) == Some(z * MsPerDay);
    assert (z * MsPerDay) / MsPerDay == z;
  }

  /** Day numbers 19723 and 19724 are the first two days of 2024. */
  lemma JanuaryDay(d: int)
    requires d == 1 || d == 2
    ensures CivilFromDays(19722 + d) == Date(2024, 1, d)
  {
    var doe := 8705 + d;
    DivModUnique(19722 + d + 719468, 146097, 5, doe);
    DivModUnique(doe, 1460, 5, doe - 7300);
    DivModUnique(doe, 36524, 0, doe);
    DivModUnique(doe, 146096, 0, doe);
    DivModUnique(doe - 5, 365, 23, doe - 5 - 8395);
    assert YearOfEra(doe) == 23;
    DivModUnique(23, 4, 5, 3);
    DivModUnique(23, 100, 0, 23);
    assert DayOfYear(doe) == 305 + d;
    DivModUnique(5 * (305 + d) + 2, 153, 10, 5 * d - 3);
    DivModUnique(153 * 10 + 2, 5, 306, 2);
  }

  lemma IsoJanuary(d: int, text: string)
    requires (d == 1 && text == "2024-01-01") || (d == 2 && text == "2024-01-02")
    ensures IsoDate(Date(2024, 1, d)) == text
  {
    assert NatToString(2024) == "2024";
    assert YearText(2024) == "2024";
    assert PadZeros(NatToString(1), 2) == "01";
    if d == 1 {
      assert IsoDate(Date(2024, 1, 1)) == "2024" + "-" + "01" + "-" + "01";
    } else {
      assert PadZeros(NatToString(2), 2) == "02";
      assert IsoDate(Date(2024, 1, 2)) == "2024" + "-" + "01" + "-" + "02";
    }
  }
}
