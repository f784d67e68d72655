/** The shared cell coercions of the utilities module: a dirty cell to a number, a cell to
    decimal hours, and decimal hours to an `H:MM` clock text. */
module DataProcessor {
  import opened Wrappers
  import opened JsString
  import opened JsNumber
  import opened Cells

  /** The characters kept by the numeric clean: '-', '.' and the decimal digits. */
  const NumericChars: set<char> := {'-', '.', '0', '1', '2', '3', '4', '5', '6', '7', '8', '9'}

  /** The two-step string clean: the first ',' becomes '.', then everything other than
      '-', '.' or a digit is removed. */
  function CleanText(s: string): (r: string)
    ensures forall i :: 0 <= i < |r| ==> r[i] in NumericChars
    ensures (forall i :: 0 <= i < |s| ==> s[i] in NumericChars) ==> r == s
  {
    var replaced := ReplaceFirst(s, ',', '.');
    assert forall i :: 0 <= i < |s| && s[i] in NumericChars ==> replaced[i] in NumericChars;
    KeepOnly(replaced, NumericChars)
  }

  /** `cleanNumeric`: 0 for a missing or empty cell, a number unchanged, and otherwise the
      longest decimal prefix of the cleaned text, or 0 when there is none. */
  function CleanNumeric(host: Host, c: Cell): (r: real)
    ensures c == Empty || c == Text("") ==> r == 0.0
    ensures c.Num? ==> r == c.n
    ensures !(c == Empty || c == Text("") || c.Num?) ==>
      var p := ParseFloat(CleanText(CellString(host, c)));
      (p.None? && r == 0.0) || p == Some(r)
  {
    match c
    case Empty => 0.0
    case Num(n) => n
    case _ => if c == Text("") then 0.0 else OrZero(ParseFloat(CleanText(CellString(host, c))))
  }

  /** A decimal comma followed by a thousands separator reads only up to the second '.':
      "1.234,56" cleans to "1.234.56", which reads as 1.234. */
  lemma CleanNumericCommaExample(host: Host)
    ensures CleanText("1.234,56") == "1.234.56"
    ensures CleanNumeric(host, Text("1.234,56")) == 1.234
  {
    CommaExampleClean();
    CommaExampleParse();
  }

  lemma CommaExampleClean()
    ensures CleanText("1.234,56") == "1.234.56"
  {
    var t := "1.234.56";
    CommaReplaced();
    assert forall i :: 0 <= i < |t| ==> t[i] in NumericChars;
  }

  lemma CommaReplaced()
    ensures ReplaceFirst("1.234,56", ',', '.') == "1.234.56"
  {
    var s := "1.234,56";
    var t := "1.234.56";
    assert IndexOfAny(s, {','}) == 5;
    var r := ReplaceFirst(s, ',', '.');
    assert forall i :: 0 <= i < |s| ==> r[i] == t[i];
    assert r == t;
  }

  lemma CommaExampleParse()
    ensures ParseFloat("1.234.56") == Some(1.234)
  {
    var t := "1.234.56";
    CommaExampleTrim();
    CommaExampleLongest();
    ParseFloatValue(t, 5);
  }

  lemma CommaExampleTrim()
    ensures TrimStart("1.234.56") == "1.234.56"
  {
    assert !IsSpace("1.234.56"[0]);
  }

  /** "1.234" is the longest decimal-literal prefix of "1.234.56". */
  lemma CommaExampleLongest()
    ensures var t := "1.234.56";
      IsDecimalLiteral(t[..5]) && LiteralValue(t[..5]) == 1.234
      && forall j :: 5 < j <= |t| ==> !IsDecimalLiteral(t[..j])
  {
    var t := "1.234.56";
    OnePointLiteral();
    assert t[..5] == "1.234";
    LongerPrefixes();
  }

  lemma LongerPrefixes()
    ensures var t := "1.234.56"; forall j :: 5 < j <= |t| ==> !IsDecimalLiteral(t[..j])
  {
    var t := "1.234.56";
    forall j | 5 < j <= |t| ensures !IsDecimalLiteral(t[..j]) {
      if j == 6 {
        assert t[..j] == "1.234.";
        NotLiteral("1.234.");
      } else if j == 7 {
        assert t[..j] == "1.234.5";
        NotLiteral("1.234.5");
      } else {
        assert t[..j] == "1.234.56";
        NotLiteral("1.234.56");
      }
    }
  }

  lemma OnePointLiteral()
    ensures IsDecimalLiteral("1.234") && LiteralValue("1.234") == 1.234
  {
    var m := "1.234";
    assert Unsigned(m) == m;
    OnePointShape();
    assert m[..5] == m;
    assert m[..1] == "1" && m[2..] == "234";
    assert DigitsValue("1") == 1;
    assert DigitsValue("234") == 234 by {
      assert "234"[..2] == "23" && "23"[..1] == "2";
    }
    assert Pow10(3) == 1000;
    assert FractionValue("234") == 234.0 / 1000.0;
    assert MantissaValue(m) == 1.0 + 234.0 / 1000.0;
    assert Scale(0) == 1.0;
  }

  lemma OnePointShape()
    ensures ExponentStart("1.234") == 5 && IndexOfAny("1.234", {'.'}) == 1
  {
    var m := "1.234";
    assert forall j :: 0 <= j < 5 ==> m[j] !in {'e', 'E'};
    assert m[0] != '.' && m[1..][0] == '.';
  }

  /** A digit, a '.', three digits and a second '.' are not one literal. */
  lemma NotLiteral(t: string)
    requires 6 <= |t| && t[..6] == "1.234." && forall i :: 6 <= i < |t| ==> IsDigit(t[i])
    ensures !IsDecimalLiteral(t)
  {
    assert Unsigned(t) == t;
    assert forall i :: 0 <= i < |t| ==> t[i] != 'e' && t[i] != 'E' by {
      forall i | 0 <= i < |t| ensures t[i] != 'e' && t[i] != 'E' {
        if i < 6 { assert t[i] == "1.234."[i]; }
      }
    }
    assert ExponentStart(t) == |t|;
    assert t[..|t|] == t;
    assert IndexOfAny(t, {'.'}) == 1;
    assert t[5] == '.' && t[2..][3] == '.';
  }

  /** A rendered natural number is cleaned to itself. */
  lemma CleanNumericOfRendered(host: Host, n: nat)
    ensures CleanNumeric(host, Text(NatToString(n))) == n as real
  {
    ParseFloatOfRendered(n);
    CleanNumericOfDigits(host, NatToString(n), n as real);
  }

  lemma CleanNumericOfDigits(host: Host, s: string, v: real)
    requires |s| > 0 && AllDigits(s) && ParseFloat(s) == Some(v)
    ensures CleanNumeric(host, Text(s)) == v
  {
    CleanTextOfDigits(s);
    assert CleanNumeric(host, Text(s)) == OrZero(ParseFloat(CleanText(s)));
  }

  lemma CleanTextOfDigits(s: string)
    requires AllDigits(s)
    ensures CleanText(s) == s
  {
    forall i | 0 <= i < |s| ensures s[i] in NumericChars {
      assert IsDigit(s[i]);
    }
  }

  lemma ParseFloatOfRendered(n: nat)
    ensures ParseFloat(NatToString(n)) == Some(n as real)
  {
    var s := NatToString(n);
    AllDigitsRun(s);
    DigitsAreLiteral(s);
    NatToStringValue(n);
    assert s[..|s|] == s;
    ParseFloatValue(s, |s|);
  }

  /** Hours of a date-time cell's time of day. */
  function TimeOfDayHours(t: Stamp): real {
    t.hour as real + t.minute as real / 60.0 + t.second as real / 3600.0
  }

  /** A clock part read by `parseInt(p) || 0`. */
  function ClockPart(p: string): int {
    IntOrZero(ParseInt(p))
  }

  /** The text case of `parseExcelTime`: the trimmed text split on ':' needs at least two
      parts; hours, minutes and (when present) seconds are read by `parseInt`, NaN as 0. */
  function ClockTextHours(s: string): (r: real)
    ensures CountOf(Trim(s), {':'}) == 0 ==> r == 0.0
  {
    var parts := SplitAny(Trim(s), {':'});
    if |parts| >= 2 then
      ClockPart(parts[0]) as real + ClockPart(parts[1]) as real / 60.0
      + (if |parts| > 2 then ClockPart(parts[2]) as real / 3600.0 else 0.0)
    else 0.0
  }

  /** `parseExcelTime`: a cell as decimal hours. */
  function ParseExcelTime(c: Cell): (r: real)
    ensures c == Empty || c == Text("") || c.Bool? ==> r == 0.0
    ensures c.Num? ==> r == c.n * 24.0
    ensures c.DateTime? ==> r == TimeOfDayHours(c.t)
    ensures c.Text? ==> r == ClockTextHours(c.s)
  {
    match c
    case Empty => 0.0
    case Num(n) => n * 24.0
    case DateTime(t) => TimeOfDayHours(t)
    case Bool(_) => 0.0
    case Text(s) => if s == "" then 0.0 else ClockTextHours(s)
  }

  /** `Math.round`: the nearest integer, halves rounded up. */
  function Round(x: real): (r: int)
    ensures x - 0.5 < r as real <= x + 0.5
  {
    (x + 0.5).Floor
  }

  /** `${h}:${String(m).padStart(2, '0')}`. */
  function ClockText(h: int, m: nat): string {
    IntToString(h) + ":" + PadStart2(NatToString(m))
  }

  /** The whole hours and the rounded minutes of a decimal hour count. The minutes lie in
      0..60; they reach 60 when the fraction is at least 59.5/60. */
  function HoursAndMinutes(x: real): (hm: (int, nat))
    ensures hm.0 as real <= x < hm.0 as real + 1.0
    ensures hm.1 <= 60
    ensures (x - hm.0 as real) * 60.0 - 0.5 < hm.1 as real <= (x - hm.0 as real) * 60.0 + 0.5
  {
    var h := x.Floor;
    var m := Round((x - h as real) * 60.0);
    (h, m)
  }

  /** `formatHoursToTime`: "0:00" when the hours are not positive, otherwise whole hours,
      ':' and the rounded minutes padded to two digits. */
  function FormatHoursToTime(x: real): (r: string)
    ensures x <= 0.0 ==> r == "0:00"
    ensures x > 0.0 ==> r == ClockText(HoursAndMinutes(x).0, HoursAndMinutes(x).1)
  {
    if x <= 0.0 then "0:00" else ClockText(HoursAndMinutes(x).0, HoursAndMinutes(x).1)
  }

  /** Minutes are not carried into the hour: 0.999 hours is written "0:60". */
  lemma FormatSixtyMinutes()
    ensures FormatHoursToTime(0.999) == "0:60"
  {
    assert (0.999).Floor == 0;
    assert Round(0.999 * 60.0) == 60;
    assert NatToString(60) == "60" by {
      assert NatToString(6) == "6";
    }
  }

  /** The clock text "h:mm" reads back as h + m/60 hours. */
  lemma ParseClockText(h: nat, m: nat)
    ensures ClockTextHours(ClockText(h, m)) == h as real + m as real / 60.0
  {
    var a := NatToString(h);
    var b := PadStart2(NatToString(m));
    assert ClockText(h, m) == a + ":" + b;
    PaddedDigits(m);
    ClockPartsRendered(h, m);
    ClockOfDigits(a, b);
  }

  /** Two digit runs joined by ':' read back as the first plus the second over 60. */
  lemma ClockOfDigits(a: string, b: string)
    requires |a| > 0 && AllDigits(a) && |b| > 0 && AllDigits(b)
    ensures ClockTextHours(a + ":" + b) == ClockPart(a) as real + ClockPart(b) as real / 60.0
  {
    TrimClock(a, b);
    SplitClock(a, b);
    ClockTextHoursOfParts(a + ":" + b, a, b);
  }

  lemma ClockTextHoursOfParts(s: string, a: string, b: string)
    requires Trim(s) == s && SplitAny(s, {':'}) == [a, b]
    ensures ClockTextHours(s) == ClockPart(a) as real + ClockPart(b) as real / 60.0
  {
  }

  lemma ClockTextHoursOfThreeParts(s: string, a: string, b: string, c: string)
    requires Trim(s) == s && SplitAny(s, {':'}) == [a, b, c]
    ensures ClockTextHours(s) == ClockPart(a) as real + ClockPart(b) as real / 60.0 + ClockPart(c) as real / 3600.0
  {
    var parts := SplitAny(Trim(s), {':'});
    assert |parts| == 3 && parts[0] == a && parts[1] == b && parts[2] == c;
  }

  lemma ClockPartsRendered(h: nat, m: nat)
    ensures ClockPart(NatToString(h)) == h && ClockPart(PadStart2(NatToString(m))) == m
  {
    ParseIntOfRendered(h);
    ParseIntOfRendered(m);
  }

  /** The clock text "h:mm:ss" reads back as h + m/60 + s/3600 hours. */
  lemma ParseClockTextSeconds(h: nat, m: nat, sec: nat)
    ensures ClockTextHours(NatToString(h) + ":" + PadStart2(NatToString(m)) + ":" + PadStart2(NatToString(sec)))
      == h as real + m as real / 60.0 + sec as real / 3600.0
  {
    var a := NatToString(h);
    var b := PadStart2(NatToString(m));
    var c := PadStart2(NatToString(sec));
    PaddedDigits(m);
    PaddedDigits(sec);
    ThreePartsTrim(a, b, c);
    ThreePartsSplit(a, b, c);
    ClockPartsRendered(h, m);
    ClockPartsRendered(sec, sec);
    ClockTextHoursOfThreeParts(a + ":" + b + ":" + c, a, b, c);
  }

  lemma PaddedDigits(n: nat)
    ensures var p := PadStart2(NatToString(n)); |p| >= 2 && AllDigits(p)
  {
  }

  lemma ThreePartsTrim(a: string, b: string, c: string)
    requires |a| > 0 && AllDigits(a) && |c| > 0 && AllDigits(c)
    ensures Trim(a + ":" + b + ":" + c) == a + ":" + b + ":" + c
  {
    ClockAssoc(a, b, c);
    TrimClock(a, b + ":" + c);
  }

  lemma ThreePartsSplit(a: string, b: string, c: string)
    requires |a| > 0 && AllDigits(a) && AllDigits(b) && |c| > 0 && AllDigits(c)
    ensures SplitAny(a + ":" + b + ":" + c, {':'}) == [a, b, c]
  {
    ClockAssoc(a, b, c);
    SplitClockSeconds(a, b, c);
  }

  lemma ClockAssoc(a: string, b: string, c: string)
    ensures (a + ":" + b) + ":" + c == a + ":" + (b + ":" + c)
  {
  }

  lemma SplitClockSeconds(a: string, b: string, c: string)
    requires |a| > 0 && AllDigits(a) && AllDigits(b) && |c| > 0 && AllDigits(c)
    ensures SplitAny(a + ":" + (b + ":" + c), {':'}) == [a, b, c]
  {
    SplitClock(b, c);
    SplitClockPrefix(a, b + ":" + c, [b, c]);
  }

  lemma TrimClock(a: string, b: string)
    requires |a| > 0 && AllDigits(a) && |b| > 0 && IsDigit(b[|b| - 1])
    ensures Trim(a + ":" + b) == a + ":" + b
  {
    var s := a + ":" + b;
    assert s[0] == a[0] && IsDigit(a[0]);
    assert s[|s| - 1] == b[|b| - 1];
    TrimNoSpace(s);
  }

  lemma SplitClock(a: string, b: string)
    requires AllDigits(a) && AllDigits(b)
    ensures SplitAny(a + ":" + b, {':'}) == [a, b]
  {
    NoChar(b, {':'});
    assert SplitAny(b, {':'}) == [b];
    SplitClockPrefix(a, b, [b]);
  }

  lemma SplitClockPrefix(a: string, rest: string, parts: seq<string>)
    requires AllDigits(a) && SplitAny(rest, {':'}) == parts
    ensures SplitAny(a + ":" + rest, {':'}) == [a] + parts
  {
    var s := a + ":" + rest;
    NoChar(a, {':'});
    assert s == a + (":" + rest);
    assert IndexOfAny(":" + rest, {':'}) == 0;
    IndexOfAnyPrefix(a, ":" + rest, {':'});
    assert IndexOfAny(s, {':'}) == |a|;
    assert s[..|a|] == a && s[|a| + 1..] == rest;
  }

  lemma {:induction false} IndexOfAnyPrefix(a: string, b: string, seps: set<char>)
    requires IndexOfAny(a, seps) == |a|
    ensures IndexOfAny(a + b, seps) == |a| + IndexOfAny(b, seps)
  {
    if |a| > 0 {
      assert (a + b)[1..] == a[1..] + b;
      IndexOfAnyPrefix(a[1..], b, seps);
    } else {
      assert a + b == b;
    }
  }

  /** Formatting the hours of a clock text "h:mm" gives the text back, for whole minutes
      below 60. */
  lemma FormatParseRoundTrip(h: nat, m: nat)
    requires m < 60
    ensures FormatHoursToTime(ParseExcelTime(Text(ClockText(h, m)))) == ClockText(h, m)
  {
    var t, y := ClockParsed(h, m);
    FormatClockValue(h, m, t, y);
    RoundTripThrough(t, y);
  }

  /** The text and the hour count of the round trip, named so that the two halves of
      the proof meet on plain values. */
  lemma ClockParsed(h: nat, m: nat) returns (t: string, y: real)
    ensures t == ClockText(h, m) && y == h as real + m as real / 60.0
    ensures ClockTextHours(t) == y
  {
    t := ClockText(h, m);
    y := h as real + m as real / 60.0;
    ParseClockText(h, m);
  }

  lemma RoundTripThrough(t: string, y: real)
    requires ClockTextHours(t) == y && FormatHoursToTime(y) == t
    ensures FormatHoursToTime(ParseExcelTime(Text(t))) == t
  {
  }

  /** h + m/60 hours is written as h, ':' and m padded, for whole minutes below 60. */
  lemma FormatClockValue(h: nat, m: nat, t: string, x: real)
    requires m < 60 && t == ClockText(h, m) && x == h as real + m as real / 60.0
    ensures FormatHoursToTime(x) == t
  {
    if h == 0 && m == 0 {
      assert ClockText(0, 0) == "0:00";
    } else {
      assert x > 0.0;
      var hm := HoursAndMinutes(x);
      assert hm.0 == h;
      assert (x - h as real) * 60.0 == m as real;
      assert hm.1 == m;
    }
  }
}
