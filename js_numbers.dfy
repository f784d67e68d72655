/** JavaScript's string-to-number conversions (`parseInt`, `parseFloat`, `Number`)
    as explicit parsers over a decimal-literal grammar, with values as reals. */
module JsNumber {
  import opened Wrappers
  import opened JsString

  function DigitValue(c: char): nat
    requires IsDigit(c)
  {
    c as int - '0' as int
  }

  /** The value of a run of decimal digits, most significant first. */
  function DigitsValue(s: string): nat
    requires AllDigits(s)
  {
    if |s| == 0 then 0 else DigitsValue(s[..|s| - 1]) * 10 + DigitValue(s[|s| - 1])
  }

  function Pow10(n: nat): (p: nat)
    ensures p >= 1
  {
    if n == 0 then 1 else 10 * Pow10(n - 1)
  }

  /** 10 raised to an integer power, as a real. */
  function Scale(e: int): (r: real)
    ensures r > 0.0
  {
    if e >= 0 then Pow10(e) as real else 1.0 / (Pow10(-e) as real)
  }

  /** Length of the run of digits that starts `s`. */
  function DigitRun(s: string): (k: nat)
    ensures k <= |s| && AllDigits(s[..k])
    ensures k < |s| ==> !IsDigit(s[k])
  {
    if |s| > 0 && IsDigit(s[0]) then
      var k := 1 + DigitRun(s[1..]);
      assert s[..k] == [s[0]] + s[1..][..k - 1];
      k
    else 0
  }

  predicate HasSign(t: string) {
    |t| > 0 && (t[0] == '+' || t[0] == '-')
  }

  function Unsigned(t: string): string {
    if HasSign(t) then t[1..] else t
  }

  /** Digits with at most one '.', and at least one digit: "12", "1.5", "1.", ".5". */
  predicate IsMantissa(m: string) {
    var d := IndexOfAny(m, {'.'});
    AllDigits(m[..d]) && (d == |m| || AllDigits(m[d + 1..])) && (d > 0 || |m| > d + 1)
  }

  /** What follows the 'e' of an exponent: an optional sign and at least one digit. */
  predicate IsExponent(x: string) {
    |Unsigned(x)| > 0 && AllDigits(Unsigned(x))
  }

  function ExponentStart(u: string): nat {
    IndexOfAny(u, {'e', 'E'})
  }

  /** The StrDecimalLiteral grammar read by `parseFloat` and `Number` (without "Infinity"):
      sign? mantissa (('e' | 'E') sign? digits)? */
  predicate IsDecimalLiteral(t: string) {
    var u := Unsigned(t);
    var e := ExponentStart(u);
    IsMantissa(u[..e]) && (e == |u| || IsExponent(u[e + 1..]))
  }

  function ExponentValue(x: string): int
    requires IsExponent(x)
  {
    if |x| > 0 && x[0] == '-' then -(DigitsValue(Unsigned(x)) as int) else DigitsValue(Unsigned(x))
  }

  function MantissaValue(m: string): real
    requires IsMantissa(m)
  {
    var d := IndexOfAny(m, {'.'});
    var frac := if d == |m| then "" else m[d + 1..];
    DigitsValue(m[..d]) as real + FractionValue(frac)
  }

  /** The value of the digits after the '.': 0 when there are none. */
  function FractionValue(frac: string): (r: real)
    requires AllDigits(frac)
    ensures frac == "" ==> r == 0.0
  {
    if frac == "" then 0.0 else DigitsValue(frac) as real / Pow10(|frac|) as real
  }

  /** The exact value a decimal literal denotes. */
  function LiteralValue(t: string): real
    requires IsDecimalLiteral(t)
  {
    var u := Unsigned(t);
    var e := ExponentStart(u);
    var magnitude := MantissaValue(u[..e]) * Scale(if e == |u| then 0 else ExponentValue(u[e + 1..]));
    if |t| > 0 && t[0] == '-' then -magnitude else magnitude
  }

  /** Longest prefix of `s[..n]` that satisfies `p` (0 when there is none), found by
      trying the prefixes from the longest down. */
  function LongestPrefixUpTo(s: string, n: nat, p: string -> bool): (k: nat)
    requires n <= |s|
    ensures k <= n
    ensures k > 0 ==> p(s[..k])
    ensures forall j :: k < j <= n ==> !p(s[..j])
  {
    if n == 0 then 0
    else if p(s[..n]) then n
    else LongestPrefixUpTo(s, n - 1, p)
  }

  /** A digit string is an integer literal denoting its digits' value. */
  lemma DigitsAreLiteral(s: string)
    requires |s| > 0 && AllDigits(s)
    ensures IsDecimalLiteral(s) && LiteralValue(s) == DigitsValue(s) as real
  {
    assert IsDigit(s[0]);
    assert Unsigned(s) == s;
    NoChar(s, {'e', 'E'});
    assert ExponentStart(s) == |s|;
    assert s[..|s|] == s;
    NoChar(s, {'.'});
    MantissaOfDigits(s);
    assert LiteralValue(s) == MantissaValue(s) * Scale(0);
  }

  lemma MantissaOfDigits(s: string)
    requires |s| > 0 && AllDigits(s) && IndexOfAny(s, {'.'}) == |s|
    ensures IsMantissa(s) && MantissaValue(s) == DigitsValue(s) as real
  {
    var d := IndexOfAny(s, {'.'});
    assert s[..d] == s;
    assert IsMantissa(s);
  }

  lemma {:induction false} NoChar(s: string, cs: set<char>)
    requires AllDigits(s)
    requires forall c :: c in cs ==> !IsDigit(c)
    ensures IndexOfAny(s, cs) == |s|
  {
    if |s| > 0 {
      assert s[0] !in cs;
      assert AllDigits(s[1..]);
      NoChar(s[1..], cs);
    }
  }

  /** `parseFloat`: skips leading white space and reads the longest decimal-literal prefix;
      `None` stands for NaN. */
  function ParseFloat(s: string): (r: Option<real>)
    ensures var t := TrimStart(s);
      r.None? <==> forall j :: 0 < j <= |t| ==> !IsDecimalLiteral(t[..j])
  {
    var t := TrimStart(s);
    var k := LongestPrefixUpTo(t, |t|, IsDecimalLiteral);
    if k == 0 then None else Some(LiteralValue(t[..k]))
  }

  /** `parseInt` with no radix: skips leading white space, reads an optional sign and the
      longest run of digits; `None` stands for NaN. */
  function ParseInt(s: string): (r: Option<int>)
    ensures var u := Unsigned(TrimStart(s));
      r.None? <==> (u == [] || !IsDigit(u[0]))
  {
    var t := TrimStart(s);
    var u := Unsigned(t);
    var k := DigitRun(u);
    if k == 0 then None
    else if t[0] == '-' then Some(-(DigitsValue(u[..k]) as int))
    else Some(DigitsValue(u[..k]))
  }

  /** `Number(s)` on a string: the trimmed string must be empty (0) or a decimal literal
      as a whole; `None` stands for NaN. */
  function ToNumber(s: string): (r: Option<real>)
    ensures Trim(s) == [] ==> r == Some(0.0)
    ensures Trim(s) != [] ==> (r.Some? <==> IsDecimalLiteral(Trim(s)))
  {
    var t := Trim(s);
    if t == [] then Some(0.0) else if IsDecimalLiteral(t) then Some(LiteralValue(t)) else None
  }

  /** JavaScript's `x || 0` on a conversion result: NaN becomes 0. */
  function OrZero(r: Option<real>): real {
    if r.Some? then r.value else 0.0
  }

  function IntOrZero(r: Option<int>): int {
    if r.Some? then r.value else 0
  }

  /** Reading back the decimal rendering of a natural number gives the number. */
  lemma {:induction false} NatToStringValue(n: nat)
    ensures DigitsValue(NatToString(n)) == n
  {
    if n >= 10 {
      NatToStringValue(n / 10);
      var s := NatToString(n);
      assert s[..|s| - 1] == NatToString(n / 10);
    }
  }

  /** A leading zero does not change the value of a digit string. */
  lemma {:induction false} LeadingZero(s: string)
    requires AllDigits(s)
    ensures AllDigits("0" + s) && DigitsValue("0" + s) == DigitsValue(s)
  {
    if |s| > 0 {
      LeadingZero(s[..|s| - 1]);
      assert ("0" + s)[..|"0" + s| - 1] == "0" + s[..|s| - 1];
    }
  }

  /** `parseInt` reads back a rendered natural number, also when padded to two digits. */
  lemma ParseIntOfRendered(n: nat)
    ensures ParseInt(NatToString(n)) == Some(n)
    ensures ParseInt(PadStart2(NatToString(n))) == Some(n)
  {
    var s := NatToString(n);
    NatToStringValue(n);
    ParseIntOfDigits(s);
    if |s| < 2 {
      LeadingZero(s);
      assert PadStart2(s) == "0" + s;
      ParseIntOfDigits("0" + s);
    }
  }

  lemma ParseIntOfDigits(s: string)
    requires |s| > 0 && AllDigits(s)
    ensures ParseInt(s) == Some(DigitsValue(s) as int)
  {
    AllDigitsRun(s);
    assert Unsigned(s) == s;
    assert s[..|s|] == s;
  }

  lemma AllDigitsRun(s: string)
    requires |s| > 0 && AllDigits(s)
    ensures TrimStart(s) == s && !HasSign(s) && DigitRun(s) == |s|
  {
    assert IsDigit(s[0]);
    assert TrimStart(s) == s by {
      assert !IsSpace(s[0]);
    }
    assert !HasSign(s) by {
      assert s[0] != '+' && s[0] != '-';
    }
    DigitRunAll(s);
  }

  lemma {:induction false} DigitRunAll(s: string)
    requires AllDigits(s)
    ensures DigitRun(s) == |s|
  {
    if |s| > 0 {
      assert AllDigits(s[1..]);
      DigitRunAll(s[1..]);
    }
  }

  /** `Number` reads back a rendered natural number. */
  lemma ToNumberOfRendered(n: nat)
    ensures ToNumber(NatToString(n)) == Some(n as real)
  {
    var s := NatToString(n);
    AllDigitsRun(s);
    TrimNoSpace(s);
    DigitsAreLiteral(s);
    NatToStringValue(n);
  }

  /** When `t[..k]` is the longest decimal-literal prefix of the trimmed input,
      `parseFloat` yields the value of that prefix. */
  lemma ParseFloatValue(s: string, k: nat)
    requires var t := TrimStart(s);
      0 < k <= |t| && IsDecimalLiteral(t[..k])
      && forall j :: k < j <= |t| ==> !IsDecimalLiteral(t[..j])
    ensures ParseFloat(s) == Some(LiteralValue(TrimStart(s)[..k]))
  {
    var t := TrimStart(s);
    var k' := LongestPrefixUpTo(t, |t|, IsDecimalLiteral);
    assert k' >= k;
    assert k' == k;
  }

  /** When the unsigned trimmed input starts with the digit run `u[..k]`, `parseInt` yields
      that run's value, negated after a leading '-'. */
  lemma ParseIntValue(s: string, k: nat)
    requires var u := Unsigned(TrimStart(s));
      0 < k <= |u| && AllDigits(u[..k]) && (k == |u| || !IsDigit(u[k]))
    ensures var t := TrimStart(s);
      ParseInt(s) == Some(if t[0] == '-' then -(DigitsValue(Unsigned(t)[..k]) as int)
                          else DigitsValue(Unsigned(t)[..k]) as int)
  {
    var u := Unsigned(TrimStart(s));
    DigitRunUnique(u, k);
  }

  lemma {:induction false} DigitRunUnique(u: string, k: nat)
    requires k <= |u| && AllDigits(u[..k]) && (k == |u| || !IsDigit(u[k]))
    ensures DigitRun(u) == k
  {
    if k > 0 {
      assert IsDigit(u[0]);
      assert u[1..][..k - 1] == u[1..k];
      assert k - 1 == |u[1..]| || u[1..][k - 1] == u[k];
      DigitRunUnique(u[1..], k - 1);
    }
  }
}
