/** The JavaScript string operations the dashboard relies on, over Dafny strings:
    trimming, case mapping, substring search, splitting, padding and the decimal
    rendering of integers. */
module JsString {

  /** White space removed by `trim`: the ASCII white-space characters, the
      no-break space and the byte-order mark. */
  predicate IsSpace(c: char) {
    c == ' ' || c == '\t' || c == '\n' || c == '\r' || c == '\U{000B}' || c == '\U{000C}'
    || c == '\U{00A0}' || c == '\U{FEFF}'
  }

  /** `trimStart`: drops the leading white space. */
  function TrimStart(s: string): (r: string)
    ensures |r| <= |s| && r == s[|s| - |r|..]
    ensures forall k :: 0 <= k < |s| - |r| ==> IsSpace(s[k])
    ensures r == [] || !IsSpace(r[0])
  {
    if |s| > 0 && IsSpace(s[0]) then TrimStart(s[1..]) else s
  }

  /** `trimEnd`: drops the trailing white space. */
  function TrimEnd(s: string): (r: string)
    ensures |r| <= |s| && r == s[..|r|]
    ensures forall k :: |r| <= k < |s| ==> IsSpace(s[k])
    ensures r == [] || !IsSpace(r[|r| - 1])
  {
    if |s| > 0 && IsSpace(s[|s| - 1]) then TrimEnd(s[..|s| - 1]) else s
  }

  /** `trim`: drops white space at both ends. */
  function Trim(s: string): (r: string)
    ensures |r| <= |s|
    ensures r == [] || (!IsSpace(r[0]) && !IsSpace(r[|r| - 1]))
  {
    TrimEnd(TrimStart(s))
  }

  /** The trimmed string `r` is the infix of `s` between a run of leading white space,
      which `trimStart` drops to give `t`, and a run of trailing white space. */
  lemma TrimIsInfix(s: string, t: string, r: string)
    requires t == TrimStart(s) && r == Trim(s)
    ensures var i := |s| - |t|;
      i + |r| <= |s| && r == s[i..i + |r|]
      && (forall k :: 0 <= k < i ==> IsSpace(s[k]))
      && (forall k :: i + |r| <= k < |s| ==> IsSpace(s[k]))
  {
    assert r == TrimEnd(t);
    TrimInfix(s, t, r);
    TrimTrailing(s, t, r);
  }

  /** A property every character of `s` has, every character of `Trim(s)` has too. */
  lemma TrimKeeps(s: string, p: char -> bool)
    requires forall k :: 0 <= k < |s| ==> p(s[k])
    ensures forall k :: 0 <= k < |Trim(s)| ==> p(Trim(s)[k])
  {
    var t := TrimStart(s);
    var r := TrimEnd(t);
    TrimInfix(s, t, r);
    var i := |s| - |t|;
    forall k | 0 <= k < |r| ensures p(r[k]) {
      assert r[k] == s[i + k];
    }
  }

  /** Dropping a suffix of the suffix from `|s| - |t|` leaves the infix that starts there. */
  lemma TrimInfix(s: string, t: string, r: string)
    requires |t| <= |s| && t == s[|s| - |t|..] && |r| <= |t| && r == t[..|r|]
    ensures r == s[|s| - |t|..|s| - |t| + |r|]
  {
  }

  /** What follows the trimmed infix in `s` is what `trimEnd` dropped from `t`. */
  lemma TrimTrailing(s: string, t: string, r: string)
    requires |t| <= |s| && t == s[|s| - |t|..] && |r| <= |t|
    requires forall k :: |r| <= k < |t| ==> IsSpace(t[k])
    ensures forall k :: |s| - |t| + |r| <= k < |s| ==> IsSpace(s[k])
  {
    var i := |s| - |t|;
    forall k | i + |r| <= k < |s| ensures IsSpace(s[k]) {
      assert s[k] == t[k - i];
    }
  }

  /** A string with no white space at either end is its own trim. */
  lemma TrimNoSpace(s: string)
    requires s == [] || (!IsSpace(s[0]) && !IsSpace(s[|s| - 1]))
    ensures Trim(s) == s
  {
  }

  predicate IsLowerAsciiLetter(c: char) {
    'a' <= c <= 'z'
  }

  /** `toUpperCase` on one character, for ASCII and Latin-1 letters. */
  function UpperChar(c: char): char {
    if 'a' <= c <= 'z' || ('\U{00E0}' <= c <= '\U{00FE}' && c != '\U{00F7}') then
      (c as int - 32) as char
    else c
  }

  /** `toLowerCase` on one character, for ASCII and Latin-1 letters. */
  function LowerChar(c: char): char {
    if 'A' <= c <= 'Z' || ('\U{00C0}' <= c <= '\U{00DE}' && c != '\U{00D7}') then
      (c as int + 32) as char
    else c
  }

  function Upper(s: string): (r: string)
    ensures |r| == |s|
    ensures forall i :: 0 <= i < |s| ==> r[i] == UpperChar(s[i])
  {
    seq(|s|, i requires 0 <= i < |s| => UpperChar(s[i]))
  }

  function Lower(s: string): (r: string)
    ensures |r| == |s|
    ensures forall i :: 0 <= i < |s| ==> r[i] == LowerChar(s[i])
  {
    seq(|s|, i requires 0 <= i < |s| => LowerChar(s[i]))
  }

  /** Upper-casing leaves no lower-case ASCII letter and is idempotent. */
  lemma UpperIsUpper(s: string)
    ensures forall i :: 0 <= i < |s| ==> !IsLowerAsciiLetter(Upper(s)[i])
    ensures Upper(Upper(s)) == Upper(s)
  {
    UpperNoLower(s);
  }

  /** Upper-casing leaves no lower-case ASCII letter. */
  lemma UpperNoLower(s: string)
    ensures forall i :: 0 <= i < |s| ==> !IsLowerAsciiLetter(Upper(s)[i])
  {
  }

  predicate StartsWith(h: string, t: string) {
    |t| <= |h| && h[..|t|] == t
  }

  /** `h.includes(t)`, searched from the left. */
  predicate Contains(h: string, t: string) {
    StartsWith(h, t) || (|h| > 0 && Contains(h[1..], t))
  }

  predicate OccursAt(h: string, t: string, i: int) {
    0 <= i && i + |t| <= |h| && h[i..i + |t|] == t
  }

  /** The search finds `t` exactly when `t` occurs in `h` at some position. */
  lemma {:induction false} ContainsIff(h: string, t: string)
    ensures Contains(h, t) <==> exists i :: OccursAt(h, t, i)
  {
    if StartsWith(h, t) {
      assert OccursAt(h, t, 0);
    }
    if OccursAt(h, t, 0) {
      assert StartsWith(h, t);
    }
    if |h| > 0 {
      ContainsIff(h[1..], t);
      if Contains(h[1..], t) {
        var i :| OccursAt(h[1..], t, i);
        assert h[1..][i..i + |t|] == h[i + 1..i + 1 + |t|];
        assert OccursAt(h, t, i + 1);
      }
      if i :| OccursAt(h, t, i) {
        if i > 0 {
          assert h[1..][i - 1..i - 1 + |t|] == h[i..i + |t|];
          assert OccursAt(h[1..], t, i - 1);
        }
      }
    }
  }

  /** A string contains itself. */
  lemma ContainsSelf(h: string)
    ensures Contains(h, h)
  {
    assert h[..|h|] == h;
  }

  /** A pattern with a character that never occurs in `h` is not contained in `h`. */
  lemma MissingChar(h: string, t: string, k: nat)
    requires k < |t| && forall i :: 0 <= i < |h| ==> h[i] != t[k]
    ensures !Contains(h, t)
  {
    ContainsIff(h, t);
  }

  /** Upper-casing leaves a string without lower-case letters unchanged. */
  lemma UpperFixed(s: string)
    requires forall i :: 0 <= i < |s| ==> !('a' <= s[i] <= 'z') && s[i] < '\U{00E0}'
    ensures Upper(s) == s
  {
  }

  /** Index of the first character in `seps`, or `|s|` when there is none. */
  function IndexOfAny(s: string, seps: set<char>): (k: nat)
    ensures k <= |s|
    ensures k < |s| ==> s[k] in seps
    ensures forall j :: 0 <= j < k ==> s[j] !in seps
  {
    if |s| == 0 then 0 else if s[0] in seps then 0 else 1 + IndexOfAny(s[1..], seps)
  }

  /** Number of characters of `s` that are in `seps`. */
  function CountOf(s: string, seps: set<char>): nat {
    if |s| == 0 then 0 else (if s[0] in seps then 1 else 0) + CountOf(s[1..], seps)
  }

  /** `s.split(sep)` where every character of `seps` separates, as `split(':')`
      and `split(/[-/]/)` do. */
  function SplitAny(s: string, seps: set<char>): (parts: seq<string>)
    ensures |parts| == CountOf(s, seps) + 1
    ensures forall p :: p in parts ==> forall j :: 0 <= j < |p| ==> p[j] !in seps
    decreases |s|
  {
    var k := IndexOfAny(s, seps);
    if k == |s| then
      NoneOf(s, seps);
      [s]
    else
      CountSplit(s, seps, k);
      [s[..k]] + SplitAny(s[k + 1..], seps)
  }

  lemma NoneOf(s: string, seps: set<char>)
    requires forall j :: 0 <= j < |s| ==> s[j] !in seps
    ensures CountOf(s, seps) == 0
  {
    if |s| > 0 {
      NoneOf(s[1..], seps);
    }
  }

  lemma CountSplit(s: string, seps: set<char>, k: nat)
    requires k < |s| && s[k] in seps
    requires forall j :: 0 <= j < k ==> s[j] !in seps
    ensures CountOf(s, seps) == 1 + CountOf(s[k + 1..], seps)
  {
    if k > 0 {
      CountSplit(s[1..], seps, k - 1);
      assert s[1..][k..] == s[k + 1..];
    } else {
      assert s[1..] == s[k + 1..];
    }
  }

  /** Joins parts with a separator character, the inverse of `split`. */
  function Join(parts: seq<string>, sep: char): string
    requires |parts| > 0
  {
    if |parts| == 1 then parts[0] else parts[0] + [sep] + Join(parts[1..], sep)
  }

  /** Splitting on a single character and joining again restores the string. */
  lemma {:induction false} SplitJoin(s: string, sep: char)
    ensures Join(SplitAny(s, {sep}), sep) == s
    decreases |s|
  {
    var k := IndexOfAny(s, {sep});
    if k < |s| {
      SplitJoin(s[k + 1..], sep);
      assert s == s[..k] + [sep] + s[k + 1..];
    }
  }

  /** `padStart(2, '0')`. */
  function PadStart2(s: string): (r: string)
    ensures |s| >= 2 ==> r == s
    ensures |s| < 2 ==> |r| == 2 && r[2 - |s|..] == s && forall i :: 0 <= i < 2 - |s| ==> r[i] == '0'
  {
    if |s| >= 2 then s else if |s| == 1 then "0" + s else "00"
  }

  /** Pads on the left with '0' to `width` characters. */
  function PadZeros(s: string, width: nat): (r: string)
    ensures |r| == if |s| >= width then |s| else width
    ensures |s| >= width ==> r == s
    ensures |s| < width ==> r[width - |s|..] == s && forall i :: 0 <= i < width - |s| ==> r[i] == '0'
    decreases width - |s|
  {
    if |s| >= width then s else PadZeros("0" + s, width)
  }

  predicate IsDigit(c: char) {
    '0' <= c <= '9'
  }

  predicate AllDigits(s: string) {
    forall i :: 0 <= i < |s| ==> IsDigit(s[i])
  }

  function DigitChar(d: nat): char
    requires d < 10
  {
    ('0' as int + d) as char
  }

  /** Decimal rendering of a natural number, as `String(n)` writes an integer. */
  function NatToString(n: nat): (r: string)
    ensures |r| > 0 && AllDigits(r)
    ensures |r| > 1 ==> r[0] != '0'
    ensures n < 10 ==> |r| == 1
    ensures n >= 10 ==> |r| >= 2
  {
    if n < 10 then [DigitChar(n)] else NatToString(n / 10) + [DigitChar(n % 10)]
  }

  /** Decimal rendering of an integer, with a leading '-' when negative. */
  function IntToString(i: int): (r: string)
    ensures i >= 0 ==> r == NatToString(i)
    ensures i < 0 ==> r == "-" + NatToString(-i)
  {
    if i < 0 then "-" + NatToString(-i) else NatToString(i)
  }

  /** `replace(a, b)` with a string pattern: only the first occurrence changes. */
  function ReplaceFirst(s: string, a: char, b: char): (r: string)
    ensures |r| == |s|
    ensures var k := IndexOfAny(s, {a});
      forall i :: 0 <= i < |s| ==> r[i] == (if i == k then b else s[i])
  {
    if |s| == 0 then s else if s[0] == a then [b] + s[1..] else [s[0]] + ReplaceFirst(s[1..], a, b)
  }

  /** `replace(/[^...]/g, '')`: keeps exactly the characters in `keep`, in order. A single
      character is kept or dropped; with `KeepOnlyAppend` this fixes the whole result. */
  function KeepOnly(s: string, keep: set<char>): (r: string)
    ensures |r| <= |s|
    ensures forall c :: c in r <==> c in s && c in keep
    ensures (forall i :: 0 <= i < |s| ==> s[i] in keep) ==> r == s
    ensures |s| == 1 ==> r == (if s[0] in keep then s else [])
  {
    if |s| == 0 then s
    else if s[0] in keep then [s[0]] + KeepOnly(s[1..], keep)
    else KeepOnly(s[1..], keep)
  }

  /** Keeping distributes over concatenation. */
  lemma {:induction false} KeepOnlyAppend(a: string, b: string, keep: set<char>)
    ensures KeepOnly(a + b, keep) == KeepOnly(a, keep) + KeepOnly(b, keep)
  {
    if |a| > 0 {
      KeepOnlyAppend(a[1..], b, keep);
      var ab := a + b;
      assert ab[0] == a[0] && ab[1..] == a[1..] + b;
      assert KeepOnly(ab, keep) == (if a[0] in keep then [a[0]] else []) + KeepOnly(ab[1..], keep);
      assert KeepOnly(a, keep) == (if a[0] in keep then [a[0]] else []) + KeepOnly(a[1..], keep);
    } else {
      assert a + b == b;
    }
  }
}
