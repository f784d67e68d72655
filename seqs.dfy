/** Sequence operations the dashboard performs with `filter`, `map`, `reduce`,
    `new Set` and `sort`, with the facts the reports rely on. */
module Seqs {
  import opened Wrappers

  /** `xs.filter(p)`. */
  function Filter<T(!new)>(xs: seq<T>, p: T -> bool): (r: seq<T>)
    ensures |r| <= |xs|
    ensures forall x :: x in r <==> x in xs && p(x)
  {
    if |xs| == 0 then [] else (if p(xs[0]) then [xs[0]] else []) + Filter(xs[1..], p)
  }

  /** Filtering keeps the input order: it distributes over concatenation. */
  lemma {:induction false} FilterAppend<T(!new)>(xs: seq<T>, ys: seq<T>, p: T -> bool)
    ensures Filter(xs + ys, p) == Filter(xs, p) + Filter(ys, p)
  {
    if |xs| == 0 {
      assert xs + ys == ys;
    } else {
      var head := if p(xs[0]) then [xs[0]] else [];
      assert (xs + ys)[0] == xs[0] && (xs + ys)[1..] == xs[1..] + ys;
      assert Filter(xs + ys, p) == head + Filter(xs[1..] + ys, p);
      FilterAppend(xs[1..], ys, p);
      assert head + (Filter(xs[1..], p) + Filter(ys, p)) == (head + Filter(xs[1..], p)) + Filter(ys, p);
    }
  }

  /** `xs.map(f).filter(r => r !== null)`: the values of the accepted elements, in order. */
  function FilterMap<A(!new), B(!new)>(xs: seq<A>, f: A -> Option<B>): (r: seq<B>)
    ensures |r| <= |xs|
    ensures forall y :: y in r <==> exists x :: x in xs && f(x) == Some(y)
  {
    if |xs| == 0 then []
    else
      var rest := FilterMap(xs[1..], f);
      assert forall x :: x in xs[1..] ==> x in xs;
      assert forall x :: x in xs ==> x == xs[0] || x in xs[1..];
      (if f(xs[0]).Some? then [f(xs[0]).value] else []) + rest
  }

  /** The accepted elements keep the input order: filter-mapping distributes over
      concatenation. */
  lemma {:induction false} FilterMapAppend<A(!new), B(!new)>(xs: seq<A>, ys: seq<A>, f: A -> Option<B>)
    ensures FilterMap(xs + ys, f) == FilterMap(xs, f) + FilterMap(ys, f)
  {
    if |xs| == 0 {
      assert xs + ys == ys;
    } else {
      var zs := xs + ys;
      assert zs[0] == xs[0];
      assert zs[1..] == xs[1..] + ys;
      FilterMapAppend(xs[1..], ys, f);
      var h: seq<B> := if f(xs[0]).Some? then [f(xs[0]).value] else [];
      calc {
        FilterMap(zs, f);
        h + FilterMap(zs[1..], f);
        h + (FilterMap(xs[1..], f) + FilterMap(ys, f));
        (h + FilterMap(xs[1..], f)) + FilterMap(ys, f);
      }
    }
  }

  /** Number of elements satisfying `p`. */
  function Count<T>(xs: seq<T>, p: T -> bool): nat {
    if |xs| == 0 then 0 else (if p(xs[0]) then 1 else 0) + Count(xs[1..], p)
  }

  lemma {:induction false} CountIsFilterLength<T(!new)>(xs: seq<T>, p: T -> bool)
    ensures Count(xs, p) == |Filter(xs, p)|
  {
    if |xs| > 0 {
      CountIsFilterLength(xs[1..], p);
    }
  }

  lemma {:induction false} CountAll<T>(xs: seq<T>, p: T -> bool)
    requires forall x :: x in xs ==> p(x)
    ensures Count(xs, p) == |xs|
  {
    if |xs| > 0 {
      CountAll(xs[1..], p);
    }
  }

  /** `xs.reduce((a, x) => a + f(x), 0)`. */
  function SumOf<T>(xs: seq<T>, f: T -> real): real {
    if |xs| == 0 then 0.0 else f(xs[0]) + SumOf(xs[1..], f)
  }

  lemma {:induction false} SumOfAppend<T>(xs: seq<T>, ys: seq<T>, f: T -> real)
    ensures SumOf(xs + ys, f) == SumOf(xs, f) + SumOf(ys, f)
  {
    if |xs| == 0 {
      assert xs + ys == ys;
    } else {
      SumOfAppend(xs[1..], ys, f);
      assert (xs + ys)[1..] == xs[1..] + ys;
    }
  }

  /** A sum of non-negative terms is non-negative, and positive when one term is. */
  lemma {:induction false} SumOfNonNegative<T>(xs: seq<T>, f: T -> real)
    requires forall x :: x in xs ==> f(x) >= 0.0
    ensures SumOf(xs, f) >= 0.0
    ensures (exists x :: x in xs && f(x) > 0.0) ==> SumOf(xs, f) > 0.0
  {
    if |xs| > 0 {
      SumOfNonNegative(xs[1..], f);
      assert forall x :: x in xs ==> x == xs[0] || x in xs[1..];
    }
  }

  /** Sum of a sequence of reals. */
  function Sum(xs: seq<real>): real {
    if |xs| == 0 then 0.0 else xs[0] + Sum(xs[1..])
  }

  /** Sum of a sequence of naturals. */
  function SumNat(xs: seq<nat>): nat {
    if |xs| == 0 then 0 else xs[0] + SumNat(xs[1..])
  }

  lemma {:induction false} SumNatAppend(xs: seq<nat>, ys: seq<nat>)
    ensures SumNat(xs + ys) == SumNat(xs) + SumNat(ys)
  {
    if |xs| == 0 {
      assert xs + ys == ys;
    } else {
      SumNatAppend(xs[1..], ys);
      assert (xs + ys)[1..] == xs[1..] + ys;
    }
  }

  /** The strictly positive entries, in order: `xs.filter(v => v > 0)`. */
  function Positives(xs: seq<real>): (r: seq<real>)
    ensures forall x :: x in r <==> x in xs && x > 0.0
    ensures |r| <= |xs|
  {
    if |xs| == 0 then []
    else
      assert forall x :: x in xs ==> x == xs[0] || x in xs[1..];
      (if xs[0] > 0.0 then [xs[0]] else []) + Positives(xs[1..])
  }

  lemma {:induction false} PositivesAppend(xs: seq<real>, ys: seq<real>)
    ensures Positives(xs + ys) == Positives(xs) + Positives(ys)
  {
    if |xs| == 0 {
      assert xs + ys == ys;
    } else {
      assert (xs + ys)[1..] == xs[1..] + ys;
      PositivesAppend(xs[1..], ys);
    }
  }

  lemma {:induction false} SumPositive(xs: seq<real>)
    requires forall x :: x in xs ==> x > 0.0
    ensures |xs| > 0 ==> Sum(xs) > 0.0
    ensures Sum(xs) >= 0.0
  {
    if |xs| > 0 {
      assert xs[0] in xs;
      assert forall x :: x in xs[1..] ==> x in xs;
      SumPositive(xs[1..]);
    }
  }

  /** The mean of the strictly positive entries, 0 when there are none: how every
      duration average of the reports is taken. */
  function PositiveMean(xs: seq<real>): (r: real)
    ensures r >= 0.0
    ensures r > 0.0 <==> |Positives(xs)| > 0
  {
    var p := Positives(xs);
    var r := Mean(p);
    PositiveMeanSign(xs, p, r);
    r
  }

  /** The mean times the number of positive entries is their sum. */
  lemma PositiveMeanTimesCount(xs: seq<real>)
    ensures var p := Positives(xs); |p| > 0 ==> PositiveMean(xs) * |p| as real == Sum(p)
  {
    var p := Positives(xs);
    var r := PositiveMean(xs);
    assert r == Mean(p);
    MeanTimesCount(p, r);
  }

  lemma MeanTimesCount(p: seq<real>, r: real)
    requires (forall x :: x in p ==> x > 0.0) && r == Mean(p)
    ensures |p| > 0 ==> r * |p| as real == Sum(p)
  {
    MeanOfPositives(p);
  }

  lemma PositiveMeanSign(xs: seq<real>, p: seq<real>, r: real)
    requires p == Positives(xs) && r == Mean(p)
    ensures r >= 0.0
    ensures r > 0.0 <==> |p| > 0
  {
    MeanOfPositives(p);
  }

  /** The mean is positive exactly when some entry is. */
  lemma PositiveMeanPositive(xs: seq<real>)
    ensures PositiveMean(xs) > 0.0 <==> exists x :: x in xs && x > 0.0
  {
    SomePositive(xs);
  }

  lemma SomePositive(xs: seq<real>)
    ensures |Positives(xs)| > 0 <==> exists x :: x in xs && x > 0.0
  {
    if |Positives(xs)| > 0 {
      assert Positives(xs)[0] in Positives(xs);
    }
  }

  lemma MeanOfPositives(p: seq<real>)
    requires forall x :: x in p ==> x > 0.0
    ensures Mean(p) >= 0.0
    ensures Mean(p) > 0.0 <==> |p| > 0
    ensures |p| > 0 ==> Mean(p) * |p| as real == Sum(p)
  {
    SumPositive(p);
    if |p| > 0 {
      Quotient(Sum(p), |p| as real);
    }
  }

  /** Arithmetic mean, 0 for no entries. */
  function Mean(p: seq<real>): real {
    if |p| > 0 then Sum(p) / |p| as real else 0.0
  }

  lemma Quotient(a: real, n: real)
    requires n > 0.0
    ensures (a / n) * n == a
    ensures a > 0.0 ==> a / n > 0.0
    ensures a >= 0.0 ==> a / n >= 0.0
  {
  }

  /** Non-positive entries do not move the mean: only the positive entries count. */
  lemma PositiveMeanIgnoresNonPositive(xs: seq<real>, v: real)
    requires v <= 0.0
    ensures PositiveMean(xs + [v]) == PositiveMean(xs)
    ensures PositiveMean([v] + xs) == PositiveMean(xs)
  {
    PositivesAppend(xs, [v]);
    PositivesAppend([v], xs);
    assert Positives([v]) == [];
    assert Positives(xs + [v]) == Positives(xs);
    assert Positives([v] + xs) == Positives(xs);
  }

  predicate Distinct<T(==)>(xs: seq<T>) {
    forall i, j :: 0 <= i < j < |xs| ==> xs[i] != xs[j]
  }

  lemma DistinctSnoc<T>(xs: seq<T>, x: T)
    requires Distinct(xs) && x !in xs
    ensures Distinct(xs + [x])
  {
    var ys := xs + [x];
    forall i, j | 0 <= i < j < |ys| ensures ys[i] != ys[j] {
      if j == |xs| {
        assert ys[i] == xs[i];
      }
    }
  }

  /** `[...new Set(xs)]`: the first occurrence of every element, in input order. */
  function Dedup<T(==,!new)>(xs: seq<T>): (r: seq<T>)
    ensures Distinct(r)
    ensures forall x :: x in r <==> x in xs
  {
    DedupFrom(xs, [])
  }

  function DedupFrom<T(==,!new)>(xs: seq<T>, seen: seq<T>): (r: seq<T>)
    requires Distinct(seen)
    ensures Distinct(r)
    ensures forall x :: x in r <==> x in seen || x in xs
    ensures |seen| <= |r| && r[..|seen|] == seen
  {
    if |xs| == 0 then seen
    else if xs[0] in seen then DedupFrom(xs[1..], seen)
    else DedupFrom(xs[1..], seen + [xs[0]])
  }

  /** Appending a value adds it to the first-appearance order unless it was already there. */
  lemma {:induction false} DedupFromSnoc<T(!new)>(xs: seq<T>, seen: seq<T>, x: T)
    requires Distinct(seen)
    ensures DedupFrom(xs + [x], seen) ==
      if x in seen || x in xs then DedupFrom(xs, seen) else DedupFrom(xs, seen) + [x]
  {
    if |xs| == 0 {
      assert xs + [x] == [x];
      assert [x][1..] == [];
    } else {
      assert (xs + [x])[1..] == xs[1..] + [x];
      if xs[0] in seen {
        DedupFromSnoc(xs[1..], seen, x);
      } else {
        DedupFromSnoc(xs[1..], seen + [xs[0]], x);
      }
    }
  }

  lemma DedupSnoc<T(!new)>(xs: seq<T>, x: T)
    ensures Dedup(xs + [x]) == if x in xs then Dedup(xs) else Dedup(xs) + [x]
  {
    DedupFromSnoc(xs, [], x);
  }

  /** The de-duplication of a prefix is a prefix of the de-duplication. */
  lemma {:induction false} DedupPrefix<T(!new)>(xs: seq<T>, n: nat)
    requires n <= |xs|
    ensures |Dedup(xs[..n])| <= |Dedup(xs)| && Dedup(xs)[..|Dedup(xs[..n])|] == Dedup(xs[..n])
    decreases |xs| - n
  {
    if n == |xs| {
      assert xs[..n] == xs;
    } else {
      DedupPrefix(xs, n + 1);
      assert xs[..n + 1] == xs[..n] + [xs[n]];
      DedupSnoc(xs[..n], xs[n]);
    }
  }

  /** First-occurrence order: a key listed no later than the key of `xs[i]` already occurs
      at or before position `i`. */
  lemma DedupOrder<T(!new)>(xs: seq<T>, i: nat, a: nat, b: nat)
    requires i < |xs| && a <= b < |Dedup(xs)| && Dedup(xs)[b] == xs[i]
    ensures exists j :: 0 <= j <= i && xs[j] == Dedup(xs)[a]
  {
    var r := Dedup(xs);
    var p := Dedup(xs[..i + 1]);
    DedupPrefix(xs, i + 1);
    assert xs[..i + 1][i] == xs[i];
    assert xs[i] in p;
    var c :| 0 <= c < |p| && p[c] == xs[i];
    assert r[c] == p[c];
    assert b == c;
    assert r[a] == p[a];
    assert r[a] in xs[..i + 1];
    var j :| 0 <= j < i + 1 && xs[..i + 1][j] == r[a];
    assert xs[j] == r[a];
  }

  /** How often `x` occurs in `xs`. */
  function Occurrences<T(==)>(xs: seq<T>, x: T): nat {
    if |xs| == 0 then 0 else (if xs[0] == x then 1 else 0) + Occurrences(xs[1..], x)
  }

  /** In a sequence without repetitions every value occurs once or not at all. */
  lemma {:induction false} DistinctOccurrences<T>(xs: seq<T>, x: T)
    requires Distinct(xs)
    ensures Occurrences(xs, x) == if x in xs then 1 else 0
  {
    if |xs| > 0 {
      assert Distinct(xs[1..]);
      DistinctOccurrences(xs[1..], x);
      assert x in xs <==> x == xs[0] || x in xs[1..];
    }
  }

  lemma {:induction false} OccurrencesAppend<T>(xs: seq<T>, ys: seq<T>, x: T)
    ensures Occurrences(xs + ys, x) == Occurrences(xs, x) + Occurrences(ys, x)
  {
    if |xs| == 0 {
      assert xs + ys == ys;
    } else {
      assert (xs + ys)[1..] == xs[1..] + ys;
      OccurrencesAppend(xs[1..], ys, x);
    }
  }

  /** The occurrences in `xs` of the values `ds`, summed. */
  function OccurrenceTotal<T(==)>(xs: seq<T>, ds: seq<T>): nat {
    if |ds| == 0 then 0 else Occurrences(xs, ds[0]) + OccurrenceTotal(xs, ds[1..])
  }

  lemma {:induction false} OccurrenceTotalCons<T>(x: T, xs: seq<T>, ds: seq<T>)
    ensures OccurrenceTotal([x] + xs, ds) == Occurrences(ds, x) + OccurrenceTotal(xs, ds)
  {
    assert ([x] + xs)[1..] == xs;
    if |ds| > 0 {
      OccurrenceTotalCons(x, xs, ds[1..]);
    }
  }

  lemma {:induction false} OccurrenceTotalEmpty<T>(ds: seq<T>)
    ensures OccurrenceTotal([], ds) == 0
  {
    if |ds| > 0 {
      OccurrenceTotalEmpty(ds[1..]);
    }
  }

  /** Counted over distinct values that cover `xs`, the occurrences add up to `|xs|`. */
  lemma {:induction false} OccurrenceTotalAll<T>(xs: seq<T>, ds: seq<T>)
    requires Distinct(ds) && forall x :: x in xs ==> x in ds
    ensures OccurrenceTotal(xs, ds) == |xs|
  {
    if |xs| == 0 {
      OccurrenceTotalEmpty(ds);
    } else {
      assert xs == [xs[0]] + xs[1..];
      OccurrenceTotalCons(xs[0], xs[1..], ds);
      DistinctOccurrences(ds, xs[0]);
      OccurrenceTotalAll(xs[1..], ds);
    }
  }

  /** Filtering keeps a sequence free of repetitions. */
  lemma {:induction false} FilterDistinct<T(!new)>(xs: seq<T>, p: T -> bool)
    requires Distinct(xs)
    ensures Distinct(Filter(xs, p))
  {
    if |xs| > 0 {
      assert Distinct(xs[1..]);
      FilterDistinct(xs[1..], p);
    }
  }

  /** Lexicographic order of strings by character code, as the default `sort` compares. */
  predicate StrLess(a: string, b: string) {
    |b| > 0 && (|a| == 0 || a[0] < b[0] || (a[0] == b[0] && StrLess(a[1..], b[1..])))
  }

  predicate StrLessEq(a: string, b: string) {
    a == b || StrLess(a, b)
  }

  lemma {:induction false} StrLessIrreflexive(a: string)
    ensures !StrLess(a, a)
  {
    if |a| > 0 {
      StrLessIrreflexive(a[1..]);
    }
  }

  lemma {:induction false} StrLessTransitive(a: string, b: string, c: string)
    requires StrLess(a, b) && StrLess(b, c)
    ensures StrLess(a, c)
  {
    if |a| > 0 && a[0] == b[0] && b[0] == c[0] {
      StrLessTransitive(a[1..], b[1..], c[1..]);
    }
  }

  lemma {:induction false} StrLessTotal(a: string, b: string)
    ensures a == b || StrLess(a, b) || StrLess(b, a)
  {
    if |a| > 0 && |b| > 0 && a[0] == b[0] {
      StrLessTotal(a[1..], b[1..]);
      if a[1..] == b[1..] {
        assert a == [a[0]] + a[1..] && b == [b[0]] + b[1..];
      }
    }
  }

  lemma {:induction false} StrLessAsymmetric(a: string, b: string)
    requires StrLess(a, b)
    ensures !StrLess(b, a)
  {
    if |a| > 0 && a[0] == b[0] {
      StrLessAsymmetric(a[1..], b[1..]);
    }
  }

  /** A strictly ascending list has no repetitions. */
  lemma AscendingDistinct(xs: seq<string>)
    requires forall i, j :: 0 <= i < j < |xs| ==> StrLess(xs[i], xs[j])
    ensures Distinct(xs)
  {
    forall i, j | 0 <= i < j < |xs| ensures xs[i] != xs[j] {
      StrLessIrreflexive(xs[i]);
    }
  }

  predicate SortedStrings(xs: seq<string>) {
    forall i, j :: 0 <= i < j < |xs| ==> StrLessEq(xs[i], xs[j])
  }

  /** Inserts `x` into a sorted sequence, after every element not greater than it. */
  function InsertString(x: string, xs: seq<string>): (r: seq<string>)
    requires SortedStrings(xs)
    ensures SortedStrings(r)
    ensures multiset(r) == multiset(xs) + multiset{x}
  {
    if |xs| == 0 then [x]
    else if StrLessEq(xs[0], x) then
      var rest := InsertString(x, xs[1..]);
      InsertAfterHead(x, xs, rest);
      [xs[0]] + rest
    else
      InsertBeforeHead(x, xs);
      [x] + xs
  }

  /** The head of a sorted list, not above `x`, stays ahead of `x` inserted in the tail. */
  lemma InsertAfterHead(x: string, xs: seq<string>, rest: seq<string>)
    requires SortedStrings(xs) && |xs| > 0 && StrLessEq(xs[0], x)
    requires SortedStrings(rest) && multiset(rest) == multiset(xs[1..]) + multiset{x}
    ensures SortedStrings([xs[0]] + rest)
    ensures multiset([xs[0]] + rest) == multiset(xs) + multiset{x}
  {
    assert xs == [xs[0]] + xs[1..];
    var r := [xs[0]] + rest;
    forall j | 0 < j < |r|
      ensures StrLessEq(xs[0], r[j])
    {
      var y := rest[j - 1];
      assert y in multiset(rest);
      if y != x {
        assert y in multiset(xs[1..]);
        var k :| 0 <= k < |xs[1..]| && xs[1..][k] == y;
        assert xs[k + 1] == y;
      }
    }
    assert forall i, j :: 0 < i < j < |r| ==> r[i] == rest[i - 1] && r[j] == rest[j - 1];
  }

  /** `x` below the head of a sorted list goes in front. */
  lemma InsertBeforeHead(x: string, xs: seq<string>)
    requires SortedStrings(xs) && |xs| > 0 && !StrLessEq(xs[0], x)
    ensures SortedStrings([x] + xs)
  {
    StrLessTotal(xs[0], x);
    forall j | 0 <= j < |xs| ensures StrLessEq(x, xs[j]) {
      if j > 0 && xs[0] != xs[j] {
        StrLessTransitive(x, xs[0], xs[j]);
      }
    }
  }

  /** `xs.sort()` on strings: ascending, a permutation of the input. */
  function SortStrings(xs: seq<string>): (r: seq<string>)
    ensures SortedStrings(r)
    ensures multiset(r) == multiset(xs)
  {
    if |xs| == 0 then []
    else
      assert xs == [xs[0]] + xs[1..];
      InsertString(xs[0], SortStrings(xs[1..]))
  }

  /** `[...new Set(xs)].sort()`: the distinct values, strictly ascending. */
  function SortedDistinct(xs: seq<string>): (r: seq<string>)
    ensures forall x :: x in r <==> x in xs
    ensures forall i, j :: 0 <= i < j < |r| ==> StrLess(r[i], r[j])
  {
    var d := Dedup(xs);
    var r := SortStrings(d);
    SameElements(d, r);
    forall i, j | 0 <= i < j < |r| ensures StrLess(r[i], r[j]) {
      DistinctAfterPermutation(d, r, i, j);
    }
    r
  }

  lemma SameElements<T>(d: seq<T>, r: seq<T>)
    requires multiset(r) == multiset(d)
    ensures forall x :: x in r <==> x in d
  {
    forall x
      ensures x in r <==> x in d
    {
      assert x in r <==> x in multiset(r);
      assert x in d <==> x in multiset(d);
    }
  }

  lemma DistinctAfterPermutation<T>(d: seq<T>, r: seq<T>, i: int, j: int)
    requires Distinct(d) && multiset(r) == multiset(d)
    requires 0 <= i < j < |r|
    ensures r[i] != r[j]
  {
    if r[i] == r[j] {
      var a, b, c := r[..i], r[i + 1..j], r[j + 1..];
      assert r == a + [r[i]] + b + [r[j]] + c;
      assert multiset(r) == multiset(a) + multiset{r[i]} + multiset(b) + multiset{r[j]} + multiset(c);
      DistinctCount(d, r[i]);
      assert false;
    }
  }

  lemma {:induction false} DistinctCount<T>(d: seq<T>, x: T)
    requires Distinct(d)
    ensures multiset(d)[x] <= 1
  {
    if |d| > 0 {
      assert Distinct(d[1..]);
      DistinctCount(d[1..], x);
      assert d == [d[0]] + d[1..];
    }
  }

  function Reverse<T>(xs: seq<T>): (r: seq<T>)
    ensures |r| == |xs|
    ensures forall i :: 0 <= i < |xs| ==> r[i] == xs[|xs| - 1 - i]
  {
    if |xs| == 0 then [] else Reverse(xs[1..]) + [xs[0]]
  }

  /** `[...new Set(xs)].sort().reverse()`: the distinct values, strictly descending. */
  function DescendingDistinct(xs: seq<string>): (r: seq<string>)
    ensures forall x :: x in r <==> x in xs
    ensures forall i, j :: 0 <= i < j < |r| ==> StrLess(r[j], r[i])
  {
    var s := SortedDistinct(xs);
    var r := Reverse(s);
    assert forall x :: x in r <==> x in s by {
      forall x | x in s ensures x in r {
        var k :| 0 <= k < |s| && s[k] == x;
        assert r[|s| - 1 - k] == x;
      }
    }
    r
  }
}
