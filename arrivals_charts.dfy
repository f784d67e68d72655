/** The arrivals report's views of the selection: the filtered arrivals, the hourly chart
    buckets, the hour-by-destination table and its footer totals. */
module ArrivalsCharts {
  import opened JsString
  import opened Seqs
  import opened ArrivalsReport

  /** The hour range of the views, which the report never changes. */
  const HourLo: int := 0
  const HourHi: int := 23

  /** `filteredData`: the arrivals of the selected date, company and destinations whose
      hour lies in `HourLo ..= HourHi + 0.99`, in order. */
  function FilteredArrivals(rows: seq<Arrival>, date: string, company: string, dests: seq<string>): (r: seq<Arrival>)
    ensures forall x :: x in r <==>
      (x in rows && x.fecha == date && x.empresa == company && x.destino in dests
       && HourLo as real <= x.hora <= HourHi as real + 0.99)
  {
    Filter(rows, (x: Arrival) =>
      x.fecha == date && x.empresa == company && x.destino in dests
      && HourLo as real <= x.hora <= HourHi as real + 0.99)
  }

  /** Every filtered arrival falls in one of the chart's hour buckets and in one of the
      selected destinations. */
  lemma FilteredInBuckets(rows: seq<Arrival>, date: string, company: string, dests: seq<string>)
    ensures forall x :: x in FilteredArrivals(rows, date, company, dests) ==>
      HourLo <= x.hora.Floor <= HourHi && x.destino in dests
  {
  }

  /** An arrival in the last hundredth of the last hour is left out of the views. */
  lemma LastHundredthExcluded(rows: seq<Arrival>, date: string, company: string, dests: seq<string>, x: Arrival)
    requires HourHi as real + 0.99 < x.hora
    ensures x !in FilteredArrivals(rows, date, company, dests)
  {
  }

  /** The arrivals of hour `h` (by `Math.floor`) at destination `d`. */
  function HourCount(rows: seq<Arrival>, h: int, d: string): nat {
    if |rows| == 0 then 0
    else (if rows[0].hora.Floor == h && rows[0].destino == d then 1 else 0) + HourCount(rows[1..], h, d)
  }

  /** The arrivals at destination `d`. */
  function DestCount(rows: seq<Arrival>, d: string): nat {
    if |rows| == 0 then 0
    else (if rows[0].destino == d then 1 else 0) + DestCount(rows[1..], d)
  }

  lemma {:induction false} HourCountAppend(xs: seq<Arrival>, ys: seq<Arrival>, h: int, d: string)
    ensures HourCount(xs + ys, h, d) == HourCount(xs, h, d) + HourCount(ys, h, d)
  {
    if |xs| == 0 {
      assert xs + ys == ys;
    } else {
      assert (xs + ys)[1..] == xs[1..] + ys;
      HourCountAppend(xs[1..], ys, h, d);
    }
  }

  /** Counting one more arrival. */
  lemma HourCountSnoc(rows: seq<Arrival>, n: nat, h: int, d: string)
    requires n < |rows|
    ensures HourCount(rows[..n + 1], h, d) ==
      HourCount(rows[..n], h, d) + (if rows[n].hora.Floor == h && rows[n].destino == d then 1 else 0)
  {
    assert rows[..n + 1] == rows[..n] + [rows[n]];
    HourCountAppend(rows[..n], [rows[n]], h, d);
  }

  /** No arrival of the hour at the destination: the count is 0. */
  lemma {:induction false} HourCountZero(rows: seq<Arrival>, h: int, d: string)
    requires forall x :: x in rows ==> !(x.hora.Floor == h && x.destino == d)
    ensures HourCount(rows, h, d) == 0
  {
    if |rows| > 0 {
      assert rows[0] in rows;
      HourCountZero(rows[1..], h, d);
    }
  }

  // ---------------------------------------------------------------------------------
  // The chart
  // ---------------------------------------------------------------------------------

  /** One point of the line chart: its hour, a counter per selected destination, and the
      hour's label. */
  datatype Bucket = Bucket(hora: int, counts: map<string, nat>, horaStr: string)

  /** `${String(h).padStart(2, '0')}:00`. */
  function HourLabel(h: int): string {
    PadStart2(IntToString(h)) + ":00"
  }

  /** A zero counter for every selected destination. */
  method ZeroCounts(selected: seq<string>) returns (zero: map<string, nat>)
    ensures forall d :: d in zero <==> d in selected
    ensures forall d :: d in zero ==> zero[d] == 0
  {
    zero := map[];
    var j := 0;
    while j < |selected|
      invariant 0 <= j <= |selected|
      invariant forall d :: d in zero <==> d in selected[..j]
      invariant forall d :: d in zero ==> zero[d] == 0
    {
      assert selected[..j + 1] == selected[..j] + [selected[j]];
      zero := zero[selected[j] := 0];
      j := j + 1;
    }
    assert selected[..j] == selected;
  }

  /** The empty chart: a bucket of zero counters for every hour of the range. */
  method EmptyHours(selected: seq<string>) returns (hours: map<int, map<string, nat>>)
    ensures forall h :: h in hours <==> HourLo <= h <= HourHi
    ensures forall h, d :: h in hours ==> (d in hours[h] <==> d in selected)
    ensures forall h, d :: h in hours && d in hours[h] ==> hours[h][d] == 0
  {
    hours := map[];
    var i := HourLo;
    while i <= HourHi
      invariant HourLo <= i <= HourHi + 1
      invariant forall h :: h in hours <==> HourLo <= h < i
      invariant forall h, d :: h in hours ==> (d in hours[h] <==> d in selected)
      invariant forall h, d :: h in hours && d in hours[h] ==> hours[h][d] == 0
    {
      var zero := ZeroCounts(selected);
      hours := hours[i := zero];
      i := i + 1;
    }
  }

  /** Adds every filtered arrival to the counter of its hour and destination, when the
      chart has that counter. */
  method CountArrivals(filtered: seq<Arrival>, hours0: map<int, map<string, nat>>) returns (hours: map<int, map<string, nat>>)
    requires forall h, d :: h in hours0 && d in hours0[h] ==> hours0[h][d] == 0
    ensures hours.Keys == hours0.Keys
    ensures forall h :: h in hours ==> hours[h].Keys == hours0[h].Keys
    ensures forall h, d :: h in hours && d in hours[h] ==> hours[h][d] == HourCount(filtered, h, d)
  {
    hours := hours0;
    var n := 0;
    while n < |filtered|
      invariant 0 <= n <= |filtered|
      invariant hours.Keys == hours0.Keys
      invariant forall h :: h in hours ==> hours[h].Keys == hours0[h].Keys
      invariant forall h, d :: h in hours && d in hours[h] ==> hours[h][d] == HourCount(filtered[..n], h, d)
    {
      var x := filtered[n];
      var h := x.hora.Floor;
      if h in hours && x.destino in hours[h] {
        hours := hours[h := hours[h][x.destino := hours[h][x.destino] + 1]];
      }
      forall h', d | h' in hours && d in hours[h']
        ensures hours[h'][d] == HourCount(filtered[..n + 1], h', d)
      {
        HourCountSnoc(filtered, n, h', d);
      }
      n := n + 1;
    }
    assert filtered[..n] == filtered;
  }

  /** `chartData`: one bucket per hour of the range, in ascending order, each counting the
      filtered arrivals of that hour per selected destination. */
  method ChartData(filtered: seq<Arrival>, selected: seq<string>) returns (buckets: seq<Bucket>)
    ensures |buckets| == HourHi - HourLo + 1
    ensures forall k :: 0 <= k < |buckets| ==>
      buckets[k].hora == HourLo + k && buckets[k].horaStr == HourLabel(HourLo + k)
    ensures forall k, d :: 0 <= k < |buckets| ==> (d in buckets[k].counts <==> d in selected)
    ensures forall k, d :: 0 <= k < |buckets| && d in buckets[k].counts ==>
      buckets[k].counts[d] == HourCount(filtered, HourLo + k, d)
  {
    var empty := EmptyHours(selected);
    var hours := CountArrivals(filtered, empty);
    buckets := HourBuckets(hours, HourLabel);
    BucketsOfHours(filtered, selected, empty, hours, buckets);
  }

  /** One bucket per hour of the range, in ascending order, holding that hour's counters
      and its label. */
  method HourBuckets(hours: map<int, map<string, nat>>, labelOf: int -> string) returns (buckets: seq<Bucket>)
    requires forall h :: HourLo <= h <= HourHi ==> h in hours
    ensures |buckets| == HourHi - HourLo + 1
    ensures forall b :: 0 <= b < |buckets| ==>
      buckets[b].hora == HourLo + b && buckets[b].horaStr == labelOf(HourLo + b)
      && HourLo + b in hours && buckets[b].counts == hours[HourLo + b]
  {
    buckets := [];
    var k := HourLo;
    while k <= HourHi
      invariant HourLo <= k <= HourHi + 1
      invariant |buckets| == k - HourLo
      invariant forall b :: 0 <= b < |buckets| ==>
        buckets[b].hora == HourLo + b && buckets[b].horaStr == labelOf(HourLo + b)
        && HourLo + b in hours && buckets[b].counts == hours[HourLo + b]
    {
      buckets := buckets + [Bucket(k, hours[k], labelOf(k))];
      k := k + 1;
    }
  }

  /** Buckets that copy the counters of a counted empty chart, hour by hour, count the
      filtered arrivals of each selected destination. */
  lemma BucketsOfHours(filtered: seq<Arrival>, selected: seq<string>, empty: map<int, map<string, nat>>,
    hours: map<int, map<string, nat>>, buckets: seq<Bucket>)
    requires forall h :: h in empty <==> HourLo <= h <= HourHi
    requires forall h, d :: h in empty ==> (d in empty[h] <==> d in selected)
    requires hours.Keys == empty.Keys
    requires forall h :: h in hours ==> hours[h].Keys == empty[h].Keys
    requires forall h, d :: h in hours && d in hours[h] ==> hours[h][d] == HourCount(filtered, h, d)
    requires |buckets| == HourHi - HourLo + 1
    requires forall b :: 0 <= b < |buckets| ==>
      buckets[b].hora == HourLo + b && buckets[b].horaStr == HourLabel(HourLo + b)
      && HourLo + b in hours && buckets[b].counts == hours[HourLo + b]
    ensures forall k, d :: 0 <= k < |buckets| ==> (d in buckets[k].counts <==> d in selected)
    ensures forall k, d :: 0 <= k < |buckets| && d in buckets[k].counts ==>
      buckets[k].counts[d] == HourCount(filtered, HourLo + k, d)
  {
    forall k, d | 0 <= k < |buckets| ensures d in buckets[k].counts <==> d in selected {
      var h := HourLo + k;
      assert h in empty;
      assert d in hours[h] <==> d in empty[h];
    }
  }

  /** The hours of the chart, ascending. */
  function HourRange(): (hs: seq<int>)
    ensures |hs| == HourHi - HourLo + 1 && forall k :: 0 <= k < |hs| ==> hs[k] == HourLo + k
  {
    seq(HourHi - HourLo + 1, k requires 0 <= k < HourHi - HourLo + 1 => HourLo + k)
  }

  /** Arrivals of destination `d` summed over the hours `hs`. */
  function HourSum(rows: seq<Arrival>, hs: seq<int>, d: string): nat {
    if |hs| == 0 then 0 else HourCount(rows, hs[0], d) + HourSum(rows, hs[1..], d)
  }

  /** The counters of the hours `hs` and destinations `ds`, summed. */
  function GridSum(rows: seq<Arrival>, hs: seq<int>, ds: seq<string>): nat {
    if |ds| == 0 then 0 else HourSum(rows, hs, ds[0]) + GridSum(rows, hs, ds[1..])
  }

  /** The arrivals of the destinations `ds`, summed. */
  function DestTotal(rows: seq<Arrival>, ds: seq<string>): nat {
    if |ds| == 0 then 0 else DestCount(rows, ds[0]) + DestTotal(rows, ds[1..])
  }

  lemma {:induction false} HourSumCons(r: Arrival, rows: seq<Arrival>, hs: seq<int>, d: string)
    ensures HourSum([r] + rows, hs, d) ==
      (if r.destino == d then Occurrences(hs, r.hora.Floor) else 0) + HourSum(rows, hs, d)
  {
    assert ([r] + rows)[1..] == rows;
    if |hs| > 0 {
      HourSumCons(r, rows, hs[1..], d);
    }
  }

  /** Summed over hours that cover every arrival once, the counters of a destination give
      its arrivals. */
  lemma {:induction false} HourSumAll(rows: seq<Arrival>, hs: seq<int>, d: string)
    requires Distinct(hs) && forall x :: x in rows ==> x.hora.Floor in hs
    ensures HourSum(rows, hs, d) == DestCount(rows, d)
  {
    if |rows| == 0 {
      HourSumEmpty(hs, d);
    } else {
      assert rows == [rows[0]] + rows[1..];
      assert rows[0] in rows;
      HourSumCons(rows[0], rows[1..], hs, d);
      DistinctOccurrences(hs, rows[0].hora.Floor);
      HourSumAll(rows[1..], hs, d);
    }
  }

  lemma {:induction false} HourSumEmpty(hs: seq<int>, d: string)
    ensures HourSum([], hs, d) == 0
  {
    if |hs| > 0 {
      HourSumEmpty(hs[1..], d);
    }
  }

  lemma {:induction false} DestTotalCons(r: Arrival, rows: seq<Arrival>, ds: seq<string>)
    ensures DestTotal([r] + rows, ds) == Occurrences(ds, r.destino) + DestTotal(rows, ds)
  {
    assert ([r] + rows)[1..] == rows;
    if |ds| > 0 {
      DestTotalCons(r, rows, ds[1..]);
    }
  }

  lemma {:induction false} DestTotalEmpty(ds: seq<string>)
    ensures DestTotal([], ds) == 0
  {
    if |ds| > 0 {
      DestTotalEmpty(ds[1..]);
    }
  }

  /** Summed over distinct destinations that cover every arrival, the per-destination
      counts give the number of arrivals. */
  lemma {:induction false} DestTotalAll(rows: seq<Arrival>, ds: seq<string>)
    requires Distinct(ds) && forall x :: x in rows ==> x.destino in ds
    ensures DestTotal(rows, ds) == |rows|
  {
    if |rows| == 0 {
      DestTotalEmpty(ds);
    } else {
      assert rows == [rows[0]] + rows[1..];
      assert rows[0] in rows;
      DestTotalCons(rows[0], rows[1..], ds);
      DistinctOccurrences(ds, rows[0].destino);
      DestTotalAll(rows[1..], ds);
    }
  }

  lemma {:induction false} GridIsDestTotal(rows: seq<Arrival>, hs: seq<int>, ds: seq<string>)
    requires Distinct(hs) && forall x :: x in rows ==> x.hora.Floor in hs
    ensures GridSum(rows, hs, ds) == DestTotal(rows, ds)
  {
    if |ds| > 0 {
      HourSumAll(rows, hs, ds[0]);
      GridIsDestTotal(rows, hs, ds[1..]);
    }
  }

  /** The chart's counters, over all hours of the range and all selected destinations,
      add up to the number of filtered arrivals when no destination is selected twice. */
  lemma ChartTotal(rows: seq<Arrival>, date: string, company: string, dests: seq<string>)
    requires Distinct(dests)
    ensures var f := FilteredArrivals(rows, date, company, dests);
      GridSum(f, HourRange(), dests) == |f|
  {
    var f := FilteredArrivals(rows, date, company, dests);
    var hs := HourRange();
    FilteredInBuckets(rows, date, company, dests);
    forall x | x in f ensures x.hora.Floor in hs {
      assert hs[x.hora.Floor - HourLo] == x.hora.Floor;
    }
    GridIsDestTotal(f, hs, dests);
    DestTotalAll(f, dests);
  }

  // ---------------------------------------------------------------------------------
  // The table
  // ---------------------------------------------------------------------------------

  /** One row of the table: an hour and the arrivals per destination in that hour. */
  datatype PivotRow = PivotRow(hora: int, counts: map<string, nat>)

  /** The hours in which some arrival falls. */
  function HoursOf(rows: seq<Arrival>): set<int> {
    set x | x in rows :: x.hora.Floor
  }

  /** The destinations of the arrivals of one hour. */
  function DestsAt(rows: seq<Arrival>, h: int): set<string> {
    set x | x in rows && x.hora.Floor == h :: x.destino
  }

  /** The table of `rows`: strictly ascending hours, exactly the hours of the arrivals; in
      each row exactly the destinations arriving in that hour, with their counts. */
  ghost predicate IsPivot(table: seq<PivotRow>, rows: seq<Arrival>) {
    && (forall i, j :: 0 <= i < j < |table| ==> table[i].hora < table[j].hora)
    && (forall h :: h in HoursOf(rows) <==> exists k :: 0 <= k < |table| && table[k].hora == h)
    && (forall k :: 0 <= k < |table| ==> table[k].counts.Keys == DestsAt(rows, table[k].hora))
    && (forall k, d :: 0 <= k < |table| && d in table[k].counts ==>
          table[k].counts[d] == HourCount(rows, table[k].hora, d))
  }

  /** Ascending order of hours. */
  predicate SortedInts(xs: seq<int>) {
    forall i, j :: 0 <= i < j < |xs| ==> xs[i] <= xs[j]
  }

  /** Inserts `x` into an ascending sequence, before the first element not below it. */
  function InsertInt(x: int, xs: seq<int>): (r: seq<int>)
    ensures |r| == |xs| + 1
  {
    if |xs| == 0 then [x]
    else if x <= xs[0] then [x] + xs
    else [xs[0]] + InsertInt(x, xs[1..])
  }

  lemma {:induction false} InsertIntPermutes(x: int, xs: seq<int>)
    ensures multiset(InsertInt(x, xs)) == multiset(xs) + multiset{x}
  {
    if |xs| > 0 && x > xs[0] {
      InsertIntPermutes(x, xs[1..]);
      assert xs == [xs[0]] + xs[1..];
    }
  }

  lemma {:induction false} InsertIntSorted(x: int, xs: seq<int>)
    requires SortedInts(xs)
    ensures SortedInts(InsertInt(x, xs))
  {
    if |xs| > 0 && x > xs[0] {
      var t := InsertInt(x, xs[1..]);
      InsertIntSorted(x, xs[1..]);
      InsertIntPermutes(x, xs[1..]);
      forall k | 0 <= k < |t| ensures xs[0] <= t[k] {
        assert t[k] in multiset(t);
        if t[k] != x {
          assert t[k] in multiset(xs[1..]);
          var j :| 0 <= j < |xs[1..]| && xs[1..][j] == t[k];
          assert xs[j + 1] == t[k];
        }
      }
      assert InsertInt(x, xs) == [xs[0]] + t;
    }
  }

  /** `sort((a, b) => a - b)` on the hours. */
  function SortInts(xs: seq<int>): (r: seq<int>)
    ensures SortedInts(r)
    ensures multiset(r) == multiset(xs)
  {
    if |xs| == 0 then []
    else
      var s := SortInts(xs[1..]);
      InsertIntSorted(xs[0], s);
      InsertIntPermutes(xs[0], s);
      assert xs == [xs[0]] + xs[1..];
      InsertInt(xs[0], s)
  }

  /** Sorting distinct hours gives them in strictly ascending order. */
  lemma SortDistinct(xs: seq<int>)
    requires Distinct(xs)
    ensures var r := SortInts(xs);
      (forall i, j :: 0 <= i < j < |r| ==> r[i] < r[j]) && forall h :: h in r <==> h in xs
  {
    var r := SortInts(xs);
    assert forall h :: h in r <==> h in multiset(r);
    assert forall h :: h in xs <==> h in multiset(xs);
    forall i, j | 0 <= i < j < |r| ensures r[i] < r[j] {
      DistinctAfterPermutation(xs, r, i, j);
    }
  }

  /** `table[h][d] = (table[h][d] || 0) + 1`, creating the hour's row when it is missing. */
  function Bump(t: map<int, map<string, nat>>, h: int, d: string): map<int, map<string, nat>> {
    var row := if h in t then t[h] else map[];
    t[h := row[d := (if d in row then row[d] else 0) + 1]]
  }

  /** The counting table of `rows`: the hours of the arrivals, in each hour the
      destinations arriving in it, and their counts. */
  ghost predicate CountsOf(t: map<int, map<string, nat>>, rows: seq<Arrival>) {
    && t.Keys == HoursOf(rows)
    && (forall h :: h in t ==> t[h].Keys == DestsAt(rows, h))
    && (forall h, d :: h in t && d in t[h] ==> t[h][d] == HourCount(rows, h, d))
  }

  /** Counting one more arrival keeps the table exact. */
  lemma PivotExtend(t: map<int, map<string, nat>>, rows: seq<Arrival>, n: nat)
    requires n < |rows| && CountsOf(t, rows[..n])
    ensures CountsOf(Bump(t, rows[n].hora.Floor, rows[n].destino), rows[..n + 1])
  {
    var t' := Bump(t, rows[n].hora.Floor, rows[n].destino);
    PivotStep(rows, n);
    ExtendDests(t, rows, n, t');
    ExtendCounts(t, rows, n, t');
  }

  /** What `Bump` changes: the hour's row gains the destination, whose count goes up by
      one; nothing else changes. */
  lemma BumpShape(t: map<int, map<string, nat>>, h: int, d: string)
    ensures var t' := Bump(t, h, d);
      && t'.Keys == t.Keys + {h}
      && (forall g :: g in t' && g != h ==> t'[g] == t[g])
      && t'[h].Keys == (if h in t then t[h].Keys else {}) + {d}
      && (forall e :: e in t'[h] && e != d ==> h in t && e in t[h] && t'[h][e] == t[h][e])
      && t'[h][d] == (if h in t && d in t[h] then t[h][d] else 0) + 1
  {
  }

  lemma ExtendDests(t: map<int, map<string, nat>>, rows: seq<Arrival>, n: nat, t': map<int, map<string, nat>>)
    requires n < |rows| && CountsOf(t, rows[..n])
    requires t' == Bump(t, rows[n].hora.Floor, rows[n].destino)
    requires forall g :: (DestsAt(rows[..n + 1], g) ==
      DestsAt(rows[..n], g) + (if rows[n].hora.Floor == g then {rows[n].destino} else {}))
    ensures forall g :: g in t' ==> t'[g].Keys == DestsAt(rows[..n + 1], g)
  {
    var h := rows[n].hora.Floor;
    BumpShape(t, h, rows[n].destino);
    if h !in t {
      NoDests(rows[..n], h);
    }
  }

  /** An hour in which no arrival falls has no destinations. */
  lemma NoDests(rows: seq<Arrival>, h: int)
    requires h !in HoursOf(rows)
    ensures DestsAt(rows, h) == {}
  {
  }

  lemma ExtendCounts(t: map<int, map<string, nat>>, rows: seq<Arrival>, n: nat, t': map<int, map<string, nat>>)
    requires n < |rows| && CountsOf(t, rows[..n])
    requires t' == Bump(t, rows[n].hora.Floor, rows[n].destino)
    requires forall g, e :: (HourCount(rows[..n + 1], g, e) ==
      HourCount(rows[..n], g, e) + (if rows[n].hora.Floor == g && rows[n].destino == e then 1 else 0))
    requires forall g, e :: e !in DestsAt(rows[..n], g) ==> HourCount(rows[..n], g, e) == 0
    ensures forall g, e :: g in t' && e in t'[g] ==> t'[g][e] == HourCount(rows[..n + 1], g, e)
  {
    var h := rows[n].hora.Floor;
    var d := rows[n].destino;
    BumpShape(t, h, d);
    forall g, e | g in t' && e in t'[g] ensures t'[g][e] == HourCount(rows[..n + 1], g, e) {
      if g == h && e == d && !(h in t && d in t[h]) {
        if h in t {
          assert d !in DestsAt(rows[..n], h);
        } else {
          NoDests(rows[..n], h);
        }
      }
    }
  }

  /** The counting loop of `pivotTable`, with the hours in order of first appearance. */
  method CountTable(filtered: seq<Arrival>) returns (t: map<int, map<string, nat>>, order: seq<int>)
    ensures CountsOf(t, filtered)
    ensures Distinct(order) && forall h :: h in order <==> h in t
  {
    t := map[];
    order := [];
    var n := 0;
    while n < |filtered|
      invariant 0 <= n <= |filtered|
      invariant CountsOf(t, filtered[..n])
      invariant Distinct(order) && forall h :: h in order <==> h in t
    {
      var x := filtered[n];
      var h := x.hora.Floor;
      if h !in t {
        DistinctSnoc(order, h);
        order := order + [h];
      }
      PivotExtend(t, filtered, n);
      t := Bump(t, h, x.destino);
      n := n + 1;
    }
    assert filtered[..n] == filtered;
  }

  /** `pivotTable`: the filtered arrivals counted per hour and destination, hours
      ascending. */
  method PivotTable(filtered: seq<Arrival>) returns (table: seq<PivotRow>)
    ensures IsPivot(table, filtered)
  {
    var t, order := CountTable(filtered);
    var hs := SortInts(order);
    SortDistinct(order);
    table := [];
    for k := 0 to |hs|
      invariant |table| == k
      invariant forall b :: 0 <= b < k ==> hs[b] in t && table[b] == PivotRow(hs[b], t[hs[b]])
    {
      assert hs[k] in hs;
      table := table + [PivotRow(hs[k], t[hs[k]])];
    }
    TableIsPivot(t, hs, table, filtered);
  }

  /** The rows of the counting table in ascending order of hours form the table. */
  lemma TableIsPivot(t: map<int, map<string, nat>>, hs: seq<int>, table: seq<PivotRow>, rows: seq<Arrival>)
    requires CountsOf(t, rows)
    requires (forall i, j :: 0 <= i < j < |hs| ==> hs[i] < hs[j]) && forall h :: h in hs <==> h in t
    requires |table| == |hs| && forall b :: 0 <= b < |hs| ==> hs[b] in t && table[b] == PivotRow(hs[b], t[hs[b]])
    ensures IsPivot(table, rows)
  {
    forall h | h in HoursOf(rows) ensures exists b :: 0 <= b < |table| && table[b].hora == h {
      var b :| 0 <= b < |hs| && hs[b] == h;
      assert table[b].hora == h;
    }
  }

  /** What one more arrival changes in the hours, destinations and counts of a prefix. */
  lemma PivotStep(rows: seq<Arrival>, n: nat)
    requires n < |rows|
    ensures HoursOf(rows[..n + 1]) == HoursOf(rows[..n]) + {rows[n].hora.Floor}
    ensures forall h :: (DestsAt(rows[..n + 1], h) ==
      DestsAt(rows[..n], h) + (if rows[n].hora.Floor == h then {rows[n].destino} else {}))
    ensures forall h, d :: (HourCount(rows[..n + 1], h, d) ==
      HourCount(rows[..n], h, d) + (if rows[n].hora.Floor == h && rows[n].destino == d then 1 else 0))
    ensures forall h, d :: d !in DestsAt(rows[..n], h) ==> HourCount(rows[..n], h, d) == 0
  {
    assert rows[..n + 1] == rows[..n] + [rows[n]];
    forall h, d ensures HourCount(rows[..n + 1], h, d) ==
      HourCount(rows[..n], h, d) + (if rows[n].hora.Floor == h && rows[n].destino == d then 1 else 0)
    {
      HourCountSnoc(rows, n, h, d);
    }
    forall h, d | d !in DestsAt(rows[..n], h) ensures HourCount(rows[..n], h, d) == 0 {
      HourCountZero(rows[..n], h, d);
    }
  }

  /** The footer's total of a destination: its count summed over the table's rows, 0 in a
      row that does not list it. */
  function FooterTotal(table: seq<PivotRow>, d: string): nat {
    if |table| == 0 then 0
    else (if d in table[0].counts then table[0].counts[d] else 0) + FooterTotal(table[1..], d)
  }

  function Horas(table: seq<PivotRow>): (hs: seq<int>)
    ensures |hs| == |table| && forall k :: 0 <= k < |table| ==> hs[k] == table[k].hora
  {
    seq(|table|, k requires 0 <= k < |table| => table[k].hora)
  }

  lemma {:induction false} FooterIsHourSum(table: seq<PivotRow>, rows: seq<Arrival>, d: string)
    requires forall k :: 0 <= k < |table| ==> table[k].counts.Keys == DestsAt(rows, table[k].hora)
    requires forall k :: 0 <= k < |table| && d in table[k].counts ==>
      table[k].counts[d] == HourCount(rows, table[k].hora, d)
    ensures FooterTotal(table, d) == HourSum(rows, Horas(table), d)
  {
    if |table| > 0 {
      assert Horas(table)[1..] == Horas(table[1..]);
      FooterIsHourSum(table[1..], rows, d);
      if d !in table[0].counts {
        HourCountZero(rows, table[0].hora, d);
      }
    }
  }

  /** The footer total of every destination is the number of its filtered arrivals. */
  lemma FooterSum(table: seq<PivotRow>, rows: seq<Arrival>, d: string)
    requires IsPivot(table, rows)
    ensures FooterTotal(table, d) == DestCount(rows, d)
  {
    var hs := Horas(table);
    FooterIsHourSum(table, rows, d);
    forall x | x in rows ensures x.hora.Floor in hs {
      assert x.hora.Floor in HoursOf(rows);
      var k :| 0 <= k < |table| && table[k].hora == x.hora.Floor;
      assert hs[k] == x.hora.Floor;
    }
    HourSumAll(rows, hs, d);
  }
}
