/** The per-product detail page of the operational report: the product's totals, its
    main destination and the status badge. */
module ProductDetail {
  import opened Wrappers
  import opened Seqs
  import opened OperationalReport

  /** The figures of one product's page. */
  datatype ProductStats = ProductStats(
    tonProg: real, tonReal: real, tonDiff: real,
    eqProg: real, eqReal: real, eqDiff: real,
    compliance: real, avgReg: real, avgLoad: real,
    avgFaenaReal: real, avgFaenaMeta: real,
    mainDest: string, mainDestCount: nat)

  /** The destination a row is counted under: an empty destination is "S/D". */
  function DestKey(d: Dispatch): (r: string)
    ensures r != ""
    ensures d.destino != "" ==> r == d.destino
  {
    if d.destino == "" then "S/D" else d.destino
  }

  function DestKeys(rows: seq<Dispatch>): (r: seq<string>)
    ensures |r| == |rows|
  {
    seq(|rows|, i requires 0 <= i < |rows| => DestKey(rows[i]))
  }

  lemma DestKeysAt(rows: seq<Dispatch>)
    ensures forall i :: 0 <= i < |rows| ==> DestKeys(rows)[i] == DestKey(rows[i])
  {
  }

  /** The destination count (`destinations`), keyed in the order in which destinations first
      appear. */
  method CountDestinations(rows: seq<Dispatch>) returns (keys: seq<string>, counts: map<string, nat>)
    ensures keys == Dedup(DestKeys(rows))
    ensures forall k :: k in counts <==> k in keys
    ensures forall k :: k in counts ==> counts[k] == Occurrences(DestKeys(rows), k)
  {
    keys, counts := CountValues(DestKeys(rows));
  }

  /** The counting loop: one pass that adds each value's first appearance to `keys` and
      bumps its count. */
  method CountValues(xs: seq<string>) returns (keys: seq<string>, counts: map<string, nat>)
    ensures keys == Dedup(xs)
    ensures forall k :: k in counts <==> k in keys
    ensures forall k :: k in counts ==> counts[k] == Occurrences(xs, k)
  {
    keys := [];
    counts := map[];
    TallyStart(xs);
    for n := 0 to |xs|
      invariant Tally(xs, n, keys, counts)
    {
      var dest := xs[n];
      if dest !in counts {
        TallyNew(xs, n, keys, counts);
        counts := counts[dest := 1];
        keys := keys + [dest];
      } else {
        TallySeen(xs, n, keys, counts);
        counts := counts[dest := counts[dest] + 1];
      }
    }
    TallyDone(xs, keys, counts);
  }

  /** After the first `n` values: `keys` lists the distinct ones in order of first
      appearance, and `counts` holds how often each occurred. */
  ghost predicate Tally(xs: seq<string>, n: nat, keys: seq<string>, counts: map<string, nat>)
    requires n <= |xs|
  {
    && Distinct(keys)
    && Dedup(xs) == DedupFrom(xs[n..], keys)
    && (forall k :: k in counts <==> k in keys)
    && (forall k :: k in keys <==> k in xs[..n])
    && (forall k :: k in counts ==> counts[k] == Occurrences(xs[..n], k))
  }

  lemma TallyStart(xs: seq<string>)
    ensures Tally(xs, 0, [], map[])
  {
    assert xs[0..] == xs;
  }

  lemma TallyNew(xs: seq<string>, n: nat, keys: seq<string>, counts: map<string, nat>)
    requires n < |xs| && Tally(xs, n, keys, counts) && xs[n] !in counts
    ensures Tally(xs, n + 1, keys + [xs[n]], counts[xs[n] := 1])
  {
    DedupStep(xs, n, keys);
    CountStep(xs, n, keys, counts);
  }

  lemma TallySeen(xs: seq<string>, n: nat, keys: seq<string>, counts: map<string, nat>)
    requires n < |xs| && Tally(xs, n, keys, counts) && xs[n] in counts
    ensures Tally(xs, n + 1, keys, counts[xs[n] := counts[xs[n]] + 1])
  {
    DedupStep(xs, n, keys);
    CountStep(xs, n, keys, counts);
  }

  lemma TallyDone(xs: seq<string>, keys: seq<string>, counts: map<string, nat>)
    requires Tally(xs, |xs|, keys, counts)
    ensures keys == Dedup(xs)
    ensures forall k :: k in counts <==> k in keys
    ensures forall k :: k in counts ==> counts[k] == Occurrences(xs, k)
  {
    assert xs[..|xs|] == xs;
    assert xs[|xs|..] == [];
  }

  /** One step of the first-appearance order. */
  lemma DedupStep(xs: seq<string>, n: nat, keys: seq<string>)
    requires n < |xs| && Distinct(keys)
    ensures DedupFrom(xs[n..], keys) ==
      if xs[n] in keys then DedupFrom(xs[n + 1..], keys) else DedupFrom(xs[n + 1..], keys + [xs[n]])
  {
    assert xs[n..][1..] == xs[n + 1..];
  }
  /** One more value counted. */
  lemma PrefixStep(xs: seq<string>, n: nat, k: string)
    requires n < |xs|
    ensures Occurrences(xs[..n + 1], k) == Occurrences(xs[..n], k) + (if xs[n] == k then 1 else 0)
  {
    assert xs[..n + 1] == xs[..n] + [xs[n]];
    OccurrencesAppend(xs[..n], [xs[n]], k);
  }
  /** A value that does not occur has count 0. */
  lemma {:induction false} Missing(xs: seq<string>, x: string)
    requires x !in xs
    ensures Occurrences(xs, x) == 0
  {
    if |xs| > 0 {
      assert x !in xs[1..];
      Missing(xs[1..], x);
    }
  }
  /** `counts` holds the count of every key seen in the first `n` values, and no other key. */
  ghost predicate CountsPrefix(xs: seq<string>, n: nat, keys: seq<string>, counts: map<string, nat>)
    requires n <= |xs|
  {
    && (forall k :: k in counts <==> k in keys)
    && (forall k :: k in keys <==> k in xs[..n])
    && (forall k :: k in counts ==> counts[k] == Occurrences(xs[..n], k))
  }
  lemma CountStep(xs: seq<string>, n: nat, keys: seq<string>, counts: map<string, nat>)
    requires n < |xs| && CountsPrefix(xs, n, keys, counts)
    ensures xs[n] in counts ==> CountsPrefix(xs, n + 1, keys, counts[xs[n] := counts[xs[n]] + 1])
    ensures xs[n] !in counts ==> CountsPrefix(xs, n + 1, keys + [xs[n]], counts[xs[n] := 1])
  {
    assert xs[..n + 1] == xs[..n] + [xs[n]];
    forall k {
      PrefixStep(xs, n, k);
    }
    if xs[n] !in counts {
      Missing(xs[..n], xs[n]);
    }
  }
  /** The position of the first key whose count in `xs` is largest: the head of the keys
      after a stable sort by descending count. */
  function FirstMax(keys: seq<string>, xs: seq<string>): (r: nat)
    requires |keys| > 0
    ensures r < |keys|
    ensures forall j :: 0 <= j < |keys| ==> Occurrences(xs, keys[j]) <= Occurrences(xs, keys[r])
    ensures forall j :: 0 <= j < r ==> Occurrences(xs, keys[j]) < Occurrences(xs, keys[r])
  {
    if |keys| == 1 then 0
    else
      var rest := FirstMax(keys[1..], xs) + 1;
      assert keys[rest] == keys[1..][rest - 1];
      assert forall j :: 1 <= j < |keys| ==> keys[j] == keys[1..][j - 1];
      if Occurrences(xs, keys[0]) >= Occurrences(xs, keys[rest]) then 0 else rest
  }

  /** `stats`: none for no rows; the sums, the ratios (0 when the denominator is not
      positive), the positive-only duration averages and the most frequent destination. */
  function Stats(rows: seq<Dispatch>): (r: Option<ProductStats>)
    ensures r.None? <==> |rows| == 0
    ensures r.Some? ==>
      && r.value.tonProg == TonProg(rows) && r.value.tonReal == TonReal(rows)
      && r.value.tonDiff == TonReal(rows) - TonProg(rows)
      && r.value.eqProg == EqProg(rows) && r.value.eqReal == EqReal(rows)
      && r.value.eqDiff == EqReal(rows) - EqProg(rows)
      && r.value.compliance == (if TonProg(rows) > 0.0 then TonReal(rows) / TonProg(rows) * 100.0 else 0.0)
      && r.value.avgReg == TotalRegulations(rows) / |rows| as real
      && r.value.avgLoad == (if EqReal(rows) > 0.0 then TonReal(rows) / EqReal(rows) else 0.0)
      && r.value.avgFaenaReal == PositiveMean(FaenaRealHours(rows))
      && r.value.avgFaenaMeta == PositiveMean(FaenaMetaHours(rows))
    ensures r.Some? ==> IsMainDestination(DestKeys(rows), r.value.mainDest, r.value.mainDestCount)
  {
    if |rows| == 0 then None
    else
      var main := MainDestination(DestKeys(rows));
      var tp := TonProg(rows);
      var tr := TonReal(rows);
      var ep := EqProg(rows);
      var er := EqReal(rows);
      Some(ProductStats(
        tp, tr, tr - tp, ep, er, er - ep,
        if tp > 0.0 then tr / tp * 100.0 else 0.0,
        TotalRegulations(rows) / |rows| as real,
        if er > 0.0 then tr / er else 0.0,
        PositiveMean(FaenaRealHours(rows)), PositiveMean(FaenaMetaHours(rows)),
        main.0, main.1))
  }

  /** `dest` occurs `count` times in `xs`, no value occurs more often, and every value as
      frequent as `dest` occurs no earlier than it. */
  predicate IsMainDestination(xs: seq<string>, dest: string, count: nat) {
    && dest in xs
    && count == Occurrences(xs, dest)
    && (forall i :: 0 <= i < |xs| ==> Occurrences(xs, xs[i]) <= count)
    && forall i :: 0 <= i < |xs| && Occurrences(xs, xs[i]) == count ==>
         exists j :: 0 <= j <= i && xs[j] == dest
  }

  /** `mainDestEntry`: the most frequent value with its count, ties going to the value that
      appears first. */
  function MainDestination(xs: seq<string>): (r: (string, nat))
    requires |xs| > 0
    ensures IsMainDestination(xs, r.0, r.1)
  {
    var keys := Dedup(xs);
    assert xs[0] in keys;
    var m := FirstMax(keys, xs);
    assert keys[m] in xs;
    EarliestMax(xs, keys, m);
    assert forall i :: 0 <= i < |xs| ==> xs[i] in keys;
    (keys[m], Occurrences(xs, keys[m]))
  }

  /** Ties go to the destination that appears first: any value as frequent as the chosen one
      appears no earlier than it. */
  lemma EarliestMax(xs: seq<string>, keys: seq<string>, m: nat)
    requires keys == Dedup(xs) && m < |keys|
    requires forall j :: 0 <= j < m ==> Occurrences(xs, keys[j]) < Occurrences(xs, keys[m])
    ensures forall i :: 0 <= i < |xs| && Occurrences(xs, xs[i]) == Occurrences(xs, keys[m]) ==>
      exists j :: 0 <= j <= i && xs[j] == keys[m]
  {
    forall i | 0 <= i < |xs| && Occurrences(xs, xs[i]) == Occurrences(xs, keys[m])
      ensures exists j :: 0 <= j <= i && xs[j] == keys[m]
    {
      assert xs[i] in keys;
      var b :| 0 <= b < |keys| && keys[b] == xs[i];
      assert m <= b;
      DedupOrder(xs, i, m, b);
    }
  }

  /** The destination counts add up to the number of rows. */
  lemma DestinationCountsTotal(rows: seq<Dispatch>)
    ensures OccurrenceTotal(DestKeys(rows), Dedup(DestKeys(rows))) == |rows|
  {
    OccurrenceTotalAll(DestKeys(rows), Dedup(DestKeys(rows)));
  }

  /** The main destination of a product all of whose rows go to one destination. */
  lemma SingleDestination(rows: seq<Dispatch>, d: string)
    requires |rows| > 0 && forall i :: 0 <= i < |rows| ==> DestKey(rows[i]) == d
    ensures Stats(rows).Some? && Stats(rows).value.mainDest == d
    ensures Stats(rows).value.mainDestCount == |rows|
  {
    var xs := DestKeys(rows);
    DestKeysAt(rows);
    OnlyValue(xs, d);
  }

  lemma {:induction false} OnlyValue(xs: seq<string>, d: string)
    requires forall i :: 0 <= i < |xs| ==> xs[i] == d
    ensures Occurrences(xs, d) == |xs|
  {
    if |xs| > 0 {
      OnlyValue(xs[1..], d);
    }
  }

  /** The ten-minute threshold of the page's time-deviation flag. */
  const TimeDeviationThreshold: real := 10.0 / 60.0

  /** The time deviation flag: both averages present and the real one at least ten minutes
      over the target. */
  predicate IsTimeDeviation(s: ProductStats) {
    s.avgFaenaReal > 0.0 && s.avgFaenaMeta > 0.0 && s.avgFaenaReal - s.avgFaenaMeta >= TimeDeviationThreshold
  }

  /** The status badge. */
  datatype Status = TonnageAction | TimeDeviation | Optimal | Acceptable | LowPerformance

  function StatusText(s: Status): (r: string)
    ensures r != ""
  {
    match s
    case TonnageAction => "ACCIÓN REQUERIDA (TON)"
    case TimeDeviation => "DESVIACIÓN DE TIEMPO (TPO)"
    case Optimal => "CUMPLIMIENTO ÓPTIMO"
    case Acceptable => "RANGO ACEPTABLE"
    case LowPerformance => "BAJO DESEMPEÑO"
  }

  /** `getStatusInfo`: a tonnage shortfall first, then a time deviation, then the
      compliance bands. */
  function StatusOf(compliance: real, timeDev: bool): (r: Status)
    ensures r == TonnageAction <==> compliance < 85.0
    ensures r == TimeDeviation <==> compliance >= 85.0 && timeDev
    ensures r == Optimal <==> compliance >= 95.0 && !timeDev
    ensures r == Acceptable <==> 85.0 <= compliance < 95.0 && !timeDev
  {
    if compliance < 85.0 then TonnageAction
    else if timeDev then TimeDeviation
    else if compliance >= 95.0 then Optimal
    else if compliance >= 85.0 then Acceptable
    else LowPerformance
  }

  /** The last band of the badge is never shown: the first test already catches every
      compliance below 85. */
  lemma LowPerformanceUnreachable(compliance: real, timeDev: bool)
    ensures StatusOf(compliance, timeDev) != LowPerformance
  {
  }

  /** The badge of a product's page. */
  function PageStatus(rows: seq<Dispatch>): (r: Option<Status>)
    ensures r.None? <==> |rows| == 0
    ensures r.Some? ==> r.value == StatusOf(Stats(rows).value.compliance, IsTimeDeviation(Stats(rows).value))
  {
    match Stats(rows)
    case None => None
    case Some(s) => Some(StatusOf(s.compliance, IsTimeDeviation(s)))
  }

  /** A product with no programmed tonnage shows the tonnage alert. */
  lemma NoProgramIsAlert(rows: seq<Dispatch>)
    requires |rows| > 0 && TonProg(rows) <= 0.0
    ensures PageStatus(rows) == Some(TonnageAction)
  {
  }
}
