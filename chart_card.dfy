/** A report chart: the records grouped by one field, each y-axis summed or averaged per
    group, the groups ranked by the first axis and cut to ten, the groups the deviation
    table lists, and the chart's clock format. */
module ChartCard {
  import opened Wrappers
  import opened JsString
  import opened JsNumber
  import opened Seqs
  import opened Cells
  import opened DataProcessor
  import opened OperationalReport

  /** `formatDecimalToHHMM`: "0:00" only for exactly zero; any other value, negative ones
      included, is written as floor hours and rounded minutes. */
  function FormatDecimalToHHMM(x: real): (r: string)
    ensures x == 0.0 ==> r == "0:00"
    ensures x > 0.0 ==> r == FormatHoursToTime(x)
    ensures x < 0.0 ==> r == ClockText(x.Floor, Round((x - x.Floor as real) * 60.0))
  {
    if x == 0.0 then "0:00" else ClockText(HoursAndMinutes(x).0, HoursAndMinutes(x).1)
  }

  /** A negative duration is not clamped: -1.5 hours is "-2:30", where the report's
      other clock format writes "0:00". */
  lemma NegativeNotClamped()
    ensures FormatDecimalToHHMM(-1.5) == "-2:30"
    ensures FormatHoursToTime(-1.5) == "0:00"
  {
    assert (-1.5).Floor == -2;
    assert Round(0.5 * 60.0) == 30;
    assert NatToString(30) == "30" by {
      assert NatToString(3) == "3";
    }
  }

  /** A field value of a record the charts receive. */
  datatype Value = Missing | Number(n: real) | Str(s: string)

  /** A record: field name to value; an absent field is undefined. */
  type Item = map<string, Value>

  function Field(item: Item, k: string): Value {
    if k in item then item[k] else Missing
  }

  function AsCell(v: Value): Cell {
    match v
    case Missing => Empty
    case Number(n) => Num(n)
    case Str(s) => Text(s)
  }

  /** `Number(v) || 0`. */
  function NumberOr0(v: Value): real {
    match v
    case Missing => 0.0
    case Number(n) => n
    case Str(s) => OrZero(ToNumber(s))
  }

  /** How the charts read a record's field as a number. */
  type ValFn = (Item, string) -> real

  /** `Number(item[y]) || 0`. */
  function ItemNumber(item: Item, y: string): real {
    NumberOr0(Field(item, y))
  }

  /** A dispatch record as the report hands it to its charts. */
  function DispatchItem(d: Dispatch): Item {
    map[
      "Fecha" := Str(d.fecha), "Producto" := Str(d.producto), "Destino" := Str(d.destino),
      "Ton_Prog" := Number(d.tonProg), "Ton_Real" := Number(d.tonReal),
      "Eq_Prog" := Number(d.eqProg), "Eq_Real" := Number(d.eqReal),
      "Regulacion_Real" := Number(d.regulacionReal),
      "sdaHours" := Number(d.sdaHours), "pangHours" := Number(d.pangHours),
      "faenaMetaHours" := Number(d.faenaMetaHours), "faenaRealHours" := Number(d.faenaRealHours)]
  }

  /** The group of a record: `String(item[x] || 'S/D').trim()`, none when that is empty,
      "undefined" or "null". */
  function GroupKey(host: Host, item: Item, x: string): (r: Option<string>)
    ensures r.Some? ==> r.value != "" && r.value != "undefined" && r.value != "null"
    ensures r.Some? ==> !IsSpace(r.value[0]) && !IsSpace(r.value[|r.value| - 1])
    ensures r.None? ==> Truthy(AsCell(Field(item, x)))
  {
    var k := Trim(StringOr(host, AsCell(Field(item, x)), "S/D"));
    if k == "" || k == "undefined" || k == "null" then None else Some(k)
  }

  /** A record without the grouping field falls in the "S/D" group. */
  lemma MissingFieldGroup(host: Host, item: Item, x: string)
    requires x !in item
    ensures GroupKey(host, item, x) == Some("S/D")
  {
    MissingFieldText(host, item, x);
    FallbackName();
    TextGroup(host, item, x, "S/D");
  }

  /** A missing field reads as the fallback text. */
  lemma MissingFieldText(host: Host, item: Item, x: string)
    requires x !in item
    ensures StringOr(host, AsCell(Field(item, x)), "S/D") == "S/D"
  {
    assert AsCell(Field(item, x)) == Empty;
  }

  /** The fallback group name is trimmed and is neither "undefined" nor "null". */
  lemma FallbackName()
    ensures Trim("S/D") == "S/D" && "S/D" != "" && "S/D" != "undefined" && "S/D" != "null"
  {
    TrimNoSpace("S/D");
  }

  /** A dispatch record is grouped under its product when that is a trimmed name. */
  lemma ProductGroup(host: Host, d: Dispatch)
    requires d.producto != "" && !IsSpace(d.producto[0]) && !IsSpace(d.producto[|d.producto| - 1])
    requires d.producto != "undefined" && d.producto != "null"
    ensures GroupKey(host, DispatchItem(d), "Producto") == Some(d.producto)
  {
    assert Field(DispatchItem(d), "Producto") == Str(d.producto);
    TrimNoSpace(d.producto);
    TextGroup(host, DispatchItem(d), "Producto", d.producto);
  }

  /** A field that reads as a trimmed text other than "", "undefined" and "null" is its
      record's group. */
  lemma TextGroup(host: Host, item: Item, x: string, s: string)
    requires StringOr(host, AsCell(Field(item, x)), "S/D") == s && Trim(s) == s
    requires s != "" && s != "undefined" && s != "null"
    ensures GroupKey(host, item, x) == Some(s)
  {
  }

  /** How records are assigned to groups. */
  type KeyFn = Item -> Option<string>

  /** Grouping by field `x`. */
  function RecordKey(host: Host, x: string): KeyFn {
    item => GroupKey(host, item, x)
  }

  /** The group keys of the records, one per record kept, in record order. */
  function Keys(key: KeyFn, data: seq<Item>): (r: seq<string>)
    ensures |r| <= |data|
  {
    if |data| == 0 then []
    else
      Keys(key, data[..|data| - 1])
      + (match key(data[|data| - 1]) case None => [] case Some(k) => [k])
  }

  /** The records of group `k`, in record order. */
  function Members(key: KeyFn, data: seq<Item>, k: string): (r: seq<Item>)
    ensures |r| <= |data|
  {
    if |data| == 0 then []
    else
      Members(key, data[..|data| - 1], k)
      + (if key(data[|data| - 1]) == Some(k) then [data[|data| - 1]] else [])
  }

  /** The sum of axis `y` over some records, non-numbers counting 0. */
  function AxisSum(val: ValFn, items: seq<Item>, y: string): real {
    if |items| == 0 then 0.0
    else AxisSum(val, items[..|items| - 1], y) + val(items[|items| - 1], y)
  }

  /** A group being accumulated: its row count and one running sum per axis. */
  datatype Group = Group(count: nat, sums: map<string, real>)

  /** The running sums of a fresh group. */
  function Zeros(ys: seq<string>): (r: map<string, real>)
    ensures forall y :: y in r <==> y in ys
    ensures forall y :: y in r ==> r[y] == 0.0
  {
    map y | y in ys :: 0.0
  }

  /** `yAxes.forEach(y => acc[key][y] += Number(item[y]) || 0)`: an axis named twice
      is added twice. */
  function AddValues(val: ValFn, sums: map<string, real>, item: Item, ys: seq<string>): map<string, real>
    decreases |ys|
  {
    if |ys| == 0 then sums
    else
      var y := ys[0];
      var before := if y in sums then sums[y] else 0.0;
      AddValues(val, sums[y := before + val(item, y)], item, ys[1..])
  }

  /** `n` copies of `v` added up: the effect of naming an axis `n` times. */
  function Times(n: nat, v: real): real {
    if n == 0 then 0.0 else v + Times(n - 1, v)
  }

  lemma {:induction false} TimesAdd(n: nat, a: real, b: real)
    ensures Times(n, a) + Times(n, b) == Times(n, a + b)
  {
    if n > 0 {
      TimesAdd(n - 1, a, b);
    }
  }

  lemma {:induction false} TimesIsProduct(n: nat, v: real)
    ensures Times(n, v) == n as real * v
  {
    if n > 0 {
      TimesIsProduct(n - 1, v);
    }
  }

  lemma TimesZero(n: nat)
    ensures Times(n, 0.0) == 0.0
  {
  }

  /** The axes of the running sums: the old ones and every axis named. */
  lemma {:induction false} AddValuesHas(val: ValFn, sums: map<string, real>, item: Item, ys: seq<string>, y: string)
    ensures y in AddValues(val, sums, item, ys) <==> y in sums || y in ys
    decreases |ys|
  {
    if |ys| > 0 {
      var z := ys[0];
      var before := if z in sums then sums[z] else 0.0;
      AddValuesHas(val, sums[z := before + val(item, z)], item, ys[1..], y);
      assert y in ys <==> y == z || y in ys[1..];
    }
  }

  /** One record adds its value to an axis once per time the axis is named. */
  lemma {:induction false} AddValuesAt(val: ValFn, sums: map<string, real>, item: Item, ys: seq<string>, y: string)
    requires y in sums
    ensures y in AddValues(val, sums, item, ys)
    ensures AddValues(val, sums, item, ys)[y] == sums[y] + Times(Occurrences(ys, y), val(item, y))
    decreases |ys|
  {
    if |ys| > 0 {
      var z := ys[0];
      var before := if z in sums then sums[z] else 0.0;
      AddValuesAt(val, sums[z := before + val(item, z)], item, ys[1..], y);
    }
  }

  /** The sums a group of records ends with: each axis' total, once per time it is named. */
  function SumsOf(val: ValFn, items: seq<Item>, ys: seq<string>): (r: map<string, real>)
    ensures forall y :: y in r <==> y in ys
  {
    map y | y in ys :: Times(Occurrences(ys, y), AxisSum(val, items, y))
  }

  lemma SumsOfAt(val: ValFn, items: seq<Item>, ys: seq<string>, y: string)
    requires y in ys
    ensures SumsOf(val, items, ys)[y] == Times(Occurrences(ys, y), AxisSum(val, items, y))
  {
  }

  lemma SumsOfEmpty(val: ValFn, ys: seq<string>)
    ensures SumsOf(val, [], ys) == Zeros(ys)
  {
    forall y | y in ys
      ensures SumsOf(val, [], ys)[y] == 0.0
    {
      SumsOfAt(val, [], ys, y);
      TimesZero(Occurrences(ys, y));
    }
  }

  /** Adding one more record to a group's sums. */
  lemma AddToSums(val: ValFn, items: seq<Item>, item: Item, ys: seq<string>)
    ensures AddValues(val, SumsOf(val, items, ys), item, ys) == SumsOf(val, items + [item], ys)
  {
    var a := AddValues(val, SumsOf(val, items, ys), item, ys);
    var b := SumsOf(val, items + [item], ys);
    assert (items + [item])[..|items|] == items;
    forall y
      ensures y in a <==> y in ys
    {
      AddValuesHas(val, SumsOf(val, items, ys), item, ys, y);
    }
    forall y | y in ys
      ensures a[y] == b[y]
    {
      AddToSumsAt(val, items, item, ys, y, a, b);
    }
  }

  /** `AddToSums` at one axis field `y`. */
  lemma AddToSumsAt(val: ValFn, items: seq<Item>, item: Item, ys: seq<string>, y: string,
                    a: map<string, real>, b: map<string, real>)
    requires y in ys
    requires a == AddValues(val, SumsOf(val, items, ys), item, ys) && b == SumsOf(val, items + [item], ys)
    requires (items + [item])[..|items|] == items
    ensures y in a && y in b && a[y] == b[y]
  {
    AddValuesAt(val, SumsOf(val, items, ys), item, ys, y);
    SumsOfAt(val, items, ys, y);
    SumsOfAt(val, items + [item], ys, y);
    TimesAdd(Occurrences(ys, y), AxisSum(val, items, y), val(item, y));
  }

  /** The group the source accumulates for key `k` over the records `data`, one record
      at a time; `GroupMeaning` states what it holds. */
  function GroupOf(val: ValFn, key: KeyFn, data: seq<Item>, ys: seq<string>, k: string): Group {
    if |data| == 0 then Group(0, Zeros(ys))
    else
      var g := GroupOf(val, key, data[..|data| - 1], ys, k);
      if key(data[|data| - 1]) == Some(k)
      then Group(g.count + 1, AddValues(val, g.sums, data[|data| - 1], ys))
      else g
  }

  /** A group counts the records of its key and holds, per axis, their total once per
      time the axis is named. */
  lemma {:induction false} GroupMeaning(val: ValFn, key: KeyFn, data: seq<Item>, ys: seq<string>, k: string)
    ensures GroupOf(val, key, data, ys, k) ==
      Group(|Members(key, data, k)|, SumsOf(val, Members(key, data, k), ys))
  {
    if |data| == 0 {
      SumsOfEmpty(val, ys);
    } else {
      var d, item := data[..|data| - 1], data[|data| - 1];
      var m := Members(key, d, k);
      GroupMeaning(val, key, d, ys, k);
      if key(item) == Some(k) {
        assert Members(key, data, k) == m + [item];
        AddToSums(val, m, item, ys);
      } else {
        assert Members(key, data, k) == m;
      }
    }
  }

  /** After a prefix `d` of the records: the keys in first-appearance order and every
      group's state. */
  ghost predicate Grouped(val: ValFn, key: KeyFn, d: seq<Item>, ys: seq<string>,
                          names: seq<string>, groups: map<string, Group>)
  {
    && names == Dedup(Keys(key, d))
    && (forall k :: k in groups <==> k in names)
    && (forall k :: k in groups ==> groups[k] == GroupOf(val, key, d, ys, k))
  }

  /** The accumulating `reduce`: `acc[key]` is created on a key's first record and then
      bumped by every record of that key. */
  method GroupRows(val: ValFn, key: KeyFn, data: seq<Item>, ys: seq<string>)
    returns (names: seq<string>, groups: map<string, Group>)
    ensures names == Dedup(Keys(key, data))
    ensures forall k :: k in groups <==> k in names
    ensures forall k :: k in groups ==> groups[k] == GroupOf(val, key, data, ys, k)
  {
    names := [];
    groups := map[];
    for n := 0 to |data|
      invariant Grouped(val, key, data[..n], ys, names, groups)
    {
      assert data[..n + 1] == data[..n] + [data[n]];
      names, groups := AddRecord(val, key, data[..n], data[n], ys, names, groups);
    }
    assert data[..|data|] == data;
  }

  /** One step of the `reduce`: the record joins its key's group, which is created when
      the key is new; a record without a key changes nothing. */
  method AddRecord(val: ValFn, key: KeyFn, ghost d: seq<Item>, item: Item, ys: seq<string>,
                   names: seq<string>, groups: map<string, Group>)
    returns (names': seq<string>, groups': map<string, Group>)
    requires Grouped(val, key, d, ys, names, groups)
    ensures Grouped(val, key, d + [item], ys, names', groups')
  {
    match key(item)
    case None =>
      GroupedSkip(val, key, d, item, ys, names, groups);
      names', groups' := names, groups;
    case Some(k) =>
      if k !in groups {
        var g := Group(1, AddValues(val, Zeros(ys), item, ys));
        KeyAbsent(val, key, d, ys, names, groups, k);
        FirstMember(val, key, d, item, ys, k);
        GroupedNew(val, key, d, item, ys, names, groups, k, g);
        names', groups' := names + [k], groups[k := g];
      } else {
        var g := Group(groups[k].count + 1, AddValues(val, groups[k].sums, item, ys));
        GroupAt(val, key, d, ys, names, groups, k);
        NextMember(val, key, d, item, ys, k, groups[k]);
        GroupedSeen(val, key, d, item, ys, names, groups, k, g);
        names', groups' := names, groups[k := g];
      }
  }

  lemma GroupAt(val: ValFn, key: KeyFn, d: seq<Item>, ys: seq<string>,
                names: seq<string>, groups: map<string, Group>, k: string)
    requires Grouped(val, key, d, ys, names, groups) && k in groups
    ensures groups[k] == GroupOf(val, key, d, ys, k)
  {
  }

  lemma KeyAbsent(val: ValFn, key: KeyFn, d: seq<Item>, ys: seq<string>,
                  names: seq<string>, groups: map<string, Group>, k: string)
    requires Grouped(val, key, d, ys, names, groups) && k !in groups
    ensures k !in Keys(key, d)
  {
  }

  lemma GroupedNew(val: ValFn, key: KeyFn, d: seq<Item>, item: Item, ys: seq<string>,
                   names: seq<string>, groups: map<string, Group>, k: string, g: Group)
    requires Grouped(val, key, d, ys, names, groups) && key(item) == Some(k)
    requires k !in groups && g == GroupOf(val, key, d + [item], ys, k)
    ensures Grouped(val, key, d + [item], ys, names + [k], groups[k := g])
  {
    assert k !in names;
    NamesSnoc(key, d, item, names, k);
    UpdateGroups(val, key, d, item, ys, groups, k, g);
    NewKey(groups, names, k, g);
  }

  lemma GroupedSeen(val: ValFn, key: KeyFn, d: seq<Item>, item: Item, ys: seq<string>,
                    names: seq<string>, groups: map<string, Group>, k: string, g: Group)
    requires Grouped(val, key, d, ys, names, groups) && key(item) == Some(k)
    requires k in groups && g == GroupOf(val, key, d + [item], ys, k)
    ensures Grouped(val, key, d + [item], ys, names, groups[k := g])
  {
    assert k in names;
    NamesSnoc(key, d, item, names, k);
    UpdateGroups(val, key, d, item, ys, groups, k, g);
    SameKeys(groups, names, k, g);
  }

  /** Replacing the group of a known key keeps the names. */
  lemma SameKeys(groups: map<string, Group>, names: seq<string>, k: string, g: Group)
    requires (forall j :: j in groups <==> j in names) && k in groups
    ensures forall j :: j in groups[k := g] <==> j in names
  {
  }

  /** A group created under a new key adds that key to the names. */
  lemma NewKey(groups: map<string, Group>, names: seq<string>, k: string, g: Group)
    requires forall j :: j in groups <==> j in names
    ensures forall j :: j in groups[k := g] <==> j in names + [k]
  {
  }

  /** One more record: its key, when it has one, is appended. */
  lemma KeysSnoc(key: KeyFn, d: seq<Item>, item: Item)
    ensures Keys(key, d + [item]) ==
      Keys(key, d) + (match key(item) case None => [] case Some(k) => [k])
  {
    assert (d + [item])[..|d|] == d;
  }

  /** One more record: it joins the group of its key and no other. */
  lemma MembersSnoc(key: KeyFn, d: seq<Item>, item: Item, k: string)
    ensures Members(key, d + [item], k) ==
      Members(key, d, k) + (if key(item) == Some(k) then [item] else [])
  {
    assert (d + [item])[..|d|] == d;
  }

  lemma GroupedSkip(val: ValFn, key: KeyFn, d: seq<Item>, item: Item, ys: seq<string>,
                    names: seq<string>, groups: map<string, Group>)
    requires Grouped(val, key, d, ys, names, groups) && key(item).None?
    ensures Grouped(val, key, d + [item], ys, names, groups)
  {
    KeysSnoc(key, d, item);
    assert Keys(key, d + [item]) == Keys(key, d);
    forall j | j in groups
      ensures groups[j] == GroupOf(val, key, d + [item], ys, j)
    {
      OtherMember(val, key, d, item, ys, j);
    }
  }

  /** A record leaves the groups of the other keys alone. */
  lemma OtherMember(val: ValFn, key: KeyFn, d: seq<Item>, item: Item, ys: seq<string>, j: string)
    requires key(item) != Some(j)
    ensures GroupOf(val, key, d + [item], ys, j) == GroupOf(val, key, d, ys, j)
  {
    assert (d + [item])[..|d|] == d;
  }

  lemma NamesSnoc(key: KeyFn, d: seq<Item>, item: Item, names: seq<string>, k: string)
    requires names == Dedup(Keys(key, d)) && key(item) == Some(k)
    ensures Dedup(Keys(key, d + [item])) == if k in names then names else names + [k]
  {
    KeysSnoc(key, d, item);
    DedupSnoc(Keys(key, d), k);
  }

  /** The groups after one more record of key `k`: the group of `k` is replaced, the
      others are unchanged. */
  lemma UpdateGroups(val: ValFn, key: KeyFn, d: seq<Item>, item: Item, ys: seq<string>,
                     groups: map<string, Group>, k: string, g: Group)
    requires key(item) == Some(k) && g == GroupOf(val, key, d + [item], ys, k)
    requires forall j :: j in groups ==> groups[j] == GroupOf(val, key, d, ys, j)
    ensures forall j :: j in groups[k := g] ==> groups[k := g][j] == GroupOf(val, key, d + [item], ys, j)
  {
    forall j | j in groups && j != k
      ensures groups[j] == GroupOf(val, key, d + [item], ys, j)
    {
      OtherMember(val, key, d, item, ys, j);
    }
  }

  /** A later record of a key is added to its group. */
  lemma NextMember(val: ValFn, key: KeyFn, d: seq<Item>, item: Item, ys: seq<string>, k: string, g: Group)
    requires key(item) == Some(k) && g == GroupOf(val, key, d, ys, k)
    ensures GroupOf(val, key, d + [item], ys, k) == Group(g.count + 1, AddValues(val, g.sums, item, ys))
  {
    assert (d + [item])[..|d|] == d;
  }

  /** The first record of a key starts its group. */
  lemma FirstMember(val: ValFn, key: KeyFn, d: seq<Item>, item: Item, ys: seq<string>, k: string)
    requires key(item) == Some(k) && k !in Keys(key, d)
    ensures GroupOf(val, key, d + [item], ys, k) == Group(1, AddValues(val, Zeros(ys), item, ys))
  {
    assert (d + [item])[..|d|] == d;
    NoMembers(key, d, k);
    GroupMeaning(val, key, d, ys, k);
    SumsOfEmpty(val, ys);
  }

  /** A key that never appears has no records. */
  lemma {:induction false} NoMembers(key: KeyFn, d: seq<Item>, k: string)
    requires k !in Keys(key, d)
    ensures Members(key, d, k) == []
  {
    if |d| > 0 {
      NoMembers(key, d[..|d| - 1], k);
    }
  }

  /** A key that appears has records. */
  lemma {:induction false} SomeMembers(key: KeyFn, d: seq<Item>, k: string)
    requires k in Keys(key, d)
    ensures |Members(key, d, k)| > 0
  {
    if k !in Keys(key, d[..|d| - 1]) {
      assert key(d[|d| - 1]) == Some(k);
    } else {
      SomeMembers(key, d[..|d| - 1], k);
    }
  }

  /** The aggregation mode of a chart. */
  datatype Aggregation = Sum | Avg

  /** An axis shown as a per-row average: in average mode, or when its name mentions
      hours in any letter case. */
  predicate Averaged(agg: Aggregation, y: string) {
    agg == Avg || Contains(Lower(y), "hours")
  }

  /** One bar group of the chart. */
  datatype AggRow = AggRow(name: string, values: map<string, real>)

  /** The finished group: each axis' sum, divided by the row count where averaged. */
  function Finalize(name: string, g: Group, ys: seq<string>, agg: Aggregation): (r: AggRow)
    ensures r.name == name
    ensures forall y :: y in r.values <==> y in ys
  {
    AggRow(name, map y | y in ys ::
      var s := if y in g.sums then g.sums[y] else 0.0;
      if Averaged(agg, y) && g.count > 0 then s / g.count as real else s)
  }

  /** The ranking value of a row: its first axis. With no axis the comparator yields NaN,
      which the sort treats as a tie. */
  function RankKey(row: AggRow, ys: seq<string>): real {
    if |ys| > 0 && ys[0] in row.values then row.values[ys[0]] else 0.0
  }

  predicate SortedDesc(rows: seq<AggRow>, ys: seq<string>) {
    forall i, j :: 0 <= i < j < |rows| ==> RankKey(rows[i], ys) >= RankKey(rows[j], ys)
  }

  /** Inserting `x` after every row ranked strictly higher and before the rest. */
  function InsertDesc(x: AggRow, s: seq<AggRow>, ys: seq<string>): (r: seq<AggRow>)
    ensures |r| == |s| + 1
  {
    if |s| == 0 then [x]
    else if RankKey(s[0], ys) <= RankKey(x, ys) then [x] + s
    else [s[0]] + InsertDesc(x, s[1..], ys)
  }

  lemma {:induction false} InsertDescPermutes(x: AggRow, s: seq<AggRow>, ys: seq<string>)
    ensures multiset(InsertDesc(x, s, ys)) == multiset(s) + multiset{x}
  {
    if |s| > 0 && RankKey(s[0], ys) > RankKey(x, ys) {
      InsertDescPermutes(x, s[1..], ys);
      assert s == [s[0]] + s[1..];
    }
  }

  /** Every row of an insertion is the inserted row or one of the old rows. */
  lemma InsertDescFrom(x: AggRow, s: seq<AggRow>, ys: seq<string>, e: AggRow)
    requires e in InsertDesc(x, s, ys)
    ensures e == x || e in s
  {
    InsertDescPermutes(x, s, ys);
    assert e in multiset(InsertDesc(x, s, ys));
  }

  lemma {:induction false} InsertDescSorted(x: AggRow, s: seq<AggRow>, ys: seq<string>)
    requires SortedDesc(s, ys)
    ensures SortedDesc(InsertDesc(x, s, ys), ys)
  {
    if |s| > 0 && RankKey(s[0], ys) > RankKey(x, ys) {
      var t := InsertDesc(x, s[1..], ys);
      InsertDescSorted(x, s[1..], ys);
      forall j | 0 <= j < |t|
        ensures RankKey(t[j], ys) <= RankKey(s[0], ys)
      {
        InsertDescFrom(x, s[1..], ys, t[j]);
      }
      assert InsertDesc(x, s, ys) == [s[0]] + t;
    }
  }

  /** `sort((a, b) => b[y0] - a[y0])`: a stable sort by descending first axis. */
  function SortDesc(rows: seq<AggRow>, ys: seq<string>): (r: seq<AggRow>)
    ensures |r| == |rows|
  {
    if |rows| == 0 then []
    else InsertDesc(rows[0], SortDesc(rows[1..], ys), ys)
  }

  /** The sort reorders the rows, keeping each one. */
  lemma {:induction false} SortDescPermutes(rows: seq<AggRow>, ys: seq<string>)
    ensures multiset(SortDesc(rows, ys)) == multiset(rows)
  {
    if |rows| > 0 {
      SortDescPermutes(rows[1..], ys);
      InsertDescPermutes(rows[0], SortDesc(rows[1..], ys), ys);
      assert rows == [rows[0]] + rows[1..];
    }
  }

  /** The sort leaves the rows in descending rank order. */
  lemma {:induction false} SortDescSorted(rows: seq<AggRow>, ys: seq<string>)
    ensures SortedDesc(SortDesc(rows, ys), ys)
  {
    if |rows| > 0 {
      SortDescSorted(rows[1..], ys);
      InsertDescSorted(rows[0], SortDesc(rows[1..], ys), ys);
    }
  }

  /** The rows of one rank value, in order. */
  function Tied(rows: seq<AggRow>, ys: seq<string>, v: real): seq<AggRow> {
    if |rows| == 0 then []
    else (if RankKey(rows[0], ys) == v then [rows[0]] else []) + Tied(rows[1..], ys, v)
  }

  lemma {:induction false} TiedInsert(x: AggRow, s: seq<AggRow>, ys: seq<string>, v: real)
    ensures Tied(InsertDesc(x, s, ys), ys, v) ==
      (if RankKey(x, ys) == v then [x] else []) + Tied(s, ys, v)
  {
    if |s| > 0 && RankKey(s[0], ys) > RankKey(x, ys) {
      var t := InsertDesc(x, s[1..], ys);
      assert ([s[0]] + t)[1..] == t;
      TiedInsert(x, s[1..], ys, v);
      if RankKey(x, ys) == v {
        assert RankKey(s[0], ys) != v;
      }
    } else if |s| > 0 {
      assert ([x] + s)[1..] == s;
    } else {
      assert [x][1..] == [];
    }
  }

  /** The sort is stable: rows of equal rank keep their order. */
  lemma {:induction false} SortStable(rows: seq<AggRow>, ys: seq<string>, v: real)
    ensures Tied(SortDesc(rows, ys), ys, v) == Tied(rows, ys, v)
  {
    if |rows| > 0 {
      SortStable(rows[1..], ys, v);
      TiedInsert(rows[0], SortDesc(rows[1..], ys), ys, v);
    }
  }

  /** `slice(0, 10)`. */
  function TopTen(rows: seq<AggRow>): (r: seq<AggRow>)
    ensures |r| == if |rows| < 10 then |rows| else 10
    ensures r == rows[..|r|]
  {
    if |rows| <= 10 then rows else rows[..10]
  }

  /** The finished groups in first-appearance order. */
  function AllGroups(val: ValFn, key: KeyFn, data: seq<Item>, ys: seq<string>, agg: Aggregation): (r: seq<AggRow>)
    ensures |r| == |Dedup(Keys(key, data))|
  {
    var names := Dedup(Keys(key, data));
    seq(|names|, i requires 0 <= i < |names| => Finalize(names[i], GroupOf(val, key, data, ys, names[i]), ys, agg))
  }

  /** `aggregatedData`: the finished groups, ranked, cut to ten. */
  function Aggregated(val: ValFn, key: KeyFn, data: seq<Item>, ys: seq<string>, agg: Aggregation): (r: seq<AggRow>)
    ensures |r| <= 10
  {
    TopTen(SortDesc(AllGroups(val, key, data, ys, agg), ys))
  }

  /** The chart's groups: the accumulating pass, then finishing, ranking and cutting. */
  method AggregatedData(host: Host, data: seq<Item>, x: string, ys: seq<string>, agg: Aggregation)
    returns (rows: seq<AggRow>)
    ensures rows == Aggregated(ItemNumber, RecordKey(host, x), data, ys, agg)
  {
    var key := RecordKey(host, x);
    var names, groups := GroupRows(ItemNumber, key, data, ys);
    var finals := Finished(names, groups, ys, agg);
    FinishedAll(ItemNumber, key, data, ys, agg, names, groups);
    rows := TopTen(SortDesc(finals, ys));
  }

  /** `Object.values(acc).map(...)`: the groups finished in key order. */
  function Finished(names: seq<string>, groups: map<string, Group>, ys: seq<string>, agg: Aggregation): (r: seq<AggRow>)
    requires forall k :: k in names ==> k in groups
    ensures |r| == |names|
    ensures forall i :: 0 <= i < |names| ==> r[i] == Finalize(names[i], groups[names[i]], ys, agg)
  {
    seq(|names|, i requires 0 <= i < |names| => Finalize(names[i], groups[names[i]], ys, agg))
  }

  lemma FinishedAll(val: ValFn, key: KeyFn, data: seq<Item>, ys: seq<string>, agg: Aggregation,
                    names: seq<string>, groups: map<string, Group>)
    requires names == Dedup(Keys(key, data))
    requires forall k :: k in groups <==> k in names
    requires forall k :: k in groups ==> groups[k] == GroupOf(val, key, data, ys, k)
    ensures Finished(names, groups, ys, agg) == AllGroups(val, key, data, ys, agg)
  {
    var all := AllGroups(val, key, data, ys, agg);
    forall i | 0 <= i < |names|
      ensures Finished(names, groups, ys, agg)[i] == all[i]
    {
      assert names[i] in groups;
    }
  }

  /** No records, no groups. */
  lemma AggregatedEmpty(val: ValFn, key: KeyFn, ys: seq<string>, agg: Aggregation)
    ensures Aggregated(val, key, [], ys, agg) == []
  {
    assert Dedup(Keys(key, [])) == [];
  }

  /** The chart rows are in descending order of the first axis. */
  lemma AggregatedSorted(val: ValFn, key: KeyFn, data: seq<Item>, ys: seq<string>, agg: Aggregation)
    ensures SortedDesc(Aggregated(val, key, data, ys, agg), ys)
  {
    RankedSorted(AllGroups(val, key, data, ys, agg), ys);
  }

  lemma RankedSorted(rows: seq<AggRow>, ys: seq<string>)
    ensures SortedDesc(TopTen(SortDesc(rows, ys)), ys)
  {
    SortDescSorted(rows, ys);
  }

  /** Every row of the cut ranking is one of the rows ranked. */
  lemma RankedFrom(rows: seq<AggRow>, ys: seq<string>, i: nat) returns (j: nat)
    requires i < |TopTen(SortDesc(rows, ys))|
    ensures j < |rows| && TopTen(SortDesc(rows, ys))[i] == rows[j]
  {
    var s := SortDesc(rows, ys);
    SortDescPermutes(rows, ys);
    assert s[i] in multiset(rows);
    j :| 0 <= j < |rows| && rows[j] == s[i];
  }

  /** The i-th chart row is the finished group of some key of the records. */
  lemma AggregatedSource(val: ValFn, key: KeyFn, data: seq<Item>, ys: seq<string>, agg: Aggregation, i: nat)
    returns (j: nat)
    requires i < |Aggregated(val, key, data, ys, agg)|
    ensures j < |Dedup(Keys(key, data))|
    ensures Aggregated(val, key, data, ys, agg)[i] == AllGroups(val, key, data, ys, agg)[j]
  {
    j := RankedFrom(AllGroups(val, key, data, ys, agg), ys, i);
  }

  /** No group is shown twice. */
  lemma AggregatedDistinct(val: ValFn, key: KeyFn, data: seq<Item>, ys: seq<string>, agg: Aggregation)
    ensures Distinct(Names(Aggregated(val, key, data, ys, agg)))
  {
    var all := AllGroups(val, key, data, ys, agg);
    assert Names(all) == Dedup(Keys(key, data));
    RankedDistinct(all, ys);
  }

  lemma RankedDistinct(rows: seq<AggRow>, ys: seq<string>)
    requires Distinct(Names(rows))
    ensures Distinct(Names(TopTen(SortDesc(rows, ys))))
  {
    var s := SortDesc(rows, ys);
    var r := TopTen(s);
    SortDescPermutes(rows, ys);
    DistinctNamesSorted(rows, s);
    forall i, j | 0 <= i < j < |r| ensures Names(r)[i] != Names(r)[j] {
      assert Names(s)[i] != Names(s)[j];
    }
  }

  /** Every chart row is the group of a key some record has, and has exactly the axes
      named. */
  lemma AggregatedRow(val: ValFn, host: Host, data: seq<Item>, x: string, ys: seq<string>, agg: Aggregation, i: nat)
    requires i < |Aggregated(val, RecordKey(host, x), data, ys, agg)|
    ensures var row := Aggregated(val, RecordKey(host, x), data, ys, agg)[i];
      && row.name in Keys(RecordKey(host, x), data)
      && row.name != "" && row.name != "undefined" && row.name != "null"
      && forall y :: y in row.values <==> y in ys
  {
    var key := RecordKey(host, x);
    var j := AggregatedSource(val, key, data, ys, agg, i);
    var names := Dedup(Keys(key, data));
    assert names[j] in names;
    KeyIsGroup(host, data, x, names[j]);
  }

  /** The value of axis `y` in a chart row: the total of its group's records, counted
      once per naming of the axis, divided by the group's record count where averaged. */
  lemma AggregatedValue(val: ValFn, key: KeyFn, data: seq<Item>, ys: seq<string>, agg: Aggregation,
                        i: nat, y: string)
    requires i < |Aggregated(val, key, data, ys, agg)| && y in ys
    ensures var row := Aggregated(val, key, data, ys, agg)[i];
      var items := Members(key, data, row.name);
      var total := Times(Occurrences(ys, y), AxisSum(val, items, y));
      && |items| > 0
      && y in row.values
      && row.values[y] == if Averaged(agg, y) then total / |items| as real else total
  {
    var j := AggregatedSource(val, key, data, ys, agg, i);
    GroupRowValue(val, key, data, ys, agg, j, y);
  }

  lemma GroupRowValue(val: ValFn, key: KeyFn, data: seq<Item>, ys: seq<string>, agg: Aggregation,
                      j: nat, y: string)
    requires j < |Dedup(Keys(key, data))| && y in ys
    ensures var row := AllGroups(val, key, data, ys, agg)[j];
      var items := Members(key, data, row.name);
      var total := Times(Occurrences(ys, y), AxisSum(val, items, y));
      && |items| > 0
      && y in row.values
      && row.values[y] == if Averaged(agg, y) then total / |items| as real else total
  {
    var names := Dedup(Keys(key, data));
    var k := names[j];
    assert k in names;
    var items := Members(key, data, k);
    SomeMembers(key, data, k);
    GroupMeaning(val, key, data, ys, k);
    SumsOfAt(val, items, ys, y);
    FinalizeAt(k, GroupOf(val, key, data, ys, k), ys, agg, y);
  }

  /** An axis of a finished group: its sum, divided by the count where averaged. */
  lemma FinalizeAt(name: string, g: Group, ys: seq<string>, agg: Aggregation, y: string)
    requires y in ys && y in g.sums
    ensures y in Finalize(name, g, ys, agg).values
    ensures Finalize(name, g, ys, agg).values[y] ==
      if Averaged(agg, y) && g.count > 0 then g.sums[y] / g.count as real else g.sums[y]
  {
  }

  function Names(rows: seq<AggRow>): (r: seq<string>)
    ensures |r| == |rows|
    ensures forall i :: 0 <= i < |rows| ==> r[i] == rows[i].name
  {
    seq(|rows|, i requires 0 <= i < |rows| => rows[i].name)
  }

  /** Keys that are never empty, "undefined" or "null". */
  ghost predicate ProperKeys(key: KeyFn) {
    forall item :: key(item).Some? ==>
      key(item).value != "" && key(item).value != "undefined" && key(item).value != "null"
  }

  /** Grouping by a field only yields proper keys. */
  lemma RecordKeyProper(host: Host, x: string)
    ensures ProperKeys(RecordKey(host, x))
  {
    forall item | RecordKey(host, x)(item).Some?
      ensures RecordKey(host, x)(item).value != "" && RecordKey(host, x)(item).value != "undefined"
        && RecordKey(host, x)(item).value != "null"
    {
      var r := GroupKey(host, item, x);
      assert RecordKey(host, x)(item) == r;
    }
  }

  lemma {:induction false} KeysProper(key: KeyFn, data: seq<Item>, k: string)
    requires ProperKeys(key) && k in Keys(key, data)
    ensures k != "" && k != "undefined" && k != "null"
  {
    var d := data[..|data| - 1];
    if k !in Keys(key, d) {
      assert key(data[|data| - 1]) == Some(k);
    } else {
      KeysProper(key, d, k);
    }
  }

  lemma KeyIsGroup(host: Host, data: seq<Item>, x: string, k: string)
    requires k in Keys(RecordKey(host, x), data)
    ensures k != "" && k != "undefined" && k != "null"
  {
    RecordKeyProper(host, x);
    KeysProper(RecordKey(host, x), data, k);
  }

  /** A permutation of rows with distinct names has distinct names. */
  lemma DistinctNamesSorted(all: seq<AggRow>, s: seq<AggRow>)
    requires Distinct(Names(all)) && multiset(s) == multiset(all)
    ensures Distinct(Names(s))
  {
    assert Distinct(all) by {
      forall p, q | 0 <= p < q < |all| ensures all[p] != all[q] {
        assert Names(all)[p] != Names(all)[q];
      }
    }
    forall i, j | 0 <= i < j < |s| ensures Names(s)[i] != Names(s)[j] {
      DistinctAfterPermutation(all, s, i, j);
      assert s[i] in multiset(all) && s[j] in multiset(all);
      var a :| 0 <= a < |all| && all[a] == s[i];
      var b :| 0 <= b < |all| && all[b] == s[j];
      assert Names(all)[a] != Names(all)[b];
    }
  }

  /** The axis value of a chart row, undefined when the row has no such axis. */
  function Lookup(row: AggRow, k: string): Option<real> {
    if k in row.values then Some(row.values[k]) else None
  }

  /** Real tonnage below 85% of a positive programme. */
  predicate TonShort(row: AggRow) {
    Lookup(row, "Ton_Prog").Some? && Lookup(row, "Ton_Real").Some?
    && Lookup(row, "Ton_Prog").value > 0.0
    && Lookup(row, "Ton_Real").value < Lookup(row, "Ton_Prog").value * 0.85
  }

  /** Both durations positive and the real one at least `threshold` hours over the target. */
  predicate TimeGap(row: AggRow, threshold: real) {
    Lookup(row, "faenaRealHours").Some? && Lookup(row, "faenaMetaHours").Some?
    && Lookup(row, "faenaRealHours").value > 0.0 && Lookup(row, "faenaMetaHours").value > 0.0
    && Lookup(row, "faenaRealHours").value - Lookup(row, "faenaMetaHours").value >= threshold
  }

  /** The thresholds of the deviation table: ten minutes to list a product, five to flag
      its time. */
  const ListThreshold: real := 10.0 / 60.0
  const FlagThreshold: real := 5.0 / 60.0

  predicate Deviates(row: AggRow) {
    TonShort(row) || TimeGap(row, ListThreshold)
  }

  /** One line of the deviation table. */
  datatype Deviation = Deviation(name: string, tonIssue: bool, timeIssue: bool)

  /** The rows the table lists, in chart order. */
  function DeviatingRows(rows: seq<AggRow>): (r: seq<AggRow>)
    ensures |r| <= |rows|
    ensures forall e :: e in r <==> e in rows && Deviates(e)
  {
    Filter(rows, Deviates)
  }

  /** The table keeps chart order: selecting distributes over concatenation. */
  lemma DeviatingRowsAppend(a: seq<AggRow>, b: seq<AggRow>)
    ensures DeviatingRows(a + b) == DeviatingRows(a) + DeviatingRows(b)
  {
    FilterAppend(a, b, Deviates);
  }

  /** `deviatedProducts`: the deviating rows with their two flags. */
  function DeviatedProducts(rows: seq<AggRow>): (r: seq<Deviation>)
    ensures |r| == |DeviatingRows(rows)|
    ensures forall i :: 0 <= i < |r| ==>
      var row := DeviatingRows(rows)[i];
      r[i].name == row.name && r[i].tonIssue == TonShort(row) && r[i].timeIssue == TimeGap(row, FlagThreshold)
  {
    var kept := DeviatingRows(rows);
    seq(|kept|, i requires 0 <= i < |kept| =>
      Deviation(kept[i].name, TonShort(kept[i]), TimeGap(kept[i], FlagThreshold)))
  }

  /** Every listed product carries a flag: a row listed for its time also passes the
      lower five-minute threshold. */
  lemma ListedHaveFlag(rows: seq<AggRow>)
    ensures forall i :: 0 <= i < |DeviatedProducts(rows)| ==>
      DeviatedProducts(rows)[i].tonIssue || DeviatedProducts(rows)[i].timeIssue
  {
    var kept := DeviatingRows(rows);
    forall i | 0 <= i < |kept|
      ensures TonShort(kept[i]) || TimeGap(kept[i], FlagThreshold)
    {
      assert kept[i] in kept;
    }
  }

  /** A row at exactly seven minutes over its target is not listed, but would be flagged. */
  lemma TimeFlagWithoutListing()
    ensures var row := AggRow("P", map["faenaRealHours" := 1.0 + 7.0 / 60.0, "faenaMetaHours" := 1.0]);
      !Deviates(row) && TimeGap(row, FlagThreshold) && DeviatingRows([row]) == []
  {
  }
}
