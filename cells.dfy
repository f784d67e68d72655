/** Spreadsheet cells as the workbook reader delivers them, the JavaScript coercions the
    reports apply to a cell, and the column lookup both reports use on their header row. */
module Cells {
  import opened Wrappers
  import opened JsString
  import opened CivilDate

  /** A date-time cell: its calendar date and time of day. */
  datatype Stamp = Stamp(date: Date, hour: nat, minute: nat, second: nat)

  /** One cell of the decoded grid; `Empty` is a missing, undefined or null cell. The reader
      ends a row at its last filled cell and leaves every blank cell before it as a hole, so
      an `Empty` inside a row is a hole of the array. */
  datatype Cell = Empty | Num(n: real) | Text(s: string) | Bool(b: bool) | DateTime(t: Stamp)

  /** Renderings performed by code outside the model: `String(x)` of a non-integral
      number and of a date, and the company-name normaliser imported from the
      utilities module. */
  datatype Host = Host(numberText: real -> string, dateText: Stamp -> string, companyName: Cell -> string)

  /** JavaScript truthiness of a cell value. */
  predicate Truthy(c: Cell) {
    match c
    case Empty => false
    case Num(n) => n != 0.0
    case Text(s) => s != ""
    case Bool(b) => b
    case DateTime(_) => true
  }

  /** Below this magnitude `String` writes an integral number as a plain decimal integer;
      from it on, in exponent form. */
  const PlainIntegerLimit: real := 1000000000000000000000.0

  /** `String(c)`. Integral numbers of magnitude below 10^21 render as decimal integers. */
  function CellString(host: Host, c: Cell): (r: string)
    ensures c.Text? ==> r == c.s
    ensures c.Num? && c.n == c.n.Floor as real && -PlainIntegerLimit < c.n < PlainIntegerLimit ==>
      r == IntToString(c.n.Floor)
    ensures c.Num? && !(c.n == c.n.Floor as real && -PlainIntegerLimit < c.n < PlainIntegerLimit) ==>
      r == host.numberText(c.n)
  {
    match c
    case Empty => "undefined"
    case Num(n) =>
      if n == n.Floor as real && -PlainIntegerLimit < n < PlainIntegerLimit then IntToString(n.Floor)
      else host.numberText(n)
    case Text(s) => s
    case Bool(b) => if b then "true" else "false"
    case DateTime(t) => host.dateText(t)
  }

  /** `String(c || fallback)`. */
  function StringOr(host: Host, c: Cell, fallback: string): (r: string)
    ensures !Truthy(c) ==> r == fallback
    ensures Truthy(c) ==> r == CellString(host, c)
    ensures c.Text? && c.s != "" ==> r == c.s
  {
    if Truthy(c) then CellString(host, c) else fallback
  }

  /** `row[i]`, which is undefined past the end of the row. */
  function CellAt(row: seq<Cell>, i: int): (c: Cell)
    ensures 0 <= i < |row| ==> c == row[i]
    ensures !(0 <= i < |row|) ==> c == Empty
  {
    if 0 <= i < |row| then row[i] else Empty
  }

  /** A header cell as both reports normalise it: `String(h || '').toUpperCase().trim()`. */
  function HeaderName(host: Host, c: Cell): string {
    Trim(Upper(StringOr(host, c, "")))
  }

  function HeaderNames(host: Host, row: seq<Cell>): (r: seq<string>)
    ensures |r| == |row|
    ensures forall i :: 0 <= i < |row| ==> r[i] == HeaderName(host, row[i])
  {
    seq(|row|, i requires 0 <= i < |row| => HeaderName(host, row[i]))
  }

  /** `headers.findIndex(h => h.includes(token))`, with `None` for -1. */
  function FindHeader(headers: seq<string>, token: string): (r: Option<nat>)
    ensures r.Some? ==> (r.value < |headers| && Contains(headers[r.value], token)
                         && forall j :: 0 <= j < r.value ==> !Contains(headers[j], token))
    ensures r.None? ==> forall j :: 0 <= j < |headers| ==> !Contains(headers[j], token)
  {
    if |headers| == 0 then None
    else if Contains(headers[0], token) then Some(0)
    else match FindHeader(headers[1..], token)
      case None => None
      case Some(k) => Some(k + 1)
  }

  /** `getIdx(name, fallback)`: the first header containing the upper-cased name,
      otherwise the fallback column. */
  function GetIdx(headers: seq<string>, name: string, fallback: nat): (r: nat)
    ensures r == fallback || (r < |headers| && Contains(headers[r], Upper(name)))
    ensures (exists j :: 0 <= j < |headers| && Contains(headers[j], Upper(name))) ==>
      (r < |headers| && Contains(headers[r], Upper(name))
       && forall j :: 0 <= j < r ==> !Contains(headers[j], Upper(name)))
    ensures (forall j :: 0 <= j < |headers| ==> !Contains(headers[j], Upper(name))) ==> r == fallback
  {
    match FindHeader(headers, Upper(name))
    case Some(k) => k
    case None => fallback
  }

  /** A field whose token no header contains keeps its fallback column: a header row
      of empty cells contains no non-empty token. */
  lemma GetIdxFallback(headers: seq<string>, name: string, fallback: nat)
    requires forall j :: 0 <= j < |headers| ==> headers[j] == ""
    requires |name| > 0
    ensures GetIdx(headers, name, fallback) == fallback
  {
    var t := Upper(name);
    forall j | 0 <= j < |headers| ensures !Contains(headers[j], t) {
      assert !StartsWith(headers[j], t);
    }
  }

  /** A plain upper-case text header is read as itself. */
  lemma PlainHeader(host: Host, s: string)
    requires |s| > 0 && !IsSpace(s[0]) && !IsSpace(s[|s| - 1])
    requires forall i :: 0 <= i < |s| ==> !('a' <= s[i] <= 'z') && s[i] < '\U{00E0}'
    ensures HeaderName(host, Text(s)) == s
  {
    assert StringOr(host, Text(s), "") == s;
    UpperFixed(s);
    TrimNoSpace(s);
    HeaderNameOf(host, Text(s), s);
  }

  lemma HeaderNameOf(host: Host, c: Cell, s: string)
    requires StringOr(host, c, "") == s && Upper(s) == s && Trim(s) == s
    ensures HeaderName(host, c) == s
  {
  }

  /** A name with a character that occurs in no header falls back. */
  lemma AbsentName(headers: seq<string>, name: string, k: nat, fallback: nat)
    requires Upper(name) == name && k < |name|
    requires forall j, i :: 0 <= j < |headers| && 0 <= i < |headers[j]| ==> headers[j][i] != name[k]
    ensures GetIdx(headers, name, fallback) == fallback
  {
    forall j | 0 <= j < |headers| ensures !Contains(headers[j], name) {
      MissingChar(headers[j], name, k);
    }
  }

  /** A name found in header `j` and in no earlier header resolves to `j`. */
  lemma FoundName(headers: seq<string>, name: string, j: nat, fallback: nat)
    requires Upper(name) == name && j < |headers| && Contains(headers[j], name)
    requires forall i :: 0 <= i < j ==> !Contains(headers[i], name)
    ensures GetIdx(headers, name, fallback) == j
  {
  }

  /** `jsonData[0].map(h => …)` as an array: `map` skips the row's holes and keeps them,
      so a hole of the row is `None` here. */
  function HeaderSlots(host: Host, row: seq<Cell>): (r: seq<Option<string>>)
    ensures |r| == |row|
    ensures forall i :: 0 <= i < |row| ==> (r[i].None? <==> row[i].Empty?)
    ensures forall i :: 0 <= i < |row| && r[i].Some? ==> r[i].value == HeaderNames(host, row)[i]
  {
    seq(|row|, i requires 0 <= i < |row| => if row[i].Empty? then None else Some(HeaderName(host, row[i])))
  }

  /** How `findIndex` ends: at the first header containing the token, past the end, or at
      a hole before either, where `h.includes` on `undefined` throws. */
  datatype Scan = Found(index: nat) | NotFound | HitHole(index: nat)

  /** `headers.findIndex(h => h.includes(token))` on the header array, holes included. */
  function ScanHeader(slots: seq<Option<string>>, token: string): (r: Scan)
    ensures r.Found? ==> r.index < |slots| && slots[r.index].Some? && Contains(slots[r.index].value, token)
    ensures r.HitHole? ==> r.index < |slots| && slots[r.index].None?
    ensures !r.NotFound? ==>
      forall j :: 0 <= j < r.index ==> slots[j].Some? && !Contains(slots[j].value, token)
    ensures r.NotFound? ==>
      forall j :: 0 <= j < |slots| ==> slots[j].Some? && !Contains(slots[j].value, token)
  {
    if |slots| == 0 then NotFound
    else if slots[0].None? then HitHole(0)
    else if Contains(slots[0].value, token) then Found(0)
    else match ScanHeader(slots[1..], token)
      case Found(k) => Found(k + 1)
      case NotFound => NotFound
      case HitHole(k) => HitHole(k + 1)
  }

  /** Whether `getIdx(name, …)` throws on this header row. */
  predicate IdxThrows(host: Host, row: seq<Cell>, name: string) {
    ScanHeader(HeaderSlots(host, row), Upper(name)).HitHole?
  }

  /** The scan throws exactly when some hole has no match before it. */
  lemma {:induction false} HitHoleIff(slots: seq<Option<string>>, token: string)
    ensures ScanHeader(slots, token).HitHole? <==>
      exists k :: 0 <= k < |slots| && slots[k].None?
        && forall j :: 0 <= j < k ==> slots[j].None? || !Contains(slots[j].value, token)
  {
    var r := ScanHeader(slots, token);
    if r.HitHole? {
      assert 0 <= r.index < |slots| && slots[r.index].None?;
    } else {
      forall k | 0 <= k < |slots| && slots[k].None?
        ensures exists j :: 0 <= j < k && slots[j].Some? && Contains(slots[j].value, token)
      {
        assert r.Found? && r.index < k;
      }
    }
  }

  /** A lookup that does not throw returns what `getIdx` computes from the header texts:
      a header with no hole before the name's first match loads as if it had none. */
  lemma ScanAgrees(host: Host, row: seq<Cell>, name: string, fallback: nat)
    requires !IdxThrows(host, row, name)
    ensures GetIdx(HeaderNames(host, row), name, fallback) ==
      match ScanHeader(HeaderSlots(host, row), Upper(name))
      case Found(k) => k
      case _ => fallback
  {
    ScanFinds(HeaderSlots(host, row), HeaderNames(host, row), Upper(name));
  }

  /** On slots that carry the header texts, a scan that reaches no hole finds what
      `FindHeader` finds. */
  lemma ScanFinds(slots: seq<Option<string>>, headers: seq<string>, token: string)
    requires |slots| == |headers|
    requires forall i :: 0 <= i < |slots| && slots[i].Some? ==> slots[i].value == headers[i]
    requires !ScanHeader(slots, token).HitHole?
    ensures FindHeader(headers, token) ==
      match ScanHeader(slots, token)
      case Found(k) => Some(k)
      case _ => None
  {
    match ScanHeader(slots, token)
    case Found(k) =>
      assert Contains(headers[k], token);
    case NotFound =>
  }

  /** A header row without holes never throws. */
  lemma NoHoleNoThrow(host: Host, row: seq<Cell>, name: string)
    requires forall j :: 0 <= j < |row| ==> !row[j].Empty?
    ensures !IdxThrows(host, row, name)
  {
  }
}
