// Model of the host-range read of format/reader.go: pages whose zone lies outside the range are
// skipped, and the answer is that of filtering every row.
module Reader {
  import opened Wrappers
  import opened Bytes
  import opened Keys
  import opened Encoding
  import opened Pages
  import opened Column

  const KEY_WIDTH: byte := 8

  lemma KeyValue(data: bytes, i: nat)
    ensures ValueAt(data, i, KEY_WIDTH) < TWO_64
  {
    Pow256Words();
  }

  function RowKey(hk: bytes, pk: bytes, i: nat): URLKey {
    KeyValue(hk, i);
    KeyValue(pk, i);
    URLKey(ValueAt(hk, i, KEY_WIDTH), ValueAt(pk, i, KEY_WIDTH))
  }

  // The keys of rows [a, b) whose host lies in [lo, hi], in stored order.
  function RangeKeys(hk: bytes, pk: bytes, a: nat, b: nat, lo: nat, hi: nat): seq<URLKey>
    requires a <= b
    decreases b
  {
    if a == b then []
    else RangeKeys(hk, pk, a, b - 1, lo, hi) + if lo <= ValueAt(hk, b - 1, KEY_WIDTH) <= hi then [RowKey(hk, pk, b - 1)] else []
  }

  lemma {:induction false} RangeJoin(hk: bytes, pk: bytes, a: nat, b: nat, e: nat, lo: nat, hi: nat)
    requires a <= b <= e
    ensures RangeKeys(hk, pk, a, e, lo, hi) == RangeKeys(hk, pk, a, b, lo, hi) + RangeKeys(hk, pk, b, e, lo, hi)
    decreases e
  {
    hide ValueAt;
    if b < e {
      RangeJoin(hk, pk, a, b, e - 1, lo, hi);
    }
  }

  // Rows none of whose hosts is in range give nothing.
  lemma {:induction false} RangeEmpty(hk: bytes, pk: bytes, a: nat, b: nat, lo: nat, hi: nat)
    requires a <= b && forall i :: a <= i < b ==> !(lo <= ValueAt(hk, i, KEY_WIDTH) <= hi)
    ensures RangeKeys(hk, pk, a, b, lo, hi) == []
    decreases b
  {
    hide ValueAt;
    if a < b {
      RangeEmpty(hk, pk, a, b - 1, lo, hi);
    }
  }

  // The two key columns, stored alike.
  ghost predicate Stored(z: Foreign, file: bytes, hkDir: ColumnDir, pkDir: ColumnDir, hk: Column, pk: Column, maxRows: int,
                         hkPlans: seq<Plan>, pkPlans: seq<Plan>) {
    && z.Lossless()
    && ColumnOk(z, file, hkDir, hk, maxRows, hkPlans) && ColumnOk(z, file, pkDir, pk, maxRows, pkPlans)
    && hk.Whole() && pk.Whole() && hk.width == pk.width == KEY_WIDTH && |hk.data| == |pk.data|
  }

  // A header whose bounds are right.
  ghost predicate Bounded(hk: Column, headLo: nat, headHi: nat) {
    forall i :: 0 <= i < hk.NumValues() ==> headLo <= ValueAt(hk.data, i, KEY_WIDTH) <= headHi
  }

  // HostRangeURLKeys
  method HostRangeURLKeys(z: Foreign, file: bytes, hkDir: ColumnDir, pkDir: ColumnDir, headLo: nat, headHi: nat, rows: nat, lo: nat, hi: nat,
                          ghost hk: Column, ghost pk: Column, ghost maxRows: int, ghost hkPlans: seq<Plan>, ghost pkPlans: seq<Plan>)
    returns (out: Option<seq<URLKey>>)
    ensures Stored(z, file, hkDir, pkDir, hk, pk, maxRows, hkPlans, pkPlans) && Bounded(hk, headLo, headHi) && rows == hk.NumValues() ==>
      out == Some(RangeKeys(hk.data, pk.data, 0, hk.NumValues(), lo, hi))
  {
    hide ColumnOk, RangeKeys, ValueAt;
    ghost var ok := Stored(z, file, hkDir, pkDir, hk, pk, maxRows, hkPlans, pkPlans);
    if lo > hi || hi < headLo || lo > headHi {
      if Bounded(hk, headLo, headHi) {
        RangeEmpty(hk.data, pk.data, 0, hk.NumValues(), lo, hi);
      }
      return Some([]);
    }
    if hkDir.numPages <= 1 || hkDir.pages == [] {
      out := WholeRange(z, file, hkDir, pkDir, rows, lo, hi, hk, pk, maxRows, hkPlans, pkPlans);
      return;
    }
    // The source would index past a shorter skip list.
    if |pkDir.pages| != |hkDir.pages| {
      if ok {
        SamePages(z, file, hkDir, pkDir, hk, pk, maxRows, hkPlans, pkPlans);
      }
      return None;
    }
    out := PagedRange(z, file, hkDir, pkDir, lo, hi, hk, pk, maxRows, hkPlans, pkPlans);
  }

  // No skip list: read both columns and filter.
  method WholeRange(z: Foreign, file: bytes, hkDir: ColumnDir, pkDir: ColumnDir, rows: nat, lo: nat, hi: nat,
                    ghost hk: Column, ghost pk: Column, ghost maxRows: int, ghost hkPlans: seq<Plan>, ghost pkPlans: seq<Plan>)
    returns (out: Option<seq<URLKey>>)
    ensures Stored(z, file, hkDir, pkDir, hk, pk, maxRows, hkPlans, pkPlans) && rows == hk.NumValues() ==>
      out == Some(RangeKeys(hk.data, pk.data, 0, hk.NumValues(), lo, hi))
  {
    hide ColumnOk, RangeKeys, ValueAt;
    var hosts := DecodeColumn(z, file, hkDir, hk, maxRows, hkPlans);
    var paths := DecodeColumn(z, file, pkDir, pk, maxRows, pkPlans);
    if hosts.None? || paths.None? || |hosts.value| < rows * 8 || |paths.value| < rows * 8 {
      return None;
    }
    var keys := Filter(hosts.value, paths.value, rows, lo, hi);
    return Some(keys);
  }

  method Filter(hk: bytes, pk: bytes, n: nat, lo: nat, hi: nat) returns (keys: seq<URLKey>)
    ensures keys == RangeKeys(hk, pk, 0, n, lo, hi)
  {
    hide ValueAt, RowKey;
    keys := [];
    for i := 0 to n
      invariant keys == RangeKeys(hk, pk, 0, i, lo, hi)
    {
      if lo <= ValueAt(hk, i, KEY_WIDTH) <= hi {
        keys := keys + [RowKey(hk, pk, i)];
      }
    }
  }

  lemma SamePages(z: Foreign, file: bytes, hkDir: ColumnDir, pkDir: ColumnDir, hk: Column, pk: Column, maxRows: int,
                  hkPlans: seq<Plan>, pkPlans: seq<Plan>)
    requires Stored(z, file, hkDir, pkDir, hk, pk, maxRows, hkPlans, pkPlans) && hkDir.pages != []
    ensures |pkDir.pages| == |hkDir.pages| == |hkPlans| == |pkPlans| > 1 && maxRows > 0
    ensures (|hkPlans| - 1) * maxRows < hk.NumValues() <= |hkPlans| * maxRows
  {
    hide Flat, PagesOf, PlansOk, RowsRun, ZoneOk, EntryOk, IsChunk, Datas;
    SameCount(|hkPlans|, |pkPlans|, maxRows, hk.NumValues());
  }

  lemma SameCount(a: nat, b: nat, r: nat, n: nat)
    requires (a - 1) * r < n <= a * r && (b - 1) * r < n <= b * r
    ensures a == b
  {
    if a < b {
      Narrow(a, b - 1, r);
    } else if b < a {
      Narrow(b, a - 1, r);
    }
  }

  lemma Narrow(a: nat, b: nat, r: nat)
    requires a <= b
    ensures a * r <= b * r
  {
  }

  // Page k of a split key column: rows [k * maxRows, end) of the column.
  ghost predicate PageRows(c: Column, maxRows: nat, k: nat, data: bytes, f: nat, e: nat) {
    && f == k * maxRows && f < e && e == Min((k + 1) * maxRows, c.NumValues()) && e * 8 <= |c.data|
    && data == c.data[f * 8..e * 8]
  }

  lemma PageSize(c: Column, maxRows: nat, k: nat, data: bytes, f: nat, e: nat)
    requires PageRows(c, maxRows, k, data, f, e)
    ensures |data| == (e - f) * 8
  {
  }

  lemma PageValues(c: Column, maxRows: nat, k: nat, data: bytes, f: nat, e: nat, i: nat)
    requires PageRows(c, maxRows, k, data, f, e) && i < e - f
    ensures ValueAt(data, i, KEY_WIDTH) == ValueAt(c.data, f + i, KEY_WIDTH)
  {
    assert data[i * 8..i * 8 + 8] == c.data[(f + i) * 8..(f + i) * 8 + 8];
  }

  // Filtering a page is filtering its rows of the columns.
  lemma {:induction false} PageRange(hk: Column, pk: Column, maxRows: nat, k: nat, hkData: bytes, pkData: bytes, f: nat, e: nat,
                                     m: nat, lo: nat, hi: nat)
    requires PageRows(hk, maxRows, k, hkData, f, e) && PageRows(pk, maxRows, k, pkData, f, e) && m <= e - f
    ensures RangeKeys(hkData, pkData, 0, m, lo, hi) == RangeKeys(hk.data, pk.data, f, f + m, lo, hi)
  {
    hide ValueAt, PageRows;
    if m > 0 {
      PageRange(hk, pk, maxRows, k, hkData, pkData, f, e, m - 1, lo, hi);
      PageValues(hk, maxRows, k, hkData, f, e, m - 1);
      PageValues(pk, maxRows, k, pkData, f, e, m - 1);
      assert RowKey(hkData, pkData, m - 1) == RowKey(hk.data, pk.data, f + m - 1);
    }
  }

  lemma PageOf(z: Foreign, file: bytes, d: ColumnDir, c: Column, maxRows: int, plans: seq<Plan>, k: nat)
    returns (f: nat, e: nat)
    requires ColumnOk(z, file, d, c, maxRows, plans) && d.pages != [] && c.Whole() && c.width == KEY_WIDTH && maxRows > 0 && k < |plans|
    ensures PageRows(c, maxRows, k, plans[k].sub.data, f, e)
    ensures k < |d.pages| && d.pages[k].numValues == e - f == plans[k].sub.NumValues() && plans[k].sub.width == KEY_WIDTH
    ensures ZoneOk(plans[k].sub, d.pages[k].zone)
  {
    hide Flat, PagesOf, PlansOk, RowsRun, ZoneOk, Datas, PageBytes;
    f, e := k * maxRows, Min((k + 1) * maxRows, c.NumValues());
    assert SubsOf(plans)[k] == plans[k].sub;
    assert IsChunk(c, maxRows, k, SubsOf(plans)[k].data);
    assert EntryOk(z, d.pages[k], plans[k]);
    Grow(k, maxRows);
  }

  lemma Grow(k: nat, r: nat)
    requires r > 0
    ensures k * r < (k + 1) * r
  {
  }

  method PagedRange(z: Foreign, file: bytes, hkDir: ColumnDir, pkDir: ColumnDir, lo: nat, hi: nat,
                    ghost hk: Column, ghost pk: Column, ghost maxRows: int, ghost hkPlans: seq<Plan>, ghost pkPlans: seq<Plan>)
    returns (out: Option<seq<URLKey>>)
    requires |pkDir.pages| == |hkDir.pages| && hkDir.pages != []
    ensures Stored(z, file, hkDir, pkDir, hk, pk, maxRows, hkPlans, pkPlans) ==>
      out == Some(RangeKeys(hk.data, pk.data, 0, hk.NumValues(), lo, hi))
  {
    hide ColumnOk, RangeKeys, ValueAt, Stored;
    ghost var ok := Stored(z, file, hkDir, pkDir, hk, pk, maxRows, hkPlans, pkPlans);
    if ok {
      SamePages(z, file, hkDir, pkDir, hk, pk, maxRows, hkPlans, pkPlans);
    }
    var keys: seq<URLKey> := [];
    ghost var row := 0;
    NoRange(hk.data, pk.data, lo, hi);
    for pi := 0 to |hkDir.pages|
      invariant ok ==> row == PageStart(hk, maxRows, pi) && keys == RangeKeys(hk.data, pk.data, 0, row, lo, hi)
    {
      var part;
      ghost var next;
      part, next := OnePage(z, file, hkDir, pkDir, pi, lo, hi, hk, pk, maxRows, hkPlans, pkPlans, row, ok);
      if part.None? {
        return None;
      }
      if ok {
        RangeJoin(hk.data, pk.data, 0, row, next, lo, hi);
      }
      row := next;
      keys := keys + part.value;
    }
    return Some(keys);
  }

  lemma NoRange(hk: bytes, pk: bytes, lo: nat, hi: nat)
    ensures RangeKeys(hk, pk, 0, 0, lo, hi) == []
  {
  }

  ghost function PageStart(c: Column, maxRows: int, k: nat): nat {
    if maxRows <= 0 then 0 else StartOf(maxRows, k, c.NumValues())
  }

  ghost function StartOf(maxRows: nat, k: nat, n: nat): nat {
    Min(k * maxRows, n)
  }

  // The rows before page pi have been read.
  ghost predicate AtPageOf(z: Foreign, file: bytes, hkDir: ColumnDir, pkDir: ColumnDir, pi: nat, hk: Column, pk: Column, maxRows: int,
                           hkPlans: seq<Plan>, pkPlans: seq<Plan>, row: nat) {
    && Stored(z, file, hkDir, pkDir, hk, pk, maxRows, hkPlans, pkPlans) && maxRows > 0
    && |hkDir.pages| == |hkPlans| == |pkPlans| && row == PageStart(hk, maxRows, pi)
  }

  ghost predicate EndsPage(hk: Column, maxRows: int, pi: nat, next: nat) {
    maxRows > 0 && next == PageStart(hk, maxRows, pi + 1)
  }

  // One page: skipped when its zone is outside the range, else decoded and filtered.
  method OnePage(z: Foreign, file: bytes, hkDir: ColumnDir, pkDir: ColumnDir, pi: nat, lo: nat, hi: nat,
                 ghost hk: Column, ghost pk: Column, ghost maxRows: int, ghost hkPlans: seq<Plan>, ghost pkPlans: seq<Plan>,
                 ghost row: nat, ghost ok: bool) returns (part: Option<seq<URLKey>>, ghost next: nat)
    requires pi < |hkDir.pages| == |pkDir.pages|
    requires ok ==> AtPageOf(z, file, hkDir, pkDir, pi, hk, pk, maxRows, hkPlans, pkPlans, row)
    ensures ok ==> row <= next && EndsPage(hk, maxRows, pi, next) && part == Some(RangeKeys(hk.data, pk.data, row, next, lo, hi))
  {
    hide ColumnOk, RangeKeys, ValueAt, ZoneOk, PageRows;
    ghost var f: nat, e: nat, g: nat, h: nat := 0, 0, 0, 0;
    next := 0;
    var pe := hkDir.pages[pi];
    if ok {
      f, e := PageOf(z, file, hkDir, hk, maxRows, hkPlans, pi);
      g, h := PageOf(z, file, pkDir, pk, maxRows, pkPlans, pi);
      SameRows(hk, pk, maxRows, pi, hkPlans[pi].sub.data, pkPlans[pi].sub.data, f, e, g, h);
      next := e;
    }
    if pe.zone.Some? && (pe.zone.value.1 < lo || pe.zone.value.0 > hi) {
      if ok {
        Pruned(hk, pk, maxRows, pi, hkPlans[pi].sub, pe.zone.value, f, e, lo, hi);
      }
      return Some([]), next;
    }
    var hosts := DecodeColumnPage(z, file, hkDir, pi, hk, maxRows, hkPlans);
    var paths := DecodeColumnPage(z, file, pkDir, pi, pk, maxRows, pkPlans);
    if ok {
      PageSize(hk, maxRows, pi, hkPlans[pi].sub.data, f, e);
      PageSize(pk, maxRows, pi, pkPlans[pi].sub.data, f, e);
    }
    if hosts.None? || paths.None? || |hosts.value| < pe.numValues * 8 || |paths.value| < pe.numValues * 8 {
      return None, next;
    }
    var keys := Filter(hosts.value, paths.value, pe.numValues, lo, hi);
    if ok {
      PageRange(hk, pk, maxRows, pi, hkPlans[pi].sub.data, pkPlans[pi].sub.data, f, e, e - f, lo, hi);
    }
    return Some(keys), next;
  }

  lemma SameRows(hk: Column, pk: Column, maxRows: nat, k: nat, hkData: bytes, pkData: bytes, f: nat, e: nat, g: nat, h: nat)
    requires PageRows(hk, maxRows, k, hkData, f, e) && PageRows(pk, maxRows, k, pkData, g, h) && hk.NumValues() == pk.NumValues()
    ensures f == g && e == h && f < e && f == Min(k * maxRows, hk.NumValues()) && e == Min((k + 1) * maxRows, hk.NumValues())
  {
  }

  lemma Pruned(hk: Column, pk: Column, maxRows: nat, k: nat, sub: Column, zone: (nat, nat), f: nat, e: nat, lo: nat, hi: nat)
    requires PageRows(hk, maxRows, k, sub.data, f, e) && sub.width == KEY_WIDTH && sub.NumValues() == e - f
    requires ZoneOk(sub, Some(zone)) && (zone.1 < lo || zone.0 > hi)
    ensures RangeKeys(hk.data, pk.data, f, e, lo, hi) == []
  {
    hide RangeKeys;
    forall i | f <= i < e
      ensures !(lo <= ValueAt(hk.data, i, KEY_WIDTH) <= hi)
    {
      PageValues(hk, maxRows, k, sub.data, f, e, i - f);
      assert zone.0 <= ValueAt(sub.data, i - f, sub.width) <= zone.1;
    }
    RangeEmpty(hk.data, pk.data, f, e, lo, hi);
  }
}
