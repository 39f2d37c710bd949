// Model of distribute/batch.go: a discovery batch as columns of deltas and one shared string table.
module Batch {
  import opened Wrappers
  import opened Bytes
  import opened Keys
  import opened Buffers
  import opened Sorting
  import opened Encoding
  import opened DeltaEncoding
  import Fsst

  type uint16 = v: int | 0 <= v < 0x1_0000

  // weight is the bit pattern of the float.
  datatype Discovery = Discovery(key: URLKey, url: bytes, depth: uint16, source: byte, srcHost: uint64, weight: uint32,
                                 anchor: byte, observedAt: uint32)

  ghost predicate Small(b: seq<Discovery>) {
    |b| < MAX_INT && forall i :: 0 <= i < |b| ==> 2 * |b[i].url| < TWO_64
  }

  // ---- delta columns ----

  // A plain 64-bit difference, or a zigzag of the signed one.
  function Diff(zig: bool, prev: nat, next: nat): (u: nat)
    ensures u < TWO_64
  {
    if zig then Step(prev, next) else (next - prev) % TWO_64
  }

  function Undo(zig: bool, prev: nat, u: nat): (next: nat)
    ensures next < TWO_64
  {
    if zig then Advance(prev, u) else (prev + u) % TWO_64
  }

  lemma UndoDiff(zig: bool, prev: nat, next: nat)
    requires prev < TWO_64 && next < TWO_64
    ensures Undo(zig, prev, Diff(zig, prev, next)) == next
  {
    if zig {
      AdvanceStep(prev, next);
    } else if next >= prev {
      assert (next - prev) % TWO_64 == next - prev;
    } else {
      assert (next - prev) % TWO_64 == next - prev + TWO_64;
    }
  }

  function Before(vals: seq<nat>, i: nat): nat
    requires i <= |vals|
  {
    if i == 0 then 0 else vals[i - 1]
  }

  lemma BeforeFirst(vals: seq<nat>)
    ensures Before(vals, 0) == 0
  {
  }

  lemma BeforeNext(vals: seq<nat>, i: nat)
    requires i < |vals|
    ensures Before(vals, i + 1) == vals[i]
  {
  }

  // The differences of a column, the first one from zero.
  function Diffs(zig: bool, vals: seq<nat>): (us: seq<nat>)
    ensures |us| == |vals| && forall i :: 0 <= i < |us| ==> us[i] == Diff(zig, Before(vals, i), vals[i])
  {
    seq(|vals|, i requires 0 <= i < |vals| => Diff(zig, Before(vals, i), vals[i]))
  }

  lemma VarintsBegin(rest: bytes, us: seq<nat>, tail: bytes)
    requires rest == VarintBytes(us) + tail
    ensures AtVarint(rest, us, 0, tail)
  {
    assert us[0..] == us;
  }

  // Plain varints.
  method WriteVarints(vals: seq<nat>) returns (out: bytes)
    ensures out == VarintBytes(vals)
  {
    hide Uvarint, VarintBytes;
    out := [];
    NoVarints();
    assert vals[..0] == [];
    for i := 0 to |vals|
      invariant out == VarintBytes(vals[..i])
    {
      VarintSnoc(vals[..i], vals[i]);
      assert vals[..i + 1] == vals[..i] + [vals[i]];
      out := out + Uvarint(vals[i]);
    }
    assert vals[..|vals|] == vals;
  }

  method ReadVarints(r: RBuf, n: nat, ghost vals: seq<nat>, ghost tail: bytes) returns (out: seq<nat>)
    requires r.Valid()
    modifies r
    ensures r.Valid() && (old(r.err) ==> r.err) && |out| == n
    ensures n == |vals| && Words(vals) && old(!r.err && r.Rest() == VarintBytes(vals) + tail) ==>
      !r.err && out == vals && r.Rest() == tail
  {
    hide VarintBytes, AtVarint;
    ghost var ok := n == |vals| && Words(vals) && !r.err && r.Rest() == VarintBytes(vals) + tail;
    if ok {
      VarintsBegin(r.Rest(), vals, tail);
    }
    out := [];
    for i := 0 to n
      invariant r.Valid() && (old(r.err) ==> r.err) && |out| == i
      invariant ok ==> !r.err && AtVarint(r.Rest(), vals, i, tail) && out == vals[..i]
    {
      var u := ReadVarint(r, vals, i, tail);
      out := out + [u];
    }
    if ok {
      VarintsDone(r.Rest(), vals, tail);
    }
  }

  method Differences(zig: bool, vals: seq<nat>) returns (us: seq<nat>)
    ensures us == Diffs(zig, vals)
  {
    hide Diff, Before;
    BeforeFirst(vals);
    us := [];
    var prev: nat := 0;
    for i := 0 to |vals|
      invariant |us| == i && prev == Before(vals, i)
      invariant forall j :: 0 <= j < i ==> us[j] == Diff(zig, Before(vals, j), vals[j])
    {
      BeforeNext(vals, i);
      us := us + [Diff(zig, prev, vals[i])];
      prev := vals[i];
    }
  }

  method Sums(zig: bool, us: seq<nat>, ghost vals: seq<nat>) returns (out: seq<nat>)
    ensures |out| == |us| && Words(out)
    ensures Words(vals) && us == Diffs(zig, vals) ==> out == vals
  {
    hide Diff, Undo, Before;
    BeforeFirst(vals);
    ghost var ok := Words(vals) && us == Diffs(zig, vals);
    out := [];
    var prev: nat := 0;
    for i := 0 to |us|
      invariant |out| == i && Words(out) && prev < TWO_64
      invariant ok ==> out == vals[..i] && prev == Before(vals, i)
    {
      if ok {
        UndoDiff(zig, prev, vals[i]);
        BeforeNext(vals, i);
      }
      prev := Undo(zig, prev, us[i]);
      out := out + [prev];
    }
  }

  method WriteColumn(zig: bool, vals: seq<nat>) returns (out: bytes)
    ensures out == VarintBytes(Diffs(zig, vals))
  {
    var us := Differences(zig, vals);
    out := WriteVarints(us);
  }

  lemma DiffsSmall(zig: bool, vals: seq<nat>)
    ensures Words(Diffs(zig, vals))
  {
    hide Diff;
  }

  method ReadColumn(r: RBuf, n: nat, zig: bool, ghost vals: seq<nat>, ghost tail: bytes) returns (out: seq<nat>)
    requires r.Valid()
    modifies r
    ensures r.Valid() && (old(r.err) ==> r.err) && |out| == n && Words(out)
    ensures n == |vals| && Words(vals) && old(!r.err && r.Rest() == VarintBytes(Diffs(zig, vals)) + tail) ==>
      !r.err && out == vals && r.Rest() == tail
  {
    hide VarintBytes, Diffs, Words;
    DiffsSmall(zig, vals);
    var us := ReadVarints(r, n, Diffs(zig, vals), tail);
    out := Sums(zig, us, vals);
  }

  // ---- the body ----

  function Hosts(b: seq<Discovery>): (s: seq<nat>)
    ensures |s| == |b| && forall i :: 0 <= i < |s| ==> s[i] == b[i].key.host
  {
    seq(|b|, i requires 0 <= i < |b| => b[i].key.host)
  }

  function Paths(b: seq<Discovery>): (s: seq<nat>)
    ensures |s| == |b| && forall i :: 0 <= i < |s| ==> s[i] == b[i].key.path
  {
    seq(|b|, i requires 0 <= i < |b| => b[i].key.path)
  }

  function Depths(b: seq<Discovery>): (s: seq<nat>)
    ensures |s| == |b| && forall i :: 0 <= i < |s| ==> s[i] == b[i].depth
  {
    seq(|b|, i requires 0 <= i < |b| => b[i].depth)
  }

  function Sources(b: seq<Discovery>): (s: bytes)
    ensures |s| == |b| && forall i :: 0 <= i < |s| ==> s[i] == b[i].source
  {
    seq(|b|, i requires 0 <= i < |b| => b[i].source)
  }

  function SrcHosts(b: seq<Discovery>): (s: seq<nat>)
    ensures |s| == |b| && forall i :: 0 <= i < |s| ==> s[i] == b[i].srcHost
  {
    seq(|b|, i requires 0 <= i < |b| => b[i].srcHost)
  }

  function Weights(b: seq<Discovery>): (s: seq<nat>)
    ensures |s| == |b| && forall i :: 0 <= i < |s| ==> s[i] == b[i].weight
  {
    seq(|b|, i requires 0 <= i < |b| => b[i].weight)
  }

  function Anchors(b: seq<Discovery>): (s: bytes)
    ensures |s| == |b| && forall i :: 0 <= i < |s| ==> s[i] == b[i].anchor
  {
    seq(|b|, i requires 0 <= i < |b| => b[i].anchor)
  }

  function Times(b: seq<Discovery>): (s: seq<nat>)
    ensures |s| == |b| && forall i :: 0 <= i < |s| ==> s[i] == b[i].observedAt
  {
    seq(|b|, i requires 0 <= i < |b| => b[i].observedAt)
  }

  function Urls(b: seq<Discovery>): (s: seq<bytes>)
    ensures |s| == |b| && forall i :: 0 <= i < |s| ==> s[i] == b[i].url
  {
    seq(|b|, i requires 0 <= i < |b| => b[i].url)
  }

  function Framed(part: bytes): bytes {
    Uvarint(|part|) + part
  }

  // The tail of the body, column by column.
  function Tail0(offs: seq<nat>, table: bytes, spans: bytes): bytes {
    VarintBytes(Diffs(false, offs)) + (Framed(table) + Framed(spans))
  }

  function Tail1(b: seq<Discovery>, offs: seq<nat>, table: bytes, spans: bytes): bytes {
    ValueBytes(Weights(b), 4) + (Anchors(b) + (VarintBytes(Diffs(true, Times(b))) + Tail0(offs, table, spans)))
  }

  function Tail2(b: seq<Discovery>, offs: seq<nat>, table: bytes, spans: bytes): bytes {
    VarintBytes(Depths(b)) + (Sources(b) + (VarintBytes(Diffs(true, SrcHosts(b))) + Tail1(b, offs, table, spans)))
  }

  function Columns(b: seq<Discovery>, offs: seq<nat>, table: bytes, spans: bytes): bytes {
    VarintBytes(Diffs(false, Hosts(b))) + (VarintBytes(Diffs(true, Paths(b))) + Tail2(b, offs, table, spans))
  }

  function Body(b: seq<Discovery>, offs: seq<nat>, table: bytes, spans: bytes): bytes {
    Uvarint(|b|) + Columns(b, offs, table, spans)
  }

  // ---- encoding ----

  predicate ByKey(x: Discovery, y: Discovery) {
    x.key.Less(y.key)
  }

  lemma ByKeyIsOrder()
    ensures StrictWeak(ByKey)
  {
  }

  // body is b's, for some string table and spans that hold every URL.
  ghost predicate IsBody(body: bytes, b: seq<Discovery>, offs: seq<nat>, syms: seq<bytes>, spans: bytes) {
    && Fsst.IsTable(syms) && (forall i :: 0 <= i < |syms| ==> |syms[i]| < 256)
    && Fsst.AllHeld(syms, spans, offs, Urls(b))
    && body == Body(b, offs, Fsst.EncodedTable(syms), spans)
  }

  method WriteBytes4(vals: seq<nat>) returns (out: bytes)
    ensures out == ValueBytes(vals, 4)
  {
    out := WriteValues(vals, 4);
  }

  // EncodeBatch: the rows sorted by key, in columns. An empty batch is the empty body.
  method EncodeBatch(batch: seq<Discovery>)
    returns (body: bytes, ghost b: seq<Discovery>, ghost offs: seq<nat>, ghost syms: seq<bytes>, ghost spans: bytes)
    requires Small(batch)
    ensures Sorted(b, ByKey) && Permutation(b, batch)
    ensures batch == [] ==> body == []
    ensures batch != [] ==> IsBody(body, b, offs, syms, spans)
  {
    hide Sorted, StrictWeak, VarintBytes, ValueBytes, Uvarint, Fsst.AllHeld, Fsst.IsTable, Fsst.EncodedTable, Diffs;
    ByKeyIsOrder();
    var rows := SortBy(batch, ByKey);
    b, offs, syms, spans := rows, [], [], [];
    if batch == [] {
      return [], b, offs, syms, spans;
    }
    PermutationMembers(rows, batch);
    UrlsSmall(batch, rows);
    var table1, spans1, syms1, offs1;
    syms1, table1, spans1, offs1 := Fsst.BuildArena(Urls(rows));
    syms, spans, offs := syms1, spans1, offs1;
    var hosts := WriteColumn(false, Hosts(rows));
    var paths := WriteColumn(true, Paths(rows));
    var depths := WriteVarints(Depths(rows));
    var src := WriteColumn(true, SrcHosts(rows));
    var weights := WriteBytes4(Weights(rows));
    var times := WriteColumn(true, Times(rows));
    var refs := WriteColumn(false, offs1);
    var tail0 := refs + (Framed(table1) + Framed(spans1));
    var tail1 := weights + (Anchors(rows) + (times + tail0));
    var tail2 := depths + (Sources(rows) + (src + tail1));
    body := Uvarint(|rows|) + (hosts + (paths + tail2));
  }

  lemma UrlsSmall(batch: seq<Discovery>, rows: seq<Discovery>)
    requires Small(batch) && forall d :: d in rows <==> d in batch
    ensures forall i :: 0 <= i < |rows| ==> 2 * |Urls(rows)[i]| < TWO_64
  {
    forall i | 0 <= i < |rows|
      ensures 2 * |rows[i].url| < TWO_64
    {
      assert rows[i] in batch;
    }
  }

  // ---- decoding ----

  method ReadFixed(r: RBuf, n: nat, ghost part: bytes, ghost tail: bytes) returns (s: bytes)
    requires r.Valid()
    modifies r
    ensures r.Valid() && (old(r.err) ==> r.err) && (!r.err ==> |s| == n)
    ensures old(!r.err && r.Rest() == part + tail) && n == |part| ==> !r.err && s == part && r.Rest() == tail
  {
    if !r.err && r.Rest() == part + tail && n == |part| {
      assert r.Rest()[..n] == part && r.Rest()[n..] == tail;
    }
    s := r.Bytes(n);
  }

  // A length, then that many bytes; a length that is negative as an int fails.
  method ReadFramed(r: RBuf, ghost part: bytes, ghost tail: bytes) returns (s: bytes)
    requires r.Valid()
    modifies r
    ensures r.Valid() && (old(r.err) ==> r.err)
    ensures old(!r.err && r.Rest() == Framed(part) + tail) && |part| < MAX_INT ==> !r.err && s == part && r.Rest() == tail
  {
    hide Uvarint, ReadUvarint;
    if !r.err && r.Rest() == Framed(part) + tail && |part| < MAX_INT {
      ReadUvarintInverse(|part|, part + tail);
      assert r.Rest() == Uvarint(|part|) + (part + tail);
    }
    var u := r.Uvarint();
    if ToInt(u) < 0 {
      r.err := true;
      return [];
    }
    s := ReadFixed(r, u, part, tail);
  }

  datatype Columns4 = Columns4(depths: seq<nat>, sources: bytes, srcHosts: seq<nat>, weights: seq<nat>, anchors: bytes, times: seq<nat>)

  ghost predicate Fine(b: seq<Discovery>, offs: seq<nat>, table: bytes, spans: bytes) {
    |b| < MAX_INT && |offs| == |b| && Words(offs) && |table| < MAX_INT && |spans| < MAX_INT
  }

  lemma WordColumns(b: seq<Discovery>)
    ensures Words(Hosts(b)) && Words(Paths(b)) && Words(SrcHosts(b)) && Words(Times(b)) && Words(Depths(b))
  {
  }

  method ReadScalars(r: RBuf, n: nat, ghost b: seq<Discovery>, ghost offs: seq<nat>, ghost table: bytes, ghost spans: bytes)
    returns (c: Columns4)
    requires r.Valid()
    modifies r
    ensures r.Valid() && (old(r.err) ==> r.err)
    ensures Words(c.srcHosts) && Narrow(c.weights)
    ensures !r.err ==> |c.depths| == |c.sources| == |c.srcHosts| == |c.weights| == |c.anchors| == |c.times| == n
    ensures old(!r.err && r.Rest() == Tail2(b, offs, table, spans)) && n == |b| && Fine(b, offs, table, spans) ==>
      !r.err && r.Rest() == Tail0(offs, table, spans)
      && c == Columns4(Depths(b), Sources(b), SrcHosts(b), Weights(b), Anchors(b), Times(b))
  {
    hide VarintBytes, Tail0, Tail1, Diffs, Fine, Words, Narrow, Depths, Sources, SrcHosts;
    ghost var ok := !r.err && r.Rest() == Tail2(b, offs, table, spans) && n == |b| && Fine(b, offs, table, spans);
    WordColumns(b);
    ghost var t1 := Tail1(b, offs, table, spans);
    var depths := ReadVarints(r, n, Depths(b), Sources(b) + (VarintBytes(Diffs(true, SrcHosts(b))) + t1));
    var sources := ReadFixed(r, n, Sources(b), VarintBytes(Diffs(true, SrcHosts(b))) + t1);
    var srcHosts := ReadColumn(r, n, true, SrcHosts(b), t1);
    var weights, anchors, times := ReadMore(r, n, b, offs, table, spans);
    c := Columns4(depths, sources, srcHosts, weights, anchors, times);
  }

  method ReadMore(r: RBuf, n: nat, ghost b: seq<Discovery>, ghost offs: seq<nat>, ghost table: bytes, ghost spans: bytes)
    returns (weights: seq<nat>, anchors: bytes, times: seq<nat>)
    requires r.Valid()
    modifies r
    ensures r.Valid() && (old(r.err) ==> r.err) && |times| == n && (!r.err ==> |weights| == |anchors| == n) && Narrow(weights)
    ensures old(!r.err && r.Rest() == Tail1(b, offs, table, spans)) && n == |b| ==>
      !r.err && r.Rest() == Tail0(offs, table, spans) && weights == Weights(b) && anchors == Anchors(b) && times == Times(b)
  {
    hide VarintBytes, ValueBytes, Tail0, Diffs, Words, Weights, Anchors, Times;
    WordColumns(b);
    WeightBytes(b);
    ghost var t0 := Tail0(offs, table, spans);
    var ws := ReadFixed(r, 4 * n, ValueBytes(Weights(b), 4), Anchors(b) + (VarintBytes(Diffs(true, Times(b))) + t0));
    weights := ReadValues(ws, 4);
    WeightsBack(ws, b, weights);
    NarrowValues(weights);
    anchors := ReadFixed(r, n, Anchors(b), VarintBytes(Diffs(true, Times(b))) + t0);
    times := ReadColumn(r, n, true, Times(b), t0);
  }

  ghost predicate Narrow(vals: seq<nat>) {
    forall i :: 0 <= i < |vals| ==> vals[i] < TWO_32
  }

  lemma NarrowValues(vals: seq<nat>)
    requires InWidth(vals, 4)
    ensures Narrow(vals)
  {
    Pow256Words();
  }

  lemma WeightBytes(b: seq<Discovery>)
    ensures |ValueBytes(Weights(b), 4)| == 4 * |b|
  {
    ValueBytesLength(Weights(b), 4);
  }

  lemma WeightsBack(ws: bytes, b: seq<Discovery>, weights: seq<nat>)
    requires |weights| == |ws| / 4 && InWidth(weights, 4) && ValueBytes(weights, 4) == ws[..(|ws| / 4) * 4]
    ensures ws == ValueBytes(Weights(b), 4) ==> weights == Weights(b)
  {
    Pow256Words();
    RawBack(ws, Weights(b), weights, 4);
  }

  // One row of the decoded batch.
  function Row(host: nat, path: nat, url: bytes, depth: nat, source: byte, srcHost: nat, weight: nat, anchor: byte, time: nat): Discovery
    requires host < TWO_64 && path < TWO_64 && srcHost < TWO_64 && weight < TWO_32
  {
    Discovery(URLKey(host, path), url, depth % TWO_16, source, srcHost, weight, anchor, time % TWO_32)
  }

  // DecodeBatch: the rows in the order the body holds them. A malformed body fails whole.
  method DecodeBatch(body: bytes, ghost b: seq<Discovery>, ghost offs: seq<nat>, ghost syms: seq<bytes>, ghost spans: bytes)
    returns (out: Option<seq<Discovery>>)
    ensures body == [] ==> out == Some([])
    ensures body != [] && IsBody(body, b, offs, syms, spans) && |body| < MAX_INT ==> out == Some(b)
  {
    hide IsBody, Fine, Columns, Tail2, Tail0, Words, Narrow, Fsst.AllHeld, Fsst.IsTable, Fsst.EncodedTable, ReadUvarint, Uvarint;
    if body == [] {
      return Some([]);
    }
    ghost var ok := IsBody(body, b, offs, syms, spans) && |body| < MAX_INT;
    if ok {
      BodyFront(body, b, offs, syms, spans);
      BodyMeans(body, b, offs, syms, spans);
    }
    ghost var table := if ok then Fsst.EncodedTable(syms) else [];
    var r := new RBuf(body);
    var u := r.Uvarint();
    var n := ToInt(u);
    if r.err || n < 0 || n > |body| {
      return None;
    }
    var hosts, paths := ReadKeys(r, n, b, offs, table, spans);
    var c := ReadScalars(r, n, b, offs, table, spans);
    if r.err {
      return None;
    }
    var refs, t, s := ReadStrings(r, n, offs, table, spans);
    if r.err {
      return None;
    }
    var rows := BuildRows(n, hosts, paths, c, refs, t, s, b, offs, syms, spans, ok);
    return Some(rows);
  }

  // A body whose length fits Go's int holds parts whose lengths do.
  lemma BodyFine(body: bytes, b: seq<Discovery>, offs: seq<nat>, syms: seq<bytes>, spans: bytes)
    requires IsBody(body, b, offs, syms, spans) && |body| < MAX_INT
    ensures Fine(b, offs, Fsst.EncodedTable(syms), spans) && |b| <= |body|
  {
    hide Uvarint, VarintBytes, ValueBytes, Fsst.EncodedTable, Fsst.IsTable, Fsst.SpanHolds, Diffs;
    assert |Sources(b)| == |b|;
    assert |spans| <= |Framed(spans)| && |Fsst.EncodedTable(syms)| <= |Framed(Fsst.EncodedTable(syms))|;
  }

  lemma BodyFront(body: bytes, b: seq<Discovery>, offs: seq<nat>, syms: seq<bytes>, spans: bytes)
    requires IsBody(body, b, offs, syms, spans) && |body| < MAX_INT
    ensures var cols := Columns(b, offs, Fsst.EncodedTable(syms), spans);
            && ReadUvarint(body) == Some((|b|, |Uvarint(|b|)|)) && body[|Uvarint(|b|)|..] == cols
            && |b| <= |body| && |b| < MAX_INT
    ensures Words(offs) && |offs| == |b| && |Fsst.EncodedTable(syms)| < MAX_INT && |spans| < MAX_INT
    ensures Fine(b, offs, Fsst.EncodedTable(syms), spans)
  {
    BodyFine(body, b, offs, syms, spans);
    hide Uvarint, ReadUvarint, Columns, Fsst.AllHeld, Fsst.EncodedTable, Words;
    ReadUvarintInverse(|b|, Columns(b, offs, Fsst.EncodedTable(syms), spans));
  }

  lemma BodyMeans(body: bytes, b: seq<Discovery>, offs: seq<nat>, syms: seq<bytes>, spans: bytes)
    requires IsBody(body, b, offs, syms, spans)
    ensures Fsst.IsTable(syms) && (forall i :: 0 <= i < |syms| ==> |syms[i]| < 256)
    ensures Fsst.AllHeld(syms, spans, offs, Urls(b))
  {
  }

  method ReadKeys(r: RBuf, n: nat, ghost b: seq<Discovery>, ghost offs: seq<nat>, ghost table: bytes, ghost spans: bytes)
    returns (hosts: seq<nat>, paths: seq<nat>)
    requires r.Valid()
    modifies r
    ensures r.Valid() && (old(r.err) ==> r.err) && |hosts| == |paths| == n && Words(hosts) && Words(paths)
    ensures old(!r.err && r.Rest() == Columns(b, offs, table, spans)) && n == |b| ==>
      !r.err && r.Rest() == Tail2(b, offs, table, spans) && hosts == Hosts(b) && paths == Paths(b)
  {
    hide VarintBytes, Tail2, Diffs, Words;
    WordColumns(b);
    hosts := ReadColumn(r, n, false, Hosts(b), VarintBytes(Diffs(true, Paths(b))) + Tail2(b, offs, table, spans));
    paths := ReadColumn(r, n, true, Paths(b), Tail2(b, offs, table, spans));
  }

  method ReadStrings(r: RBuf, n: nat, ghost offs: seq<nat>, ghost table: bytes, ghost spans: bytes)
    returns (refs: seq<nat>, t: bytes, s: bytes)
    requires r.Valid()
    modifies r
    ensures r.Valid() && (old(r.err) ==> r.err) && |refs| == n
    ensures old(!r.err && r.Rest() == Tail0(offs, table, spans)) && n == |offs| && Words(offs) && |table| < MAX_INT && |spans| < MAX_INT ==>
      !r.err && refs == offs && t == table && s == spans
  {
    hide VarintBytes, Diffs, Words, Framed;
    refs := ReadColumn(r, n, false, offs, Framed(table) + Framed(spans));
    t := ReadFramed(r, table, Framed(spans));
    if !r.err && r.Rest() == Framed(spans) {
      assert Framed(spans) + [] == Framed(spans);
    }
    s := ReadFramed(r, spans, []);
  }

  // The arena is loaded and each row's URL read out of it.
  method BuildRows(n: nat, hosts: seq<nat>, paths: seq<nat>, c: Columns4, refs: seq<nat>, t: bytes, s: bytes,
                   ghost b: seq<Discovery>, ghost offs: seq<nat>, ghost syms: seq<bytes>, ghost spans: bytes, ghost ok: bool)
    returns (rows: seq<Discovery>)
    requires |hosts| == |paths| == |refs| == n && Words(hosts) && Words(paths) && Words(c.srcHosts) && Narrow(c.weights)
    requires |c.depths| == |c.sources| == |c.srcHosts| == |c.weights| == |c.anchors| == |c.times| == n
    requires ok ==> DecodedOk(n, hosts, paths, c, refs, t, s, b, offs, syms, spans)
    ensures ok ==> rows == b
  {
    hide Fsst.IsTable, Fsst.AllHeld, Fsst.EncodedTable, Fsst.Expand;
    var table := Fsst.DecodeTable(t, syms);
    rows := [];
    for i := 0 to n
      invariant ok ==> rows == b[..i]
    {
      var url := Fsst.Read(table, s, refs[i]);
      if ok {
        UrlBack(b, offs, syms, spans, i);
      }
      rows := rows + [Row(hosts[i], paths[i], url, c.depths[i], c.sources[i], c.srcHosts[i], c.weights[i], c.anchors[i], c.times[i])];
    }
  }

  ghost predicate DecodedOk(n: nat, hosts: seq<nat>, paths: seq<nat>, c: Columns4, refs: seq<nat>, t: bytes, s: bytes,
                            b: seq<Discovery>, offs: seq<nat>, syms: seq<bytes>, spans: bytes) {
    && n == |b| && hosts == Hosts(b) && paths == Paths(b) && refs == offs && s == spans
    && c == Columns4(Depths(b), Sources(b), SrcHosts(b), Weights(b), Anchors(b), Times(b))
    && Fsst.IsTable(syms) && (forall i :: 0 <= i < |syms| ==> |syms[i]| < 256) && t == Fsst.EncodedTable(syms)
    && Fsst.AllHeld(syms, spans, offs, Urls(b))
  }

  lemma UrlBack(b: seq<Discovery>, offs: seq<nat>, syms: seq<bytes>, spans: bytes, i: nat)
    requires i < |b| && Fsst.AllHeld(syms, spans, offs, Urls(b))
    ensures |offs| == |b| && Fsst.SpanHolds(syms, spans, offs[i], b[i].url)
  {
    hide Fsst.SpanHolds;
  }

  // A batch sent and received is the batch in key order.
  method RoundTrip(batch: seq<Discovery>) returns (body: bytes, out: Option<seq<Discovery>>)
    requires Small(batch)
    ensures |body| < MAX_INT ==> out.Some? && Permutation(out.value, batch) && Sorted(out.value, ByKey)
  {
    hide IsBody, Sorted;
    ghost var b, offs, syms, spans;
    body, b, offs, syms, spans := EncodeBatch(batch);
    out := DecodeBatch(body, b, offs, syms, spans);
    if body == [] {
      NonEmptyBody(body, b, offs, syms, spans, batch);
    }
  }

  lemma NonEmptyBody(body: bytes, b: seq<Discovery>, offs: seq<nat>, syms: seq<bytes>, spans: bytes, batch: seq<Discovery>)
    requires batch != [] ==> IsBody(body, b, offs, syms, spans)
    requires Permutation(b, batch) && body == []
    ensures batch == [] && b == []
  {
    PermutationMembers(b, batch);
  }
}
