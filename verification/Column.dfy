// Model of format/column.go: columns cut into pages, each page under whichever of its nominal
// encoding and RAW is smaller, with a directory that locates and summarises them.
module Column {
  import opened Wrappers
  import opened Bytes
  import opened BitOps
  import opened BitStream
  import opened Encoding
  import opened DeltaEncoding
  import opened Pages

  datatype Kind = KindUint | KindFloat | KindRaw

  datatype Column = Column(id: int, width: byte, kind: Kind, enc: byte, codec: byte, data: bytes)
  {
    predicate Encodable() {
      kind != KindRaw && Wide(width)
    }

    function NumValues(): nat {
      if width == 0 then 0 else |data| / width
    }

    // Column-major bytes: whole values and nothing else.
    predicate Whole() {
      width > 0 && |data| % width == 0
    }
  }

  datatype PageEntry = PageEntry(firstRow: nat, numValues: nat, byteLen: nat, encoding: byte, zone: Option<(nat, nat)>)

  datatype ColumnDir = ColumnDir(columnID: int, firstPageOffset: nat, totalCompressed: nat, totalUncompressed: nat,
                                 numValues: nat, numPages: nat, width: byte, encoding: byte, codec: byte,
                                 crc: nat, zone: Option<(nat, nat)>, pages: seq<PageEntry>)

  // ---- concatenation ----

  function Flat(parts: seq<bytes>): bytes {
    if parts == [] then [] else parts[0] + Flat(parts[1..])
  }

  lemma {:induction false} FlatConcat(a: seq<bytes>, b: seq<bytes>)
    ensures Flat(a + b) == Flat(a) + Flat(b)
  {
    if a == [] {
      assert a + b == b;
    } else {
      var rest := Flat(a[1..]);
      FlatConcat(a[1..], b);
      assert (a + b)[1..] == a[1..] + b;
      assert Flat(a + b) == a[0] + Flat((a + b)[1..]);
      hide Flat;
      assert a[0] + (rest + Flat(b)) == a[0] + rest + Flat(b);
    }
  }

  lemma FlatSnoc(a: seq<bytes>, p: bytes)
    ensures Flat(a + [p]) == Flat(a) + p
  {
    FlatConcat(a, [p]);
    assert Flat([p]) == p + Flat([p][1..]);
  }

  lemma FlatAt(parts: seq<bytes>, k: nat)
    requires k < |parts|
    ensures Flat(parts) == Flat(parts[..k]) + parts[k] + Flat(parts[k + 1..])
    ensures Flat(parts[k..]) == parts[k] + Flat(parts[k + 1..])
  {
    var a, b := parts[..k], parts[k..];
    FlatConcat(a, b);
    assert parts == a + b && b[1..] == parts[k + 1..];
    assert Flat(b) == b[0] + Flat(b[1..]);
    hide Flat;
    assert Flat(a) + (parts[k] + Flat(parts[k + 1..])) == Flat(a) + parts[k] + Flat(parts[k + 1..]);
  }

  // ---- zone maps ----

  // readUintWidth; every row of a whole column is inside its data.
  function ValueAt(data: bytes, i: nat, width: nat): nat {
    if Wide(width) && i * width + width <= |data| then FromLittleEndian(data[i * width..i * width + width]) else 0
  }

  // The zone is the exact range of the column's values.
  ghost predicate ZoneOk(c: Column, zone: Option<(nat, nat)>) {
    && (zone.Some? <==> c.kind == KindUint && c.NumValues() > 0)
    && (zone.Some? ==>
          && (forall i :: 0 <= i < c.NumValues() ==> zone.value.0 <= ValueAt(c.data, i, c.width) <= zone.value.1)
          && (exists i :: 0 <= i < c.NumValues() && ValueAt(c.data, i, c.width) == zone.value.0)
          && (exists i :: 0 <= i < c.NumValues() && ValueAt(c.data, i, c.width) == zone.value.1))
  }

  method ZoneMap(c: Column) returns (zone: Option<(nat, nat)>)
    ensures ZoneOk(c, zone)
  {
    hide ValueAt;
    if c.kind != KindUint || c.NumValues() == 0 {
      return None;
    }
    var lo, hi := ValueAt(c.data, 0, c.width), ValueAt(c.data, 0, c.width);
    ghost var at, bt := 0, 0;
    for i := 1 to c.NumValues()
      invariant 0 <= at < i && ValueAt(c.data, at, c.width) == lo
      invariant 0 <= bt < i && ValueAt(c.data, bt, c.width) == hi
      invariant forall j :: 0 <= j < i ==> lo <= ValueAt(c.data, j, c.width) <= hi
    {
      var v := ValueAt(c.data, i, c.width);
      if v < lo {
        lo, at := v, i;
      }
      if v > hi {
        hi, bt := v, i;
      }
    }
    return Some((lo, hi));
  }

  // ---- splitting ----

  function Min(a: nat, b: nat): nat {
    if a < b then a else b
  }

  // Rows [k * maxRows, (k + 1) * maxRows) of the column, or what there is of them.
  ghost predicate IsChunk(c: Column, maxRows: nat, k: nat, data: bytes) {
    var n, w := c.NumValues(), c.width;
    && k * maxRows < n && Min((k + 1) * maxRows, n) * w <= |c.data|
    && k * maxRows * w <= Min((k + 1) * maxRows, n) * w
    && data == c.data[k * maxRows * w..Min((k + 1) * maxRows, n) * w]
  }

  // splitColumn: one page when no cap is set or the column fits it, else pages of maxRows rows.
  ghost predicate IsSplit(c: Column, maxRows: int, subs: seq<Column>) {
    && (forall k :: 0 <= k < |subs| ==> subs[k] == c.(data := subs[k].data) && subs[k].Whole() && subs[k].NumValues() <= c.NumValues())
    && (if maxRows <= 0 || c.NumValues() <= maxRows then subs == [c]
        else
          && |subs| > 1 && (|subs| - 1) * maxRows < c.NumValues() <= |subs| * maxRows
          && forall k :: 0 <= k < |subs| ==> IsChunk(c, maxRows, k, subs[k].data))
    && Flat(Datas(subs)) == c.data
  }

  function Datas(subs: seq<Column>): (ds: seq<bytes>)
    ensures |ds| == |subs| && forall k :: 0 <= k < |ds| ==> ds[k] == subs[k].data
  {
    seq(|subs|, k requires 0 <= k < |subs| => subs[k].data)
  }

  lemma DatasSnoc(subs: seq<Column>, s: Column)
    ensures Datas(subs + [s]) == Datas(subs) + [s.data]
  {
  }

  lemma OneDatas(c: Column)
    ensures Flat(Datas([c])) == c.data
  {
    assert Datas([c]) == [] + [c.data];
    FlatSnoc([], c.data);
  }

  method SplitColumn(c: Column, maxRows: int) returns (subs: seq<Column>)
    requires c.Whole()
    ensures IsSplit(c, maxRows, subs)
  {
    hide Flat, IsChunk;
    var n := c.NumValues();
    OneDatas(c);
    if maxRows <= 0 || n <= maxRows {
      return [c];
    }
    subs := [];
    NoDatas();
    var start := 0;
    WholeValues(|c.data|, c.width);
    assert c.data[..0] == [];
    while start < n
      invariant start == |subs| * maxRows && (|subs| == 0 || (|subs| - 1) * maxRows < n)
      invariant forall k :: 0 <= k < |subs| ==> subs[k] == c.(data := subs[k].data) && subs[k].Whole() && subs[k].NumValues() <= n
      invariant forall k :: 0 <= k < |subs| ==> IsChunk(c, maxRows, k, subs[k].data)
      invariant Min(start, n) * c.width <= |c.data| && Flat(Datas(subs)) == c.data[..Min(start, n) * c.width]
      decreases n - start
    {
      var end := Min(start + maxRows, n);
      var s := c.(data := CutRows(c, start, end));
      NextChunk(c, maxRows, |subs|, start, end, s);
      DatasSnoc(subs, s);
      FlatSnoc(Datas(subs), s.data);
      CutJoin(c, start, end);
      subs := subs + [s];
      start := start + maxRows;
    }
    assert c.data[..|c.data|] == c.data;
    assert n * c.width == |c.data|;
    SplitCount(|subs|, maxRows, n);
  }

  lemma SplitCount(m: nat, maxRows: nat, n: nat)
    requires maxRows < n <= m * maxRows
    ensures m > 1
  {
  }

  lemma NoDatas()
    ensures Flat(Datas([])) == []
  {
    assert Datas([]) == [];
  }

  function CutRows(c: Column, start: nat, end: nat): bytes
    requires c.width > 0 && start <= end <= c.NumValues()
  {
    CutFits(c, start, end);
    c.data[start * c.width..end * c.width]
  }

  lemma CutFits(c: Column, start: nat, end: nat)
    requires c.width > 0 && start <= end <= c.NumValues()
    ensures start * c.width <= end * c.width <= |c.data|
  {
    WholeValues(|c.data|, c.width);
    RowFits(start, end, c.width);
    RowFits(end, c.NumValues(), c.width);
  }

  lemma CutJoin(c: Column, start: nat, end: nat)
    requires c.width > 0 && start <= end <= c.NumValues()
    ensures start * c.width <= end * c.width <= |c.data|
    ensures c.data[..start * c.width] + CutRows(c, start, end) == c.data[..end * c.width]
  {
    CutFits(c, start, end);
  }

  lemma NextChunk(c: Column, maxRows: nat, k: nat, start: nat, end: nat, s: Column)
    requires c.Whole() && maxRows > 0 && start == k * maxRows < c.NumValues()
    requires end == Min(start + maxRows, c.NumValues()) && s == c.(data := CutRows(c, start, end))
    ensures IsChunk(c, maxRows, k, s.data) && s.Whole() && s.NumValues() == end - start
  {
    CutFits(c, start, end);
    MulStep(k, maxRows);
    CutLength(start, end, c.width);
    DivExact(end - start, c.width);
    ModExact(end - start, c.width);
  }

  lemma CutLength(a: nat, b: nat, w: nat)
    requires a <= b
    ensures b * w - a * w == (b - a) * w
  {
  }

  lemma ModExact(n: nat, w: nat)
    requires w > 0
    ensures (n * w) % w == 0
  {
    DivUnique(n * w, w, n, 0);
  }

  // ---- pages ----

  // What one page says: its encoding, and the values it stands for when that is not RAW.
  datatype Plan = Plan(enc: byte, base: nat, payload: bytes, vals: seq<nat>, sub: Column, firstRow: nat)

  ghost predicate PlanOk(z: Foreign, p: Plan) {
    && p.sub.Whole() && p.sub.NumValues() < TWO_32 && p.firstRow < TWO_32 && p.base < TWO_64
    && |z.Compress(p.sub.codec, p.payload).1| < TWO_32
    && if p.enc == ENC_RAW then p.payload == p.sub.data
       else
         && Wide(p.sub.width) && InWidth(p.vals, p.sub.width) && |p.vals| == p.sub.NumValues()
         && ValueBytes(p.vals, p.sub.width) == p.sub.data
         && Encodes(p.enc, p.payload, p.base, p.vals, p.sub.width)
  }

  ghost function PageBytes(z: Foreign, p: Plan): bytes {
    Page(z, PAGE_DATA, p.enc, p.sub.codec, p.sub.NumValues(), p.firstRow, p.base, p.payload)
  }

  // buildColumnPage: the RAW page, or the encoded one when it is smaller.
  method BuildColumnPage(z: Foreign, c: Column, firstRow: nat) returns (page: bytes, enc: byte, ghost p: Plan)
    requires c.Whole() && c.NumValues() < TWO_32 && firstRow < TWO_32 && |z.Compress(c.codec, c.data).1| < TWO_32
    ensures PlanOk(z, p) && p.sub == c && p.firstRow == firstRow && p.enc == enc && page == PageBytes(z, p)
    ensures enc == ENC_RAW || enc == c.enc
    ensures |page| <= PAGE_HEADER + |z.Compress(c.codec, c.data).1|
  {
    hide Encodes, ValueBytes, HeaderBytes, HeaderFor;
    var n := c.NumValues();
    var raw := Page(z, PAGE_DATA, ENC_RAW, c.codec, n, firstRow, 0, c.data);
    if c.enc == ENC_RAW || !c.Encodable() {
      return raw, ENC_RAW, Plan(ENC_RAW, 0, c.data, [], c, firstRow);
    }
    var vals := ReadValues(c.data, c.width);
    WholeValues(|c.data|, c.width);
    assert c.data[..|c.data|] == c.data;
    var payload, base := EncodeValues(c.enc, vals, c.width);
    var encoded := Page(z, PAGE_DATA, c.enc, c.codec, n, firstRow, base, payload);
    if |encoded| < |raw| {
      return encoded, c.enc, Plan(c.enc, base, payload, vals, c, firstRow);
    }
    return raw, ENC_RAW, Plan(ENC_RAW, 0, c.data, [], c, firstRow);
  }

  ghost predicate StandsFor(h: PageHeader, payload: bytes, width: nat, vals: seq<nat>) {
    && Wide(width) && InWidth(vals, width) && |vals| == h.numValues
    && Encodes(h.encoding, payload, h.pageBase, vals, width)
  }

  // decodePagePayload
  method DecodePagePayload(h: PageHeader, payload: bytes, width: nat, ghost vals: seq<nat>) returns (data: Option<bytes>)
    ensures h.encoding == ENC_RAW ==> data == Some(payload)
    ensures h.encoding != ENC_RAW && StandsFor(h, payload, width, vals) ==> data == Some(ValueBytes(vals, width))
  {
    hide Encodes, ValueBytes;
    if h.encoding == ENC_RAW {
      return Some(payload);
    }
    if !Wide(width) {
      return None;
    }
    var got := DecodeValues(h.encoding, payload, h.numValues, width, h.pageBase, vals);
    if got.None? {
      return None;
    }
    var data1 := WriteValues(got.value, width);
    return Some(data1);
  }

  // A page as it was planned, at the front of any bytes, decodes to its rows.
  method ReadPlanned(z: Foreign, b: bytes, width: nat, ghost p: Plan, ghost more: bytes) returns (r: Option<(bytes, nat)>)
    ensures r.Some? ==> PAGE_HEADER <= r.value.1 <= |b|
    ensures z.Lossless() && PlanOk(z, p) && width == p.sub.width && b == PageBytes(z, p) + more ==>
      r == Some((p.sub.data, |PageBytes(z, p)|))
  {
    hide Encodes, ValueBytes, ReadPage, Page;
    if z.Lossless() && PlanOk(z, p) {
      PageBack(z, PAGE_DATA, p.enc, p.sub.codec, p.sub.NumValues(), p.firstRow, p.base, p.payload, more);
    }
    var page := ReadPage(z, b);
    if page.None? {
      return None;
    }
    var data := DecodePagePayload(page.value.0, page.value.1, width, p.vals);
    if data.None? {
      return None;
    }
    return Some((data.value, page.value.2));
  }

  // ---- columns ----

  ghost function PagesOf(z: Foreign, plans: seq<Plan>): (ps: seq<bytes>)
    ensures |ps| == |plans| && forall k :: 0 <= k < |ps| ==> ps[k] == PageBytes(z, plans[k])
  {
    seq(|plans|, k requires 0 <= k < |plans| => PageBytes(z, plans[k]))
  }

  function SubsOf(plans: seq<Plan>): (subs: seq<Column>)
    ensures |subs| == |plans| && forall k :: 0 <= k < |subs| ==> subs[k] == plans[k].sub
  {
    seq(|plans|, k requires 0 <= k < |plans| => plans[k].sub)
  }

  ghost predicate PlansOk(z: Foreign, plans: seq<Plan>) {
    forall k :: 0 <= k < |plans| ==> PlanOk(z, plans[k])
  }

  // The entry of page k: where its rows start and how many they are, its length and its zone.
  ghost predicate EntryOk(z: Foreign, e: PageEntry, p: Plan) {
    && e.firstRow == p.firstRow && e.numValues == p.sub.NumValues() && e.encoding == p.enc
    && e.byteLen == |PageBytes(z, p)| && ZoneOk(p.sub, e.zone)
  }

  ghost predicate EntriesOk(z: Foreign, pages: seq<PageEntry>, plans: seq<Plan>) {
    |pages| == |plans| && forall k :: 0 <= k < |pages| ==> EntryOk(z, pages[k], plans[k])
  }

  // Page k starts at the row where page k - 1 ends.
  ghost predicate RowsRun(plans: seq<Plan>) {
    && (plans != [] ==> plans[0].firstRow == 0)
    && (forall k :: 0 < k < |plans| ==> plans[k].firstRow == plans[k - 1].firstRow + plans[k - 1].sub.NumValues())
  }

  // Where the next page starts.
  function RowAfter(plans: seq<Plan>): nat {
    if plans == [] then 0 else plans[|plans| - 1].firstRow + plans[|plans| - 1].sub.NumValues()
  }

  lemma NoneRun()
    ensures RowsRun([])
  {
  }

  lemma RunNext(plans: seq<Plan>, p: Plan)
    requires RowsRun(plans) && p.firstRow == RowAfter(plans)
    ensures RowsRun(plans + [p]) && RowAfter(plans + [p]) == p.firstRow + p.sub.NumValues()
  {
  }

  // Directory entry d says where column c lies in the file, and what its pages hold.
  ghost predicate ColumnOk(z: Foreign, file: bytes, d: ColumnDir, c: Column, maxRows: int, plans: seq<Plan>) {
    var span := Flat(PagesOf(z, plans));
    && PlansOk(z, plans) && RowsRun(plans) && IsSplit(c, maxRows, SubsOf(plans))
    && d.columnID == c.id && d.width == c.width && d.codec == c.codec
    && d.numValues == c.NumValues() && d.numPages == |plans| && d.totalUncompressed == |c.data|
    && d.totalCompressed + PAGE_HEADER * |plans| == |span|
    && plans != [] && d.encoding == plans[0].enc
    && d.firstPageOffset + |span| <= |file| && file[d.firstPageOffset..d.firstPageOffset + |span|] == span
    && d.crc == z.crc(span) && ZoneOk(c, d.zone)
    && (if |plans| > 1 then EntriesOk(z, d.pages, plans) else d.pages == [])
  }

  // Every page's RAW form fits the page header's 32-bit size.
  ghost predicate Fitting(z: Foreign, c: Column) {
    && c.Whole() && c.NumValues() < TWO_32
    && forall b: bytes :: |b| <= |c.data| ==> |z.Compress(c.codec, b).1| < TWO_32
  }

  // One column of encodeColumnRegion, to be placed at firstPageOffset.
  method EncodeColumn(z: Foreign, c: Column, firstPageOffset: nat, maxRows: int)
    returns (span: bytes, d: ColumnDir, ghost plans: seq<Plan>)
    requires Fitting(z, c)
    ensures d.firstPageOffset == firstPageOffset && span == Flat(PagesOf(z, plans))
    ensures PlacedColumn(z, span, firstPageOffset, d, c, maxRows, plans)
  {
    hide PlanOk, Flat, IsSplit, ZoneOk, PageBytes;
    var subs := SplitColumn(c, maxRows);
    var pages, comp, firstEnc;
    span, pages, comp, firstEnc, plans := EncodePages(z, c, maxRows, subs);
    var zone := ZoneMap(c);
    d := ColumnDir(c.id, firstPageOffset, comp, |c.data|, c.NumValues(), |subs|, c.width, firstEnc, c.codec, z.crc(span), zone,
                   if |subs| > 1 then pages else []);
    assert SubsOf(plans) == subs;
  }

  lemma SubFits(z: Foreign, c: Column, maxRows: int, subs: seq<Column>, k: nat)
    requires Fitting(z, c) && IsSplit(c, maxRows, subs) && k < |subs|
    ensures subs[k].Whole() && subs[k].NumValues() < TWO_32 && |z.Compress(subs[k].codec, subs[k].data).1| < TWO_32
  {
    hide IsChunk;
    var s := subs[k];
    FlatAt(Datas(subs), k);
    assert |s.data| <= |c.data|;
  }

  // The rows before page i are rows of the column.
  lemma RowStep(z: Foreign, c: Column, maxRows: int, subs: seq<Column>, i: nat, firstRow: nat)
    requires Fitting(z, c) && IsSplit(c, maxRows, subs) && i < |subs| && firstRow * c.width == |Flat(Datas(subs[..i]))|
    ensures firstRow < TWO_32
    ensures (firstRow + subs[i].NumValues()) * c.width == |Flat(Datas(subs[..i + 1]))|
  {
    hide IsChunk, Flat;
    var s := subs[i];
    assert Datas(subs)[..i] == Datas(subs[..i]);
    FlatAt(Datas(subs), i);
    assert |Flat(Datas(subs[..i]))| <= |c.data|;
    WholeValues(|c.data|, c.width);
    Narrower(firstRow, c.NumValues(), c.width);
    WholeValues(|s.data|, s.width);
    Distribute(firstRow, s.NumValues(), c.width);
    assert subs[..i + 1] == subs[..i] + [s];
    DatasSnoc(subs[..i], s);
    FlatSnoc(Datas(subs[..i]), s.data);
  }

  lemma Narrower(a: nat, b: nat, w: nat)
    requires w > 0 && a * w <= b * w
    ensures a <= b
  {
    if a > b {
      RowFits(b + 1, a, w);
      MulStep(b, w);
    }
  }

  lemma Distribute(a: nat, b: nat, w: nat)
    ensures (a + b) * w == a * w + b * w
  {
  }

  lemma NoPages(z: Foreign)
    ensures Flat(PagesOf(z, [])) == []
  {
    assert PagesOf(z, []) == [];
  }

  lemma PagesSnoc(z: Foreign, plans: seq<Plan>, p: Plan)
    ensures Flat(PagesOf(z, plans + [p])) == Flat(PagesOf(z, plans)) + PageBytes(z, p)
  {
    hide Flat, PageBytes;
    assert PagesOf(z, plans + [p]) == PagesOf(z, plans) + [PageBytes(z, p)];
    FlatSnoc(PagesOf(z, plans), PageBytes(z, p));
  }

  lemma SplitSome(c: Column, maxRows: int, subs: seq<Column>)
    requires IsSplit(c, maxRows, subs)
    ensures subs != []
  {
    hide IsChunk, Flat;
  }

  // One page, with its skip-list entry.
  method EncodePage(z: Foreign, c: Column, firstRow: nat) returns (page: bytes, e: PageEntry, ghost p: Plan)
    requires c.Whole() && c.NumValues() < TWO_32 && firstRow < TWO_32 && |z.Compress(c.codec, c.data).1| < TWO_32
    ensures PlanOk(z, p) && p.sub == c && p.firstRow == firstRow && p.enc == e.encoding
    ensures page == PageBytes(z, p) && |page| >= PAGE_HEADER && EntryOk(z, e, p)
  {
    hide PlanOk, ZoneOk;
    var enc;
    page, enc, p := BuildColumnPage(z, c, firstRow);
    var zone := ZoneMap(c);
    e := PageEntry(firstRow, c.NumValues(), |page|, enc, zone);
  }

  method EncodePages(z: Foreign, c: Column, maxRows: int, subs: seq<Column>)
    returns (span: bytes, pages: seq<PageEntry>, comp: nat, firstEnc: byte, ghost plans: seq<Plan>)
    requires Fitting(z, c) && IsSplit(c, maxRows, subs)
    ensures span == Flat(PagesOf(z, plans)) && SubsOf(plans) == subs && plans != [] && plans[0].enc == firstEnc
    ensures PlansOk(z, plans) && RowsRun(plans) && EntriesOk(z, pages, plans) && comp + PAGE_HEADER * |plans| == |span|
  {
    hide PlanOk, Flat, IsSplit, EntryOk, PageBytes, Fitting, RowsRun, PagesOf, Datas;
    span, pages, comp, firstEnc, plans := [], [], 0, 0, [];
    NoPages(z);
    SplitSome(c, maxRows, subs);
    var firstRow: nat := 0;
    NoneRun();
    assert subs[..0] == [];
    NoDatas();
    for i := 0 to |subs|
      invariant |plans| == i && firstRow * c.width == |Flat(Datas(subs[..i]))|
      invariant span == Flat(PagesOf(z, plans)) && SubsOf(plans) == subs[..i]
      invariant PlansOk(z, plans) && RowsRun(plans) && EntriesOk(z, pages, plans)
      invariant comp + PAGE_HEADER * i == |span| && (i > 0 ==> plans[0].enc == firstEnc)
      invariant firstRow == RowAfter(plans)
    {
      SubFits(z, c, maxRows, subs, i);
      RowStep(z, c, maxRows, subs, i, firstRow);
      var page, e;
      ghost var p: Plan;
      page, e, p := EncodePage(z, subs[i], firstRow);
      if i == 0 {
        firstEnc := e.encoding;
      }
      PagesSnoc(z, plans, p);
      RunNext(plans, p);
      span := span + page;
      comp := comp + (|page| - PAGE_HEADER);
      pages := pages + [e];
      plans := plans + [p];
      firstRow := firstRow + subs[i].NumValues();
    }
  }

  // encodeColumnRegion: the columns' spans one after another, and where each begins.
  ghost predicate RegionOk(z: Foreign, file: bytes, dir: seq<ColumnDir>, cols: seq<Column>, maxRows: int, plans: seq<seq<Plan>>) {
    |dir| == |cols| == |plans| && forall i :: 0 <= i < |cols| ==> ColumnOk(z, file, dir[i], cols[i], maxRows, plans[i])
  }

  // Wherever the file holds region at regionStart, the directory is right.
  ghost predicate Placed(z: Foreign, region: bytes, regionStart: nat, dir: seq<ColumnDir>, cols: seq<Column>, maxRows: int,
                         plans: seq<seq<Plan>>) {
    forall file :: HasAt(file, regionStart, region) ==> RegionOk(z, file, dir, cols, maxRows, plans)
  }

  ghost predicate HasAt(file: bytes, at: nat, part: bytes) {
    at + |part| <= |file| && file[at..at + |part|] == part
  }

  ghost predicate PlacedColumn(z: Foreign, span: bytes, at: nat, d: ColumnDir, c: Column, maxRows: int, plans: seq<Plan>) {
    forall file :: HasAt(file, at, span) ==> ColumnOk(z, file, d, c, maxRows, plans)
  }

  lemma PlaceNext(z: Foreign, region: bytes, regionStart: nat, dir: seq<ColumnDir>, cols: seq<Column>, maxRows: int,
                  plans: seq<seq<Plan>>, span: bytes, d: ColumnDir, c: Column, ps: seq<Plan>)
    requires Placed(z, region, regionStart, dir, cols, maxRows, plans)
    requires PlacedColumn(z, span, regionStart + |region|, d, c, maxRows, ps)
    ensures Placed(z, region + span, regionStart, dir + [d], cols + [c], maxRows, plans + [ps])
  {
    hide ColumnOk;
    forall file | HasAt(file, regionStart, region + span)
      ensures RegionOk(z, file, dir + [d], cols + [c], maxRows, plans + [ps])
    {
      Within(file, regionStart, region, span);
      assert HasAt(file, regionStart, region) && HasAt(file, regionStart + |region|, span);
    }
  }

  method EncodeColumnRegion(z: Foreign, cols: seq<Column>, regionStart: nat, maxRows: int)
    returns (region: bytes, dir: seq<ColumnDir>)
    requires forall i :: 0 <= i < |cols| ==> Fitting(z, cols[i])
    ensures exists plans :: Placed(z, region, regionStart, dir, cols, maxRows, plans)
  {
    hide ColumnOk, Fitting, PlacedColumn;
    region, dir := [], [];
    ghost var plans: seq<seq<Plan>> := [];
    assert Placed(z, region, regionStart, dir, cols[..0], maxRows, plans);
    hide Placed;
    for i := 0 to |cols|
      invariant Placed(z, region, regionStart, dir, cols[..i], maxRows, plans)
    {
      var span, d;
      ghost var ps;
      span, d, ps := EncodeColumn(z, cols[i], regionStart + |region|, maxRows);
      PlaceNext(z, region, regionStart, dir, cols[..i], maxRows, plans, span, d, cols[i], ps);
      assert cols[..i + 1] == cols[..i] + [cols[i]];
      region := region + span;
      dir := dir + [d];
      plans := plans + [ps];
    }
    assert cols[..|cols|] == cols;
  }

  lemma Within(file: bytes, start: nat, a: bytes, b: bytes)
    requires start + |a + b| <= |file| && file[start..start + |a + b|] == a + b
    ensures file[start..start + |a|] == a && file[start + |a|..start + |a| + |b|] == b
  {
    var ab := file[start..start + |a + b|];
    assert ab[..|a|] == a && ab[|a|..] == b;
  }

  // One column of decodeColumnRegion.
  method DecodeColumn(z: Foreign, file: bytes, d: ColumnDir, ghost c: Column, ghost maxRows: int, ghost plans: seq<Plan>)
    returns (data: Option<bytes>)
    ensures z.Lossless() && ColumnOk(z, file, d, c, maxRows, plans) ==> data == Some(c.data)
  {
    hide ColumnOk, Flat, PageBytes, PlanOk;
    ghost var ok := z.Lossless() && ColumnOk(z, file, d, c, maxRows, plans);
    if ok {
      ColumnParts(z, file, d, c, maxRows, plans);
    }
    if d.firstPageOffset > |file| {
      return None;
    }
    var out: bytes, span: bytes := [], [];
    var cur: nat := d.firstPageOffset;
    FlatNone();
    for p := 0 to d.numPages
      invariant cur <= |file|
      invariant ok ==> cur == d.firstPageOffset + |Flat(PagesOf(z, plans)[..p])| && span == Flat(PagesOf(z, plans)[..p])
      invariant ok ==> out == Flat(Datas(SubsOf(plans))[..p])
    {
      ghost var more: bytes := [];
      if ok {
        more := AtPage(z, file, d, plans, p);
      }
      var page := ReadPlanned(z, file[cur..], d.width, if ok then plans[p] else Nowhere(), more);
      if page.None? {
        return None;
      }
      if ok {
        FlatStep(PagesOf(z, plans), p);
        FlatStep(Datas(SubsOf(plans)), p);
        SpanStep(z, file, cur, plans[p], more);
      }
      out := out + page.value.0;
      span := span + file[cur..cur + page.value.1];
      cur := cur + page.value.1;
    }
    if ok {
      assert PagesOf(z, plans)[..|plans|] == PagesOf(z, plans);
      assert Datas(SubsOf(plans))[..|plans|] == Datas(SubsOf(plans));
    }
    if z.crc(span) != d.crc {
      return None;
    }
    return Some(out);
  }

  ghost function Nowhere(): Plan {
    Plan(ENC_RAW, 0, [], [], Column(0, 1, KindRaw, 0, 0, []), 0)
  }

  lemma FlatNone()
    ensures Flat([]) == []
    ensures forall parts: seq<bytes> :: parts[..0] == []
  {
  }

  lemma FlatStep(parts: seq<bytes>, p: nat)
    requires p < |parts|
    ensures Flat(parts[..p + 1]) == Flat(parts[..p]) + parts[p]
  {
    FlatSnoc(parts[..p], parts[p]);
    assert parts[..p + 1] == parts[..p] + [parts[p]];
  }

  lemma ColumnParts(z: Foreign, file: bytes, d: ColumnDir, c: Column, maxRows: int, plans: seq<Plan>)
    requires ColumnOk(z, file, d, c, maxRows, plans)
    ensures PlansOk(z, plans) && d.numPages == |plans| && d.crc == z.crc(Flat(PagesOf(z, plans)))
    ensures forall k :: 0 <= k < |plans| ==> plans[k].sub.width == d.width
    ensures Flat(Datas(SubsOf(plans))) == c.data
    ensures d.firstPageOffset + |Flat(PagesOf(z, plans))| <= |file|
    ensures file[d.firstPageOffset..d.firstPageOffset + |Flat(PagesOf(z, plans))|] == Flat(PagesOf(z, plans))
    ensures |plans| > 1 ==> EntriesOk(z, d.pages, plans)
  {
    hide Flat, PageBytes, PlanOk, IsChunk, ZoneOk, RowsRun, EntryOk;
    forall k | 0 <= k < |plans|
      ensures plans[k].sub.width == d.width
    {
      assert SubsOf(plans)[k] == plans[k].sub;
    }
  }

  // The file from page p on begins with that page.
  lemma AtPage(z: Foreign, file: bytes, d: ColumnDir, plans: seq<Plan>, p: nat) returns (more: bytes)
    requires p < |plans| && d.firstPageOffset + |Flat(PagesOf(z, plans))| <= |file|
    requires file[d.firstPageOffset..d.firstPageOffset + |Flat(PagesOf(z, plans))|] == Flat(PagesOf(z, plans))
    ensures var cur := d.firstPageOffset + |Flat(PagesOf(z, plans)[..p])|;
            cur <= |file| && file[cur..] == PageBytes(z, plans[p]) + more
  {
    hide Flat, PageBytes;
    var pages, start := PagesOf(z, plans), d.firstPageOffset;
    var span := Flat(pages);
    FlatAt(pages, p);
    var a, b := Flat(pages[..p]), pages[p];
    var cur := start + |a|;
    var rest := Flat(pages[p + 1..]);
    assert span == a + (b + rest);
    more := rest + file[start + |span|..];
    assert file[start..] == span + file[start + |span|..];
    assert file[cur..] == file[start..][|a|..];
    assert file[cur..] == (b + rest) + file[start + |span|..];
  }

  lemma SpanStep(z: Foreign, file: bytes, cur: nat, p: Plan, more: bytes)
    requires cur <= |file| && file[cur..] == PageBytes(z, p) + more
    ensures cur + |PageBytes(z, p)| <= |file| && file[cur..cur + |PageBytes(z, p)|] == PageBytes(z, p)
  {
    hide PageBytes;
    assert file[cur..][..|PageBytes(z, p)|] == PageBytes(z, p);
  }

  // decodeColumnPage: stride over the pages ahead of page pi by their recorded lengths.
  method DecodeColumnPage(z: Foreign, file: bytes, d: ColumnDir, pi: nat, ghost c: Column, ghost maxRows: int, ghost plans: seq<Plan>)
    returns (data: Option<bytes>)
    requires pi < |d.pages|
    ensures z.Lossless() && ColumnOk(z, file, d, c, maxRows, plans) ==> pi < |plans| && data == Some(plans[pi].sub.data)
  {
    hide ColumnOk, Flat, PageBytes, PlanOk;
    ghost var ok := z.Lossless() && ColumnOk(z, file, d, c, maxRows, plans);
    if ok {
      OnlyIfMany(z, file, d, c, maxRows, plans);
      ColumnParts(z, file, d, c, maxRows, plans);
    }
    var off: nat := d.firstPageOffset;
    FlatNone();
    for k := 0 to pi
      invariant ok ==> off == d.firstPageOffset + |Flat(PagesOf(z, plans)[..k])|
    {
      if ok {
        FlatStep(PagesOf(z, plans), k);
        assert EntryOk(z, d.pages[k], plans[k]);
      }
      off := off + d.pages[k].byteLen;
    }
    ghost var more: bytes := [];
    if ok {
      more := AtPage(z, file, d, plans, pi);
    }
    if off > |file| {
      return None;
    }
    var page := ReadPlanned(z, file[off..], d.width, if ok then plans[pi] else Nowhere(), more);
    return if page.None? then None else Some(page.value.0);
  }

  lemma OnlyIfMany(z: Foreign, file: bytes, d: ColumnDir, c: Column, maxRows: int, plans: seq<Plan>)
    requires ColumnOk(z, file, d, c, maxRows, plans) && d.pages != []
    ensures |plans| > 1 && |plans| == |d.pages|
  {
    hide Flat, PageBytes, PlanOk, IsSplit, ZoneOk, RowsRun, EntryOk;
  }

  // decodeColumnRegion
  method DecodeColumnRegion(z: Foreign, file: bytes, dir: seq<ColumnDir>, ghost cols: seq<Column>, ghost maxRows: int,
                            ghost plans: seq<seq<Plan>>) returns (out: Option<map<int, bytes>>)
    ensures z.Lossless() && RegionOk(z, file, dir, cols, maxRows, plans) ==> out == Some(LastOf(cols))
  {
    hide ColumnOk;
    ghost var ok := z.Lossless() && RegionOk(z, file, dir, cols, maxRows, plans);
    var m: map<int, bytes> := map[];
    for i := 0 to |dir|
      invariant ok ==> m == LastOf(cols[..i])
    {
      var data := DecodeColumn(z, file, dir[i], if ok then cols[i] else Nowhere().sub, maxRows, if ok then plans[i] else []);
      if data.None? {
        return None;
      }
      if ok {
        ColumnId(z, file, dir[i], cols[i], maxRows, plans[i]);
        assert cols[..i + 1][..i] == cols[..i];
      }
      m := m[dir[i].columnID := data.value];
    }
    assert ok ==> cols[..|cols|] == cols;
    return Some(m);
  }

  lemma ColumnId(z: Foreign, file: bytes, d: ColumnDir, c: Column, maxRows: int, plans: seq<Plan>)
    requires ColumnOk(z, file, d, c, maxRows, plans)
    ensures d.columnID == c.id
  {
    hide Flat, PageBytes, PlanOk, IsSplit, ZoneOk, RowsRun, EntryOk;
  }

  // Column id to data; a repeated id keeps its last column.
  function LastOf(cols: seq<Column>): map<int, bytes> {
    if cols == [] then map[] else LastOf(cols[..|cols| - 1])[cols[|cols| - 1].id := cols[|cols| - 1].data]
  }

  lemma {:induction false} LastOfDistinct(cols: seq<Column>)
    requires forall i, j :: 0 <= i < j < |cols| ==> cols[i].id != cols[j].id
    ensures forall i :: 0 <= i < |cols| ==> cols[i].id in LastOf(cols) && LastOf(cols)[cols[i].id] == cols[i].data
    ensures |LastOf(cols)| == |cols| && forall id :: id in LastOf(cols) ==> exists i :: 0 <= i < |cols| && cols[i].id == id
  {
    if cols != [] {
      var n := |cols| - 1;
      LastOfDistinct(cols[..n]);
      assert cols[n].id !in LastOf(cols[..n]);
    }
  }

  // Any columns, any page cap and any file around the region: decoding gives every column back.
  method RoundTrip(z: Foreign, cols: seq<Column>, before: bytes, after: bytes, maxRows: int) returns (out: Option<map<int, bytes>>)
    requires z.Lossless() && forall i :: 0 <= i < |cols| ==> Fitting(z, cols[i])
    ensures out == Some(LastOf(cols))
  {
    hide Fitting, LastOf, RegionOk;
    var region, dir := EncodeColumnRegion(z, cols, |before|, maxRows);
    ghost var plans :| Placed(z, region, |before|, dir, cols, maxRows, plans);
    var file := before + region + after;
    assert file[|before|..|before| + |region|] == region;
    assert HasAt(file, |before|, region);
    out := DecodeColumnRegion(z, file, dir, cols, maxRows, plans);
  }
}
