// Model of the value encodings of format/encoding.go over columns of unsigned integers of 1, 2, 4
// or 8 bytes. Encodes says when a payload stands for a column; every encoder produces such a
// payload and every decoder reads any such payload back.
module Encoding {
  import opened Wrappers
  import opened Bytes
  import opened Buffers
  import opened BitOps
  import opened BitStream
  import opened BitPacking

  const ENC_RAW: byte := 0
  const ENC_DICT: byte := 1
  const ENC_DELTA: byte := 2
  const ENC_FOR: byte := 3
  const ENC_RLE: byte := 4
  const ENC_DELTA_FOR: byte := 6

  const MAX_INT: int := 0x8000_0000_0000_0000

  predicate Wide(width: nat) {
    width == 1 || width == 2 || width == 4 || width == 8
  }

  ghost predicate InWidth(vals: seq<nat>, width: nat) {
    forall i :: 0 <= i < |vals| ==> vals[i] < Pow256(width)
  }

  ghost predicate Words(vals: seq<nat>) {
    forall i :: 0 <= i < |vals| ==> vals[i] < TWO_64
  }

  lemma WideWords(vals: seq<nat>, width: nat)
    requires Wide(width) && InWidth(vals, width)
    ensures Words(vals)
  {
    Pow256Words();
  }

  // ---- raw values ----

  // The column-major little-endian layout.
  function ValueBytes(vals: seq<nat>, width: nat): (b: bytes)
  {
    if vals == [] then [] else LittleEndian(vals[0], width) + ValueBytes(vals[1..], width)
  }

  lemma {:induction false} ValueBytesLength(vals: seq<nat>, width: nat)
    ensures |ValueBytes(vals, width)| == |vals| * width
  {
    if vals != [] {
      ValueBytesLength(vals[1..], width);
      MulStep(|vals| - 1, width);
    }
  }

  lemma {:induction false} ValueBytesSnoc(vals: seq<nat>, v: nat, width: nat)
    ensures ValueBytes(vals + [v], width) == ValueBytes(vals, width) + LittleEndian(v, width)
  {
    hide LittleEndian;
    if vals == [] {
      assert [v][1..] == [];
    } else {
      ValueBytesSnoc(vals[1..], v, width);
      assert (vals + [v])[1..] == vals[1..] + [v];
    }
  }

  // readValues: any column whose length is a multiple of the width is the layout of its values.
  method ReadValues(data: bytes, width: nat) returns (vals: seq<nat>)
    requires width > 0
    ensures |vals| == |data| / width && InWidth(vals, width)
    ensures ValueBytes(vals, width) == data[..(|data| / width) * width]
  {
    hide ValueBytes, InWidth, IsRow;
    vals := [];
    var n := |data| / width;
    FirstRow(width);
    NoValues(width);
    var pos: nat := 0;
    assert data[..0] == [];
    for i := 0 to n
      invariant |vals| == i && IsRow(pos, i, width) && pos <= |data| && InWidth(vals, width)
      invariant ValueBytes(vals, width) == data[..pos]
    {
      NextRow(pos, i, |data|, width);
      var v := ReadUint(data, pos, vals, width);
      vals := vals + [v];
      pos := pos + width;
    }
    LastRow(pos, n, width);
  }

  // Row i starts at pos.
  ghost predicate IsRow(pos: nat, i: nat, width: nat) {
    pos == i * width
  }

  lemma FirstRow(width: nat)
    ensures IsRow(0, 0, width)
  {
  }

  lemma NextRow(pos: nat, i: nat, len: nat, width: nat)
    requires width > 0 && i < len / width && IsRow(pos, i, width)
    ensures pos + width <= len && IsRow(pos + width, i + 1, width)
  {
    MulStep(i, width);
    RowFits(i + 1, len / width, width);
    WholeValues(len, width);
  }

  lemma LastRow(pos: nat, n: nat, width: nat)
    requires IsRow(pos, n, width)
    ensures pos == n * width
  {
  }

  method ReadUint(data: bytes, pos: nat, ghost vals: seq<nat>, width: nat) returns (v: nat)
    requires pos + width <= |data| && ValueBytes(vals, width) == data[..pos] && InWidth(vals, width)
    ensures ValueBytes(vals + [v], width) == data[..pos + width] && InWidth(vals + [v], width)
  {
    hide ValueBytes, FromLittleEndian, Pow256;
    NextValue(data, pos, vals, width);
    v := FromLittleEndian(data[pos..pos + width]);
  }

  lemma NoValues(width: nat)
    ensures ValueBytes([], width) == [] && InWidth([], width)
  {
  }

  lemma NextValue(data: bytes, pos: nat, vals: seq<nat>, width: nat)
    requires pos + width <= |data| && ValueBytes(vals, width) == data[..pos]
    ensures ValueBytes(vals + [FromLittleEndian(data[pos..pos + width])], width) == data[..pos + width]
  {
    hide ValueBytes, FromLittleEndian;
    var one := data[pos..pos + width];
    FromLittleEndianInverse(one);
    ValueBytesSnoc(vals, FromLittleEndian(one), width);
    assert data[..pos + width] == data[..pos] + one;
  }

  lemma WholeValues(len: nat, width: nat)
    requires width > 0
    ensures (len / width) * width <= len
    ensures len % width == 0 ==> (len / width) * width == len
  {
  }

  // writeValues
  method WriteValues(vals: seq<nat>, width: nat) returns (b: bytes)
    ensures b == ValueBytes(vals, width)
  {
    b := [];
    assert vals[..0] == [];
    for i := 0 to |vals|
      invariant b == ValueBytes(vals[..i], width)
    {
      ValueBytesSnoc(vals[..i], vals[i], width);
      assert vals[..i + 1] == vals[..i] + [vals[i]];
      b := b + LittleEndian(vals[i], width);
    }
    assert vals[..|vals|] == vals;
  }

  // ---- run-length ----

  datatype Run = Run(v: nat, len: nat)

  function Repeat(v: nat, n: nat): (s: seq<nat>)
    ensures |s| == n && forall i :: 0 <= i < n ==> s[i] == v
  {
    seq(n, _ => v)
  }

  function Expand(runs: seq<Run>): seq<nat> {
    if runs == [] then [] else Repeat(runs[0].v, runs[0].len) + Expand(runs[1..])
  }

  function RunBytes(runs: seq<Run>, width: nat): bytes {
    if runs == [] then [] else LittleEndian(runs[0].v, width) + Uvarint(runs[0].len) + RunBytes(runs[1..], width)
  }

  ghost predicate RunsFit(runs: seq<Run>, width: nat) {
    |runs| < MAX_INT && forall i :: 0 <= i < |runs| ==> runs[i].v < Pow256(width) && runs[i].len < MAX_INT
  }

  // No run could be longer: neighbours differ.
  ghost predicate Maximal(runs: seq<Run>) {
    && (forall i :: 0 <= i < |runs| ==> runs[i].len > 0)
    && (forall i :: 0 < i < |runs| ==> runs[i - 1].v != runs[i].v)
  }

  function RlePayload(runs: seq<Run>, width: nat): bytes {
    Uvarint(|runs|) + RunBytes(runs, width)
  }

  ghost predicate IsRle(payload: bytes, vals: seq<nat>, width: nat) {
    exists runs :: RunsFit(runs, width) && Maximal(runs) && Expand(runs) == vals && payload == RlePayload(runs, width)
  }

  lemma {:induction false} RunsSnoc(runs: seq<Run>, r: Run, width: nat)
    ensures Expand(runs + [r]) == Expand(runs) + Repeat(r.v, r.len)
    ensures RunBytes(runs + [r], width) == RunBytes(runs, width) + LittleEndian(r.v, width) + Uvarint(r.len)
  {
    hide LittleEndian, Uvarint;
    if runs == [] {
      assert [r][1..] == [];
      assert RunBytes([r], width) == LittleEndian(r.v, width) + Uvarint(r.len) + RunBytes([], width);
    } else {
      RunsSnoc(runs[1..], r, width);
      assert (runs + [r])[1..] == runs[1..] + [r];
    }
  }

  method EncodeRLE(vals: seq<nat>, width: nat) returns (payload: bytes)
    requires InWidth(vals, width) && |vals| < MAX_INT
    ensures IsRle(payload, vals, width)
  {
    hide Expand, RunBytes, IsRle, LittleEndian, Uvarint;
    var body: bytes := [];
    ghost var runs: seq<Run> := [];
    NoRuns(width);
    var count, i := 0, 0;
    assert vals[..0] == [];
    while i < |vals|
      invariant 0 <= i <= |vals| && count == |runs| <= i
      invariant RunsFit(runs, width) && Maximal(runs)
      invariant Expand(runs) == vals[..i] && body == RunBytes(runs, width)
      invariant runs != [] && i < |vals| ==> runs[|runs| - 1].v != vals[i]
    {
      var j := i + 1;
      while j < |vals| && vals[j] == vals[i]
        invariant i < j <= |vals| && forall k :: i <= k < j ==> vals[k] == vals[i]
      {
        j := j + 1;
      }
      RunsSnoc(runs, Run(vals[i], j - i), width);
      body := body + LittleEndian(vals[i], width) + Uvarint(j - i);
      runs := runs + [Run(vals[i], j - i)];
      count := count + 1;
      assert vals[..j] == vals[..i] + Repeat(vals[i], j - i);
      i := j;
    }
    assert vals[..|vals|] == vals;
    payload := Uvarint(count) + body;
    RleWitness(payload, runs, vals, width);
  }

  lemma NoRuns(width: nat)
    ensures Expand([]) == [] && RunBytes([], width) == []
  {
  }

  lemma RleWitness(payload: bytes, runs: seq<Run>, vals: seq<nat>, width: nat)
    requires RunsFit(runs, width) && Maximal(runs) && Expand(runs) == vals && payload == RlePayload(runs, width)
    ensures IsRle(payload, vals, width)
  {
  }

  // The int an unsigned 64-bit value becomes.
  function ToInt(u: nat): int {
    if u < MAX_INT then u else u - TWO_64
  }

  // One run off the front of the reader.
  lemma RunFront(runs: seq<Run>, i: nat, width: nat)
    requires i < |runs| && RunsFit(runs, width)
    ensures var b := RunBytes(runs[i..], width);
            && |b| >= width && FromLittleEndian(b[..width]) == runs[i].v
            && ReadUvarint(b[width..]) == Some((runs[i].len, |Uvarint(runs[i].len)|))
            && b[width..][|Uvarint(runs[i].len)|..] == RunBytes(runs[i + 1..], width)
    ensures Expand(runs[i..]) == Repeat(runs[i].v, runs[i].len) + Expand(runs[i + 1..])
  {
    var b, rest := RunBytes(runs[i..], width), RunBytes(runs[i + 1..], width);
    var r := runs[i];
    assert runs[i..][1..] == runs[i + 1..];
    assert b == LittleEndian(r.v, width) + Uvarint(r.len) + rest;
    assert b[..width] == LittleEndian(r.v, width);
    assert b[width..] == Uvarint(r.len) + rest;
    LittleEndianRoundTrip(r.v, width);
    ReadUvarintInverse(r.len, rest);
  }

  // The reader stands at run i of the list.
  ghost predicate AtRun(rest: bytes, runs: seq<Run>, i: int, width: nat) {
    0 <= i <= |runs| && RunsFit(runs, width) && rest == RunBytes(runs[i..], width)
  }

  method ReadRun(r: RBuf, width: nat, ghost runs: seq<Run>, ghost i: int) returns (v: nat, len: int)
    requires r.Valid()
    modifies r
    ensures r.Valid()
    ensures old(!r.err && AtRun(r.Rest(), runs, i, width)) && i < |runs| ==>
      !r.err && AtRun(r.Rest(), runs, i + 1, width) && v == runs[i].v && len == runs[i].len
      && Expand(runs[i..]) == Repeat(v, len) + Expand(runs[i + 1..])
  {
    hide Expand, RunBytes, FromLittleEndian, Uvarint, ReadUvarint;
    if !r.err && AtRun(r.Rest(), runs, i, width) && i < |runs| {
      RunFront(runs, i, width);
    }
    v := r.Uint(width);
    var u := r.Uvarint();
    len := ToInt(u);
  }

  method ReadCount(r: RBuf, ghost runs: seq<Run>, width: nat) returns (count: int)
    requires r.Valid() && !r.err
    modifies r
    ensures r.Valid()
    ensures RunsFit(runs, width) && old(r.Rest()) == RlePayload(runs, width) ==>
      !r.err && count == |runs| && AtRun(r.Rest(), runs, 0, width)
  {
    hide RunBytes, Uvarint, ReadUvarint;
    if RunsFit(runs, width) {
      ReadUvarintInverse(|runs|, RunBytes(runs, width));
      assert runs[0..] == runs;
    }
    var u := r.Uvarint();
    count := ToInt(u);
  }

  // decodeRLE. runs is any run list: when the payload is its encoding, its expansion comes back.
  method DecodeRLE(payload: bytes, n: nat, width: nat, ghost runs: seq<Run>) returns (out: Option<seq<nat>>)
    requires Wide(width)
    ensures out.Some? ==> |out.value| == n
    ensures RunsFit(runs, width) && payload == RlePayload(runs, width) && |Expand(runs)| == n ==> out == Some(Expand(runs))
  {
    hide Expand, RunsFit, AtRun, RlePayload, Repeat;
    var r := new RBuf(payload);
    ghost var ok := RunsFit(runs, width) && payload == RlePayload(runs, width);
    var count := ReadCount(r, runs, width);
    var vals := ReadRuns(r, count, width, runs, ok);
    if r.err || |vals| != n {
      return None;
    }
    return Some(vals);
  }

  method ReadRuns(r: RBuf, count: int, width: nat, ghost runs: seq<Run>, ghost ok: bool) returns (vals: seq<nat>)
    requires r.Valid() && (ok ==> !r.err && count == |runs| && AtRun(r.Rest(), runs, 0, width))
    modifies r
    ensures r.Valid() && (ok ==> !r.err && vals == Expand(runs))
  {
    hide Expand, AtRun, Repeat;
    vals := [];
    var i := 0;
    Ahead([], runs);
    while i < count
      invariant r.Valid() && i >= 0
      invariant ok ==> count == |runs| && i <= count && !r.err && AtRun(r.Rest(), runs, i, width)
      invariant ok ==> vals + Expand(runs[i..]) == Expand(runs)
    {
      var v, len := ReadRun(r, width, runs, i);
      if ok {
        Moved(vals, Repeat(v, len), Expand(runs[i + 1..]));
      }
      vals := vals + Repeat(v, if len > 0 then len else 0);
      i := i + 1;
    }
    if ok {
      Behind(vals, runs, i);
    }
  }

  lemma Ahead(none: seq<nat>, runs: seq<Run>)
    requires none == []
    ensures none + Expand(runs[0..]) == Expand(runs)
  {
    assert runs[0..] == runs;
  }

  lemma Behind(vals: seq<nat>, runs: seq<Run>, i: nat)
    requires i == |runs|
    ensures vals + Expand(runs[i..]) == vals
  {
    assert runs[i..] == [];
  }

  lemma Moved(a: seq<nat>, b: seq<nat>, d: seq<nat>)
    ensures a + (b + d) == a + b + d
  {
  }

  // ---- dictionary ----

  ghost predicate Coded(vals: seq<nat>, dict: seq<nat>, codes: seq<nat>) {
    && |codes| == |vals|
    && forall i :: 0 <= i < |vals| ==> codes[i] < |dict| && dict[codes[i]] == vals[i]
  }

  // The dictionary holds each distinct value once, in order of first appearance.
  ghost predicate FirstSeen(vals: seq<nat>, dict: seq<nat>) {
    && (forall i, j :: 0 <= i < j < |dict| ==> dict[i] != dict[j])
    && (forall c :: 0 <= c < |dict| ==> dict[c] in vals)
  }

  ghost predicate IsDictOf(payload: bytes, vals: seq<nat>, width: nat, dict: seq<nat>, codes: seq<nat>, cw: byte, packed: bytes) {
    && Coded(vals, dict, codes) && FirstSeen(vals, dict) && |dict| < MAX_INT && InWidth(dict, width)
    && cw <= 64 && Fit(codes, cw) && IsPacked(packed, codes, cw)
    && payload == Uvarint(|dict|) + (ValueBytes(dict, width) + ([cw] + packed))
  }

  ghost predicate IsDict(payload: bytes, vals: seq<nat>, width: nat) {
    exists dict, codes, cw, packed :: IsDictOf(payload, vals, width, dict, codes, cw, packed)
  }

  // The dictionary and the codes of a column.
  method BuildDict(vals: seq<nat>, ghost width: nat) returns (dict: seq<nat>, codes: seq<nat>)
    requires InWidth(vals, width)
    ensures Coded(vals, dict, codes) && FirstSeen(vals, dict) && |dict| <= |vals| && InWidth(dict, width)
  {
    var index: map<nat, nat> := map[];
    dict, codes := [], [];
    for i := 0 to |vals|
      invariant Coded(vals[..i], dict, codes) && FirstSeen(vals[..i], dict) && |dict| <= i && InWidth(dict, width)
      invariant forall v :: v in index <==> v in dict
      invariant forall v :: v in index ==> index[v] < |dict| && dict[index[v]] == v
    {
      var v := vals[i];
      assert forall x :: x in vals[..i] ==> x in vals[..i + 1];
      assert vals[..i + 1] == vals[..i] + [v];
      if v !in index {
        index := index[v := |dict|];
        dict := dict + [v];
      }
      codes := codes + [index[v]];
    }
    assert vals[..|vals|] == vals;
  }

  lemma CodesFit(vals: seq<nat>, dict: seq<nat>, codes: seq<nat>, cw: nat)
    requires Coded(vals, dict, codes)
    requires if |dict| > 1 then |dict| - 1 < Pow2(cw) else cw == 0
    ensures Fit(codes, cw)
  {
  }

  method EncodeDict(vals: seq<nat>, width: nat) returns (payload: bytes)
    requires InWidth(vals, width) && |vals| < MAX_INT
    ensures IsDict(payload, vals, width)
  {
    hide Coded, FirstSeen, IsPacked, Uvarint, ValueBytes, Pow2;
    var dict, codes := BuildDict(vals, width);
    var cw: nat := 0;
    if |dict| > 1 {
      cw := BitWidth(|dict| - 1);
    }
    CodesFit(vals, dict, codes, cw);
    var body := WriteValues(dict, width);
    var packed := BitPack(codes, cw);
    payload := Uvarint(|dict|) + (body + ([cw] + packed));
    assert IsDictOf(payload, vals, width, dict, codes, cw, packed);
  }

  lemma DictFront(payload: bytes, vals: seq<nat>, width: nat, dict: seq<nat>, codes: seq<nat>, cw: byte, packed: bytes)
    requires IsDictOf(payload, vals, width, dict, codes, cw, packed)
    ensures var rest := ValueBytes(dict, width) + ([cw] + packed);
            ReadUvarint(payload) == Some((|dict|, |Uvarint(|dict|)|)) && payload[|Uvarint(|dict|)|..] == rest
    ensures InWidth(dict, width) && |dict| < MAX_INT
  {
    hide Coded, FirstSeen, Uvarint, ReadUvarint, ValueBytes;
    ReadUvarintInverse(|dict|, ValueBytes(dict, width) + ([cw] + packed));
  }

  // The reader stands before the values from i on, followed by tail.
  ghost predicate AtValue(rest: bytes, vals: seq<nat>, i: int, width: nat, tail: bytes) {
    0 <= i <= |vals| && InWidth(vals, width) && rest == ValueBytes(vals[i..], width) + tail
  }

  method ReadValue1(r: RBuf, width: nat, ghost vals: seq<nat>, ghost i: int, ghost tail: bytes) returns (v: nat)
    requires r.Valid()
    modifies r
    ensures r.Valid()
    ensures old(!r.err && AtValue(r.Rest(), vals, i, width, tail)) && i < |vals| ==>
      !r.err && AtValue(r.Rest(), vals, i + 1, width, tail) && v == vals[i]
  {
    hide LittleEndian, FromLittleEndian;
    if !r.err && AtValue(r.Rest(), vals, i, width, tail) && i < |vals| {
      assert vals[i..][1..] == vals[i + 1..];
      var rest := ValueBytes(vals[i + 1..], width) + tail;
      assert r.Rest() == LittleEndian(vals[i], width) + rest;
      assert r.Rest()[..width] == LittleEndian(vals[i], width) && r.Rest()[width..] == rest;
      LittleEndianRoundTrip(vals[i], width);
    }
    v := r.Uint(width);
  }

  method ReadTable(r: RBuf, dn: nat, width: nat, ghost dict: seq<nat>, ghost tail: bytes) returns (table: seq<nat>)
    requires r.Valid()
    modifies r
    ensures r.Valid() && |table| == dn
    ensures old(!r.err && AtValue(r.Rest(), dict, 0, width, tail)) && dn == |dict| ==> !r.err && table == dict && r.Rest() == tail
  {
    hide AtValue;
    ghost var ok := !r.err && AtValue(r.Rest(), dict, 0, width, tail) && dn == |dict|;
    table := [];
    for i := 0 to dn
      invariant r.Valid() && |table| == i
      invariant ok ==> !r.err && AtValue(r.Rest(), dict, i, width, tail) && table == dict[..i]
    {
      var v := ReadValue1(r, width, dict, i, tail);
      table := table + [v];
    }
    if ok {
      AtEnd(r.Rest(), dict, width, tail);
    }
  }

  lemma AtEnd(rest: bytes, vals: seq<nat>, width: nat, tail: bytes)
    requires AtValue(rest, vals, |vals|, width, tail)
    ensures rest == tail
  {
    NoValues(width);
    assert vals[|vals|..] == [] && [] + tail == tail;
  }

  method LookUp(table: seq<nat>, codes: seq<nat>) returns (out: Option<seq<nat>>)
    ensures out.None? <==> exists i :: 0 <= i < |codes| && codes[i] >= |table|
    ensures out.Some? ==> |out.value| == |codes| && Coded(out.value, table, codes)
  {
    var vals: seq<nat> := [];
    for i := 0 to |codes|
      invariant |vals| == i && Coded(vals, table, codes[..i])
    {
      if codes[i] >= |table| {
        return None;
      }
      vals := vals + [table[codes[i]]];
    }
    assert codes[..|codes|] == codes;
    return Some(vals);
  }

  lemma DictCodes(payload: bytes, vals: seq<nat>, width: nat, dict: seq<nat>, codes: seq<nat>, cw: byte, packed: bytes, got: seq<nat>)
    requires IsDictOf(payload, vals, width, dict, codes, cw, packed) && |got| == |vals|
    requires cw <= 64 ==> Unpacks(packed, got, cw)
    ensures got == codes && Coded(vals, dict, codes)
    ensures forall i :: 0 <= i < |codes| ==> codes[i] < |dict|
  {
    assert packed + [] == packed;
    UnpackPacked(packed, [], codes, got, cw);
  }

  lemma SameCoded(v: seq<nat>, w: seq<nat>, dict: seq<nat>, codes: seq<nat>)
    requires Coded(v, dict, codes) && Coded(w, dict, codes)
    ensures v == w
  {
  }

  // decodeDict. dict, codes, cw and packed are any parts: when the payload is made of them, the
  // column comes back.
  method DecodeDict(payload: bytes, n: nat, width: nat, ghost vals: seq<nat>, ghost dict: seq<nat>, ghost codes: seq<nat>,
                    ghost cw: byte, ghost packed: bytes) returns (out: Option<seq<nat>>)
    requires Wide(width)
    ensures out.Some? ==> |out.value| == n
    ensures n == |vals| && IsDictOf(payload, vals, width, dict, codes, cw, packed) ==> out == Some(vals)
  {
    hide IsDictOf, Coded, Unpacks, Uvarint, ReadUvarint, ValueBytes, FromLittleEndian;
    if n == 0 {
      assert n == |vals| ==> vals == [];
      return Some([]);
    }
    ghost var ok := n == |vals| && IsDictOf(payload, vals, width, dict, codes, cw, packed);
    var r := new RBuf(payload);
    if ok {
      DictFront(payload, vals, width, dict, codes, cw, packed);
      assert dict[0..] == dict;
    }
    var dn := r.Uvarint();
    if r.err || ToInt(dn) < 0 {
      return None;
    }
    var table := ReadTable(r, dn, width, dict, [cw] + packed);
    var bits := r.U8();
    if r.err {
      return None;
    }
    out := ReadCodes(r.Rest(), n, bits, table, payload, width, vals, dict, codes, cw, packed);
  }

  method ReadCodes(rest: bytes, n: nat, bits: byte, table: seq<nat>, ghost payload: bytes, ghost width: nat, ghost vals: seq<nat>,
                   ghost dict: seq<nat>, ghost codes: seq<nat>, ghost cw: byte, ghost packed: bytes) returns (out: Option<seq<nat>>)
    ensures out.Some? ==> |out.value| == n
    ensures n == |vals| && IsDictOf(payload, vals, width, dict, codes, cw, packed) && table == dict && bits == cw && rest == packed
      ==> out == Some(vals)
  {
    hide IsDictOf, Coded, Unpacks;
    var got := BitUnpack(rest, n, bits);
    ghost var ok := n == |vals| && IsDictOf(payload, vals, width, dict, codes, cw, packed) && table == dict && bits == cw && rest == packed;
    if ok {
      DictCodes(payload, vals, width, dict, codes, cw, packed, got);
    }
    out := LookUp(table, got);
    if ok {
      SameCoded(vals, out.value, dict, codes);
    }
  }
}
