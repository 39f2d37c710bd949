// Values packed back to back at a fixed bit width, least-significant bit first: the layout of
// dedup/ribbon.go's packBits and of format/encoding.go's bitpack, as sequences of bits.
module BitStream {
  import opened BitOps
  import opened Bytes

  // The low n bits of v, least significant first.
  function BitList(v: nat, n: nat): (s: seq<bool>)
    ensures |s| == n
  {
    if n == 0 then [] else [v % 2 == 1] + BitList(v / 2, n - 1)
  }

  // vals packed at width bits each.
  function Packed(vals: seq<nat>, width: nat): seq<bool> {
    if vals == [] then [] else Packed(vals[..|vals| - 1], width) + BitList(vals[|vals| - 1], width)
  }

  ghost predicate Fit(vals: seq<nat>, width: nat) {
    forall i :: 0 <= i < |vals| ==> vals[i] < Pow2(width)
  }

  // b holds the bits s, and zero or more bits after them.
  ghost predicate Holds(b: bytes, s: seq<bool>) {
    s <= Packed(b, 8)
  }

  lemma {:induction false} PackedLength(vals: seq<nat>, width: nat)
    ensures |Packed(vals, width)| == |vals| * width
  {
    if vals != [] {
      PackedLength(vals[..|vals| - 1], width);
      MulStep(|vals| - 1, width);
    }
  }

  lemma MulStep(n: nat, width: nat)
    ensures (n + 1) * width == n * width + width
  {
  }

  // The bytes that hold n values of width bits.
  function PackedBytes(n: nat, width: nat): nat {
    (n * width + 7) / 8
  }

  lemma {:induction false} BitListInjective(v: nat, w: nat, n: nat)
    requires v < Pow2(n) && w < Pow2(n)
    requires BitList(v, n) == BitList(w, n)
    ensures v == w
  {
    if n > 0 {
      assert BitList(v, n)[0] == BitList(w, n)[0];
      assert BitList(v, n)[1..] == BitList(v / 2, n - 1);
      assert BitList(w, n)[1..] == BitList(w / 2, n - 1);
      BitListInjective(v / 2, w / 2, n - 1);
    }
  }

  // Joining: the bits of lo below the bits of hi.
  lemma {:induction false} BitListJoin(lo: nat, n: nat, hi: nat, k: nat)
    requires lo < Pow2(n)
    ensures BitList(lo, n) + BitList(hi, k) == BitList(lo + Pow2(n) * hi, n + k)
  {
    if n == 0 {
      assert Pow2(0) * hi == hi;
    } else {
      var v := lo + Pow2(n) * hi;
      assert Pow2(n) * hi == 2 * (Pow2(n - 1) * hi) by { MulAssoc(2, Pow2(n - 1), hi); }
      assert v % 2 == lo % 2 && v / 2 == lo / 2 + Pow2(n - 1) * hi;
      BitListJoin(lo / 2, n - 1, hi, k);
      assert BitList(lo, n) + BitList(hi, k) == [lo % 2 == 1] + (BitList(lo / 2, n - 1) + BitList(hi, k));
    }
  }

  lemma MulAssoc(x: nat, y: nat, z: nat)
    ensures x * y * z == x * (y * z)
  {
  }

  // Splitting off the low n bits.
  lemma {:induction false} BitListSplit(v: nat, n: nat, k: nat)
    ensures BitList(v, n + k) == BitList(Low(v, n), n) + BitList(Shr(v, n), k)
  {
    if n > 0 {
      BitListSplit(v / 2, n - 1, k);
      assert BitList(Low(v, n), n) == [v % 2 == 1] + BitList(Low(v / 2, n - 1), n - 1);
    }
  }

  lemma {:induction false} BitListLow(v: nat, n: nat)
    ensures BitList(Low(v, n), n) == BitList(v, n)
  {
    if n > 0 {
      BitListLow(v / 2, n - 1);
    }
  }

  lemma {:induction false} MulLe(x: nat, y: nat, z: nat)
    requires y <= z
    ensures x * y <= x * z
    decreases z
  {
    if y < z {
      MulLe(x, y, z - 1);
      assert x * z == x * (z - 1) + x;
    }
  }

  lemma JoinBound(lo: nat, n: nat, hi: nat, k: nat)
    requires lo < Pow2(n) && hi < Pow2(k)
    ensures lo + Pow2(n) * hi < Pow2(n + k)
  {
    Pow2Add(n, k);
    MulLe(Pow2(n), hi + 1, Pow2(k));
    assert Pow2(n) * (hi + 1) == Pow2(n) * hi + Pow2(n);
  }

  lemma PackedSnoc(vals: seq<nat>, v: nat, width: nat)
    ensures Packed(vals + [v], width) == Packed(vals, width) + BitList(v, width)
  {
    assert (vals + [v])[..|vals|] == vals;
  }

  lemma RowFits(k: nat, n: nat, width: nat)
    requires k <= n
    ensures k * width <= n * width
  {
  }

  // A packed stream determines its values.
  lemma {:induction false} PackedInjective(v: seq<nat>, w: seq<nat>, width: nat)
    requires |v| == |w| && Fit(v, width) && Fit(w, width)
    requires Packed(v, width) == Packed(w, width)
    ensures v == w
  {
    if v != [] {
      var n := |v| - 1;
      var p, q := Packed(v[..n], width), Packed(w[..n], width);
      PackedLength(v[..n], width);
      PackedLength(w[..n], width);
      assert p == Packed(v, width)[..|p|] && q == Packed(w, width)[..|q|];
      assert BitList(v[n], width) == Packed(v, width)[|p|..];
      assert BitList(w[n], width) == Packed(w, width)[|q|..];
      BitListInjective(v[n], w[n], width);
      PackedInjective(v[..n], w[..n], width);
      assert v == v[..n] + [v[n]] && w == w[..n] + [w[n]];
    }
  }

  lemma ByteBits(v: nat, k: nat)
    ensures BitList(v, 8 + k) == BitList(v % 256, 8) + BitList(v / 256, k)
    ensures v < Pow2(8 + k) ==> v / 256 < Pow2(k)
  {
    ByteShift(v);
    BitListSplit(v, 8, k);
    if v < Pow2(8 + k) {
      ShrBound(v, 8, k);
    }
  }

  lemma ByteShift(v: nat)
    ensures Shr(v, 8) == v / 256 && Low(v, 8) == v % 256
  {
    ShrIsDiv(v, 8);
    LowShr(v, 8);
    LowBound(v, 8);
    assert Pow2(8) == 256;
  }

  // The bits already written to b followed by the low nbits bits of an accumulator.
  ghost predicate Writing(b: seq<nat>, acc: nat, nbits: nat, s: seq<bool>) {
    acc < Pow2(nbits) && Packed(b, 8) + BitList(acc, nbits) == s
  }

  lemma WritingLength(b: seq<nat>, acc: nat, nbits: nat, s: seq<bool>)
    requires Writing(b, acc, nbits, s)
    ensures 8 * |b| + nbits == |s|
  {
    PackedLength(b, 8);
  }

  lemma WriteByte(b: seq<nat>, acc: nat, nbits: nat, s: seq<bool>)
    requires Writing(b, acc, nbits, s) && nbits >= 8
    ensures Writing(b + [acc % 256], acc / 256, nbits - 8, s)
  {
    ByteBits(acc, nbits - 8);
    PackedSnoc(b, acc % 256, 8);
    JoinTail(Packed(b, 8), BitList(acc % 256, 8), BitList(acc / 256, nbits - 8), BitList(acc, nbits));
  }

  lemma JoinTail(p: seq<bool>, a: seq<bool>, v: seq<bool>, av: seq<bool>)
    requires a + v == av
    ensures (p + a) + v == p + av
  {
  }

  // acc | v << nbits
  function Put(acc: nat, nbits: nat, v: nat): nat {
    acc + Pow2(nbits) * v
  }

  lemma WriteValue(b: seq<nat>, acc: nat, nbits: nat, vals: seq<nat>, v: nat, width: nat)
    requires Writing(b, acc, nbits, Packed(vals, width))
    ensures Writing(b, Put(acc, nbits, Low(v, width)), nbits + width, Packed(vals + [v], width))
  {
    var u := Low(v, width);
    BitListLow(v, width);
    LowBound(v, width);
    BitListJoin(acc, nbits, u, width);
    JoinBound(acc, nbits, u, width);
    PackedSnoc(vals, v, width);
    JoinTail(Packed(b, 8), BitList(acc, nbits), BitList(v, width), BitList(Put(acc, nbits, u), nbits + width));
  }

  lemma WriteLast(b: seq<nat>, acc: nat, nbits: nat, s: seq<bool>)
    requires Writing(b, acc, nbits, s) && nbits < 8
    ensures acc < 256 && s <= Packed(b + [acc], 8)
  {
    Pow2Mono(nbits, 8);
    BitListSplit(acc, nbits, 8 - nbits);
    LowSame(acc, nbits);
    PackedSnoc(b, acc, 8);
  }

  lemma PackedPrefix(vals: seq<nat>, k: nat, width: nat)
    requires k <= |vals|
    ensures Packed(vals[..k], width) <= Packed(vals, width)
    decreases |vals|
  {
    if k == |vals| {
      assert vals[..k] == vals;
    } else {
      var n := |vals| - 1;
      PackedPrefix(vals[..n], k, width);
      assert vals[..n][..k] == vals[..k];
    }
  }

  lemma WriteNext(b: seq<nat>, acc: nat, nbits: nat, vals: seq<nat>, k: nat, width: nat)
    requires k < |vals| && Writing(b, acc, nbits, Packed(vals[..k], width))
    ensures Writing(b, Put(acc, nbits, Low(vals[k], width)), nbits + width, Packed(vals[..k + 1], width))
    ensures |Packed(vals[..k + 1], width)| <= |Packed(vals, width)|
  {
    WriteValue(b, acc, nbits, vals[..k], vals[k], width);
    assert vals[..k] + [vals[k]] == vals[..k + 1];
    PackedPrefix(vals, k + 1, width);
  }

  lemma WriteNothing(width: nat)
    ensures Writing([], 0, 0, Packed([], width))
  {
  }

  lemma WriteDone(b: seq<nat>, acc: nat, s: seq<bool>)
    requires Writing(b, acc, 0, s)
    ensures s <= Packed(b, 8)
  {
  }

  // ---- packBits and unpackBits (dedup/ribbon.go) ----

  // Move every whole byte of the accumulator out to buf.
  method FlushBytes(buf: array<byte>, bi: nat, acc: nat, nbits: nat, ghost s: seq<bool>)
    returns (bi': nat, acc': nat, nbits': nat)
    requires bi <= buf.Length && |s| <= 8 * buf.Length && Writing(buf[..bi], acc, nbits, s)
    modifies buf
    ensures nbits' < 8 && bi' <= buf.Length && Writing(buf[..bi'], acc', nbits', s)
  {
    hide Writing, Packed;
    bi', acc', nbits' := bi, acc, nbits;
    while nbits' >= 8
      invariant bi' <= buf.Length && Writing(buf[..bi'], acc', nbits', s)
    {
      WritingLength(buf[..bi'], acc', nbits', s);
      WriteByte(buf[..bi'], acc', nbits', s);
      buf[bi'] := acc' % 256;
      assert buf[..bi' + 1] == buf[..bi'] + [acc' % 256];
      bi' := bi' + 1;
      acc' := acc' / 256;
      nbits' := nbits' - 8;
    }
  }

  method PackBits(z: seq<nat>, width: nat) returns (out: bytes)
    ensures |out| == PackedBytes(|z|, width)
    ensures Holds(out, Packed(z, width))
  {
    PackedLength(z, width);
    ghost var s := Packed(z, width);
    WriteNothing(width);
    hide Writing, Packed, Put, Low, Pow2;
    var buf := new byte[PackedBytes(|z|, width)](_ => 0);
    var acc: nat, nbits: nat, bi: nat := 0, 0, 0;
    assert z[..0] == [];
    for k := 0 to |z|
      invariant nbits < 8 && bi <= buf.Length && Writing(buf[..bi], acc, nbits, Packed(z[..k], width))
    {
      var v := Low(z[k], width);
      WriteNext(buf[..bi], acc, nbits, z, k, width);
      acc := Put(acc, nbits, v);
      nbits := nbits + width;
      bi, acc, nbits := FlushBytes(buf, bi, acc, nbits, Packed(z[..k + 1], width));
    }
    assert z[..|z|] == z;
    WritingLength(buf[..bi], acc, nbits, s);
    if nbits > 0 {
      WriteLast(buf[..bi], acc, nbits, s);
      buf[bi] := acc;
      assert buf[..] == buf[..bi] + [acc];
    } else {
      WriteDone(buf[..bi], acc, s);
      assert buf[..] == buf[..bi];
    }
    out := buf[..];
  }

  // Reading: the values already read, then the accumulator, are the bits of the bytes consumed.
  ghost predicate Reading(b: seq<nat>, acc: nat, nbits: nat, vals: seq<nat>, width: nat) {
    acc < Pow2(nbits) && Fit(vals, width) && Packed(vals, width) + BitList(acc, nbits) == Packed(b, 8)
  }

  lemma ReadByte(b: seq<nat>, v: nat, acc: nat, nbits: nat, vals: seq<nat>, width: nat)
    requires Reading(b, acc, nbits, vals, width) && v < 256
    ensures Reading(b + [v], Put(acc, nbits, v), nbits + 8, vals, width)
  {
    BitListJoin(acc, nbits, v, 8);
    JoinBound(acc, nbits, v, 8);
    PackedSnoc(b, v, 8);
    JoinTail(Packed(vals, width), BitList(acc, nbits), BitList(v, 8), BitList(Put(acc, nbits, v), nbits + 8));
  }

  lemma ReadValue(b: seq<nat>, acc: nat, k: nat, vals: seq<nat>, width: nat)
    requires Reading(b, acc, width + k, vals, width)
    ensures Reading(b, Shr(acc, width), k, vals + [Low(acc, width)], width)
  {
    BitListSplit(acc, width, k);
    LowBound(acc, width);
    ShrBound(acc, width, k);
    PackedSnoc(vals, Low(acc, width), width);
    JoinTail(Packed(vals, width), BitList(Low(acc, width), width), BitList(Shr(acc, width), k), BitList(acc, width + k));
  }

  lemma ReadingLength(b: seq<nat>, acc: nat, nbits: nat, vals: seq<nat>, width: nat)
    requires Reading(b, acc, nbits, vals, width)
    ensures |vals| * width + nbits == 8 * |b|
  {
    PackedLength(vals, width);
    PackedLength(b, 8);
  }

  lemma MoreBytes(len: nat, b: seq<nat>, acc: nat, nbits: nat, vals: seq<nat>, width: nat, count: nat)
    requires Reading(b, acc, nbits, vals, width) && nbits < width && |vals| < count
    requires len == PackedBytes(count, width)
    ensures |b| < len
  {
    ReadingLength(b, acc, nbits, vals, width);
    RowFits(|vals| + 1, count, width);
    MulStep(|vals|, width);
  }

  // Read bytes until the accumulator holds a value.
  method FillAccumulator(b: bytes, bi: nat, acc: nat, nbits: nat, vals: seq<nat>, count: nat, width: nat)
    returns (bi': nat, acc': nat, nbits': nat)
    requires |b| == PackedBytes(count, width) && |vals| < count
    requires bi <= |b| && nbits < 8 && Reading(b[..bi], acc, nbits, vals, width)
    ensures bi' <= |b| && width <= nbits' < width + 8 && Reading(b[..bi'], acc', nbits', vals, width)
  {
    hide Reading, Packed, PackedBytes, Fit, Put;
    bi', acc', nbits' := bi, acc, nbits;
    while nbits' < width
      invariant bi' <= |b| && (nbits' < 8 || nbits' - 8 < width) && Reading(b[..bi'], acc', nbits', vals, width)
      decreases width - nbits'
    {
      MoreBytes(|b|, b[..bi'], acc', nbits', vals, width, count);
      ReadByte(b[..bi'], b[bi'], acc', nbits', vals, width);
      assert b[..bi' + 1] == b[..bi'] + [b[bi']];
      acc' := Put(acc', nbits', b[bi']);
      bi' := bi' + 1;
      nbits' := nbits' + 8;
    }
  }

  // b holds count values: the length check of unmarshalRibbon.
  method UnpackBits(b: bytes, count: nat, width: nat) returns (vals: seq<nat>)
    requires |b| == PackedBytes(count, width)
    ensures |vals| == count && Fit(vals, width)
    ensures Holds(b, Packed(vals, width))
  {
    hide Reading, Packed, PackedBytes, Fit, Pow2;
    vals := [];
    var acc: nat, nbits: nat, bi: nat := 0, 0, 0;
    ReadNothing(width);
    assert b[..0] == [];
    while |vals| < count
      invariant |vals| <= count && nbits < 8 && bi <= |b| && Reading(b[..bi], acc, nbits, vals, width)
    {
      bi, acc, nbits := FillAccumulator(b, bi, acc, nbits, vals, count, width);
      ReadValue(b[..bi], acc, nbits - width, vals, width);
      vals := vals + [Low(acc, width)];
      acc := Shr(acc, width);
      nbits := nbits - width;
    }
    ReadDone(b, bi, acc, nbits, vals, width);
  }

  lemma ReadNothing(width: nat)
    ensures Reading([], 0, 0, [], width)
  {
  }

  lemma ReadDone(b: bytes, bi: nat, acc: nat, nbits: nat, vals: seq<nat>, width: nat)
    requires bi <= |b| && Reading(b[..bi], acc, nbits, vals, width)
    ensures Fit(vals, width) && Holds(b, Packed(vals, width))
  {
    PackedPrefix(b, bi, 8);
  }

  // Unpacking what was packed returns the values.
  lemma UnpackInverse(z: seq<nat>, vals: seq<nat>, width: nat, b: bytes)
    requires |vals| == |z| && Fit(z, width) && Fit(vals, width)
    requires Holds(b, Packed(z, width)) && Holds(b, Packed(vals, width))
    ensures vals == z
  {
    PackedLength(z, width);
    PackedLength(vals, width);
    PackedInjective(z, vals, width);
  }
}
