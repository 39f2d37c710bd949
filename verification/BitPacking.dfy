// Model of bitWidth, bitpack and bitunpack in format/encoding.go: values at a fixed width, written
// and read one bit at a time. BitStream.Packed is the layout.
module BitPacking {
  import opened Bytes
  import opened BitOps
  import opened BitStream

  // v & (1 << j) != 0
  predicate BitOf(v: nat, j: nat) {
    Shr(v, j) % 2 == 1
  }

  // v | 1 << j
  function SetBit(v: nat, j: nat): nat {
    if j == 0 then (if v % 2 == 1 then v else v + 1) else v % 2 + 2 * SetBit(v / 2, j - 1)
  }

  lemma {:induction false} SetBitBits(v: nat, j: nat, i: nat)
    ensures BitOf(SetBit(v, j), i) <==> i == j || BitOf(v, i)
  {
    var w := SetBit(v, j);
    if j == 0 {
      assert w / 2 == v / 2;
    } else {
      assert w % 2 == v % 2 && w / 2 == SetBit(v / 2, j - 1);
      if i > 0 {
        SetBitBits(v / 2, j - 1, i - 1);
      }
    }
  }

  lemma {:induction false} SetBitBound(v: nat, j: nat, n: nat)
    requires v < Pow2(n) && j < n
    ensures SetBit(v, j) < Pow2(n)
  {
    var half := Pow2(n - 1);
    assert Pow2(n) == 2 * half;
    hide Pow2;
    if j > 0 {
      SetBitBound(v / 2, j - 1, n - 1);
      assert SetBit(v, j) == v % 2 + 2 * SetBit(v / 2, j - 1);
    }
  }

  lemma SetByteBit(v: byte, j: nat)
    requires j < 8
    ensures SetBit(v, j) < 256
  {
    SetBitBound(v, j, 8);
  }

  lemma {:induction false} BitListAt(v: nat, n: nat, j: nat)
    requires j < n
    ensures BitList(v, n)[j] == BitOf(v, j)
  {
    if j > 0 {
      BitListAt(v / 2, n - 1, j - 1);
    }
  }

  // Bit p of a byte stream.
  predicate StreamBit(b: bytes, p: nat)
    requires p < 8 * |b|
  {
    BitOf(b[p / 8], p % 8)
  }

  // The first bits of b are s and the rest are zero.
  ghost predicate Filled(b: bytes, s: seq<bool>, k: nat) {
    && k <= |s| <= 8 * |b|
    && forall p :: 0 <= p < 8 * |b| ==> StreamBit(b, p) == (p < k && s[p])
  }

  lemma FillBit(b: bytes, s: seq<bool>, k: nat)
    requires Filled(b, s, k) && k < |s|
    ensures SetBit(b[k / 8], k % 8) < 256
    ensures s[k] ==> Filled(b[k / 8 := SetBit(b[k / 8], k % 8)], s, k + 1)
    ensures !s[k] ==> Filled(b, s, k + 1)
  {
    SetByteBit(b[k / 8], k % 8);
    if s[k] {
      var c := b[k / 8 := SetBit(b[k / 8], k % 8)];
      forall p | 0 <= p < 8 * |c|
        ensures StreamBit(c, p) == (p < k + 1 && s[p])
      {
        assert StreamBit(b, p) == (p < k && s[p]);
        SetBitBits(b[k / 8], k % 8, p % 8);
      }
    } else {
      assert forall p :: 0 <= p < 8 * |b| ==> StreamBit(b, p) == (p < k + 1 && s[p]);
    }
  }

  lemma {:induction false} ZeroBits(j: nat)
    ensures !BitOf(0, j)
  {
    if j > 0 {
      ZeroBits(j - 1);
    }
  }

  lemma Zeroed(b: bytes, s: seq<bool>)
    requires |s| <= 8 * |b| && forall i :: 0 <= i < |b| ==> b[i] == 0
    ensures Filled(b, s, 0)
  {
    forall p | 0 <= p < 8 * |b|
      ensures !StreamBit(b, p)
    {
      ZeroBits(p % 8);
    }
  }

  // The bits of value i sit at i * width.
  lemma {:induction false} PackedAt(vals: seq<nat>, width: nat, i: nat, j: nat)
    requires i < |vals| && j < width
    ensures i * width + j < |Packed(vals, width)| == |vals| * width
    ensures Packed(vals, width)[i * width + j] == BitOf(vals[i], j)
  {
    PackedLength(vals, width);
    var n := |vals| - 1;
    PackedLength(vals[..n], width);
    BitListAt(vals[n], width, j);
    MulStep(n, width);
    if i < n {
      RowFits(i + 1, n, width);
      MulStep(i, width);
      PackedAt(vals[..n], width, i, j);
    }
  }

  lemma WidthFits(n: nat, width: nat)
    ensures n * width <= 8 * PackedBytes(n, width)
  {
  }

  // bitWidth: the fewest bits that hold v.
  method BitWidth(v: nat) returns (w: nat)
    ensures v < Pow2(w) && (w > 0 ==> Pow2(w - 1) <= v)
    ensures v < TWO_64 ==> w <= 64
  {
    hide Shifted, Pow2;
    w := 0;
    var u := v;
    NotShifted(v);
    while u > 0
      invariant Shifted(v, w, u)
      invariant u == 0 ==> w > 0 ==> Pow2(w - 1) <= v
    {
      HalfStep(u, v, w);
      w := w + 1;
      u := u / 2;
    }
    ShiftedOut(v, w);
  }

  // u is v >> w.
  ghost predicate Shifted(v: nat, w: nat, u: nat) {
    u * Pow2(w) <= v < (u + 1) * Pow2(w)
  }

  lemma NotShifted(v: nat)
    ensures Shifted(v, 0, v)
  {
  }

  lemma ShiftedOut(v: nat, w: nat)
    requires Shifted(v, w, 0)
    ensures v < Pow2(w)
    ensures w > 64 && Pow2(w - 1) <= v ==> v >= TWO_64
  {
    assert (0 + 1) * Pow2(w) == Pow2(w);
    if w > 64 {
      Pow2At64();
      Pow2Mono(64, w - 1);
    }
  }

  lemma HalfStep(u: nat, v: nat, w: nat)
    requires u > 0 && Shifted(v, w, u)
    ensures Shifted(v, w + 1, u / 2)
    ensures u / 2 == 0 ==> Pow2(w) <= v
  {
    Halves(u / 2, u - 2 * (u / 2), Pow2(w));
  }

  lemma Halves(h: nat, r: nat, p: nat)
    requires r < 2
    ensures h * (2 * p) <= (2 * h + r) * p && (2 * h + r + 1) * p <= (h + 1) * (2 * p)
    ensures r == 1 && h == 0 ==> (2 * h + r) * p == p
  {
    assert (2 * h + r) * p == h * (2 * p) + r * p;
    assert (2 * h + r + 1) * p == h * (2 * p) + (r + 1) * p;
    assert (h + 1) * (2 * p) == h * (2 * p) + 2 * p;
    if r == 0 {
      assert r * p == 0 && (r + 1) * p == p;
    } else {
      assert r * p == p && (r + 1) * p == 2 * p;
    }
  }

  // b is vals packed at width bits: nothing at all when the width is zero.
  ghost predicate IsPacked(b: bytes, vals: seq<nat>, width: nat) {
    && |b| == PackedBytes(|vals|, width)
    && Filled(b, Packed(vals, width), |vals| * width)
  }

  lemma EmptyPack(vals: seq<nat>)
    ensures IsPacked([], vals, 0)
  {
    PackedLength(vals, 0);
  }

  method BitPack(vals: seq<nat>, width: nat) returns (b: bytes)
    ensures IsPacked(b, vals, width)
  {
    ghost var s := Packed(vals, width);
    PackedLength(vals, width);
    WidthFits(|vals|, width);
    if width == 0 {
      EmptyPack(vals);
      return [];
    }
    var out := new byte[PackedBytes(|vals|, width)](_ => 0);
    Zeroed(out[..], s);
    var bitpos: nat := 0;
    for i := 0 to |vals|
      invariant bitpos == i * width && Filled(out[..], s, bitpos)
    {
      bitpos := PutValue(out, vals, width, i, s);
      MulStep(i, width);
    }
    b := out[..];
  }

  method PutValue(out: array<byte>, vals: seq<nat>, width: nat, i: nat, ghost s: seq<bool>) returns (bitpos: nat)
    requires i < |vals| && s == Packed(vals, width) && Filled(out[..], s, i * width)
    modifies out
    ensures bitpos == i * width + width && Filled(out[..], s, bitpos)
  {
    hide Filled, Packed, BitOf;
    bitpos := i * width;
    for j := 0 to width
      invariant bitpos == i * width + j && Filled(out[..], s, bitpos)
    {
      PackedAt(vals, width, i, j);
      FilledRange(out[..], s, bitpos);
      FillBit(out[..], s, bitpos);
      if BitOf(vals[i], j) {
        ghost var was := out[..];
        out[bitpos / 8] := SetBit(out[bitpos / 8], bitpos % 8);
        assert out[..] == was[bitpos / 8 := SetBit(was[bitpos / 8], bitpos % 8)];
      }
      bitpos := bitpos + 1;
    }
    PackedEnd(vals, width, i);
  }

  lemma FilledRange(b: bytes, s: seq<bool>, k: nat)
    requires Filled(b, s, k) && k < |s|
    ensures k / 8 < |b|
  {
  }

  lemma PackedEnd(vals: seq<nat>, width: nat, i: nat)
    requires i < |vals|
    ensures i * width + width <= |Packed(vals, width)|
  {
    PackedLength(vals, width);
    MulStep(i, width);
    RowFits(i + 1, |vals|, width);
  }

  // What bitunpack reads: the stream's bits, zero past its end.
  predicate ReadBit(b: bytes, p: nat) {
    p < 8 * |b| && StreamBit(b, p)
  }

  // vals are the values of width bits that the stream begins with.
  ghost predicate Unpacks(b: bytes, vals: seq<nat>, width: nat) {
    && Fit(vals, width)
    && forall i, j :: 0 <= i < |vals| && 0 <= j < width ==> BitOf(vals[i], j) == ReadBit(b, i * width + j)
  }

  // A width above 64, which no encoder writes, loses the bits past the sixty-fourth.
  method BitUnpack(b: bytes, n: nat, width: nat) returns (vals: seq<nat>)
    ensures |vals| == n && (width <= 64 ==> Unpacks(b, vals, width))
  {
    hide ReadBit, BitOf;
    vals := [];
    var bitpos: nat := 0;
    for i := 0 to n
      invariant |vals| == i && bitpos == i * width && (width <= 64 ==> Unpacks(b, vals, width))
    {
      var v: nat := 0;
      for k := 0 to width
        invariant bitpos == i * width + k && v < Pow2(k)
        invariant width <= 64 ==> forall j :: 0 <= j < k ==> BitOf(v, j) == ReadBit(b, i * width + j)
      {
        NextBit(v, k);
        ghost var was := v;
        if k < 64 && ReadBit(b, bitpos) {
          v := v + Pow2(k);
        }
        assert k < 64 ==> BitOf(v, k) == ReadBit(b, i * width + k);
        forall j | 0 <= j < k && width <= 64
          ensures BitOf(v, j) == ReadBit(b, i * width + j)
        {
          assert BitOf(v, j) == BitOf(was, j);
        }
        bitpos := bitpos + 1;
      }
      MulStep(i, width);
      vals := vals + [v];
    }
  }

  // v | 1 << k when v has no bit at or above k.
  lemma NextBit(v: nat, k: nat)
    requires v < Pow2(k)
    ensures v + Pow2(k) < Pow2(k + 1) && BitOf(v + Pow2(k), k) && !BitOf(v, k)
    ensures forall j :: 0 <= j < k ==> BitOf(v + Pow2(k), j) == BitOf(v, j)
  {
    BitListJoin(v, k, 1, 1);
    BitListJoin(v, k, 0, 1);
    assert Pow2(k) * 1 == Pow2(k) && Pow2(k) * 0 == 0;
    var one, none := BitList(v + Pow2(k), k + 1), BitList(v, k + 1);
    assert one == BitList(v, k) + BitList(1, 1) && none == BitList(v, k) + BitList(0, 1);
    BitListAt(v + Pow2(k), k + 1, k);
    BitListAt(v, k + 1, k);
    assert one[k] == BitList(1, 1)[0] && none[k] == BitList(0, 1)[0];
    forall j | 0 <= j < k
      ensures BitOf(v + Pow2(k), j) == BitOf(v, j)
    {
      BitListAt(v + Pow2(k), k + 1, j);
      BitListAt(v, k + 1, j);
    }
  }

  // Unpacking what was packed, from a stream that begins with it, returns the values.
  lemma UnpackPacked(b: bytes, more: bytes, vals: seq<nat>, got: seq<nat>, width: nat)
    requires IsPacked(b, vals, width) && Fit(vals, width) && |got| == |vals|
    requires Unpacks(b + more, got, width)
    ensures got == vals
  {
    forall i | 0 <= i < |vals|
      ensures got[i] == vals[i]
    {
      forall j | 0 <= j < width
        ensures BitOf(got[i], j) == BitOf(vals[i], j)
      {
        PackedAt(vals, width, i, j);
        assert StreamBit(b, i * width + j) == Packed(vals, width)[i * width + j];
      }
      SameBits(got[i], vals[i], width);
    }
  }

  lemma SameBits(v: nat, w: nat, n: nat)
    requires v < Pow2(n) && w < Pow2(n) && forall j :: 0 <= j < n ==> BitOf(v, j) == BitOf(w, j)
    ensures v == w
  {
    forall j | 0 <= j < n
      ensures BitList(v, n)[j] == BitList(w, n)[j]
    {
      BitListAt(v, n, j);
      BitListAt(w, n, j);
    }
    BitListInjective(v, w, n);
  }
}
