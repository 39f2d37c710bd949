// Model of the delta, frame-of-reference and delta-frame-of-reference encodings of
// format/encoding.go, and of the dispatch over all of them.
module DeltaEncoding {
  import opened Wrappers
  import opened Bytes
  import opened Buffers
  import opened BitOps
  import opened BitStream
  import opened BitPacking
  import opened Encoding

  // ---- signed deltas ----

  // int64(u)
  function Signed(u: int): (d: int)
    ensures -MAX_INT <= d < MAX_INT
  {
    var m := u % TWO_64;
    if m < MAX_INT then m else m - TWO_64
  }

  // zigzag of a 64-bit difference: small magnitudes of either sign become small naturals.
  function Zigzag(d: int): (u: nat) {
    if d >= 0 then 2 * d else -2 * d - 1
  }

  function Unzigzag(u: nat): int {
    if u % 2 == 0 then u / 2 else -(u / 2) - 1
  }

  lemma ZigzagInverse(d: int)
    requires -MAX_INT <= d < MAX_INT
    ensures Zigzag(d) < TWO_64 && Unzigzag(Zigzag(d)) == d
  {
  }

  // int64(next) - int64(prev), wrapping, as a zigzag.
  function Step(prev: nat, next: nat): (u: nat)
    ensures u < TWO_64
  {
    Zigzag(Signed(next - prev))
  }

  // uint64(int64(prev) + d)
  function Advance(prev: nat, u: nat): (next: nat)
    ensures next < TWO_64
  {
    (prev + Unzigzag(u)) % TWO_64
  }

  // The difference that wrapped is undone by the addition that wraps back.
  lemma AdvanceStep(prev: nat, next: nat)
    requires prev < TWO_64 && next < TWO_64
    ensures Advance(prev, Step(prev, next)) == next
  {
    ZigzagInverse(Signed(next - prev));
    WrapBack(prev, next);
  }

  lemma WrapBack(prev: int, next: int)
    requires 0 <= prev < TWO_64 && 0 <= next < TWO_64
    ensures (prev + Signed(next - prev)) % TWO_64 == next
  {
    var d := next - prev;
    if d >= 0 {
      assert d % TWO_64 == d;
    } else {
      assert d % TWO_64 == d + TWO_64;
    }
  }

  // The steps between neighbours.
  function Steps(vals: seq<nat>): (us: seq<nat>)
    ensures |us| == if vals == [] then 0 else |vals| - 1
    ensures forall i :: 0 <= i < |us| ==> us[i] == Step(vals[i], vals[i + 1])
  {
    seq(if vals == [] then 0 else |vals| - 1, i requires 0 <= i < |vals| - 1 => Step(vals[i], vals[i + 1]))
  }

  function VarintBytes(us: seq<nat>): bytes {
    if us == [] then [] else Uvarint(us[0]) + VarintBytes(us[1..])
  }

  lemma {:induction false} VarintSnoc(us: seq<nat>, u: nat)
    ensures VarintBytes(us + [u]) == VarintBytes(us) + Uvarint(u)
  {
    hide Uvarint;
    if us == [] {
      assert [u][1..] == [];
    } else {
      VarintSnoc(us[1..], u);
      assert (us + [u])[1..] == us[1..] + [u];
    }
  }

  // The reader stands before varint i of us, with tail after the last one.
  ghost predicate AtVarint(rest: bytes, us: seq<nat>, i: int, tail: bytes) {
    0 <= i <= |us| && rest == VarintBytes(us[i..]) + tail
  }

  method ReadVarint(r: RBuf, ghost us: seq<nat>, ghost i: nat, ghost tail: bytes) returns (u: nat)
    requires r.Valid()
    modifies r
    ensures r.Valid() && (old(r.err) ==> r.err)
    ensures i < |us| && us[i] < TWO_64 && old(!r.err && AtVarint(r.Rest(), us, i, tail)) ==>
      !r.err && u == us[i] && AtVarint(r.Rest(), us, i + 1, tail)
  {
    hide Uvarint, ReadUvarint;
    if i < |us| && us[i] < TWO_64 && AtVarint(r.Rest(), us, i, tail) {
      assert us[i..][1..] == us[i + 1..];
      assert r.Rest() == Uvarint(us[i]) + (VarintBytes(us[i + 1..]) + tail);
      ReadUvarintInverse(us[i], VarintBytes(us[i + 1..]) + tail);
    }
    u := r.Uvarint();
  }

  lemma VarintsDone(rest: bytes, us: seq<nat>, tail: bytes)
    requires AtVarint(rest, us, |us|, tail)
    ensures rest == tail
  {
    assert us[|us|..] == [] && [] + tail == tail;
  }

  // ---- delta ----

  ghost predicate IsDelta(payload: bytes, base: nat, vals: seq<nat>) {
    payload == VarintBytes(Steps(vals)) && base == if vals == [] then 0 else vals[0]
  }

  method EncodeDelta(vals: seq<nat>) returns (payload: bytes, base: nat)
    ensures IsDelta(payload, base, vals)
  {
    hide Step, Uvarint, VarintBytes;
    ghost var us := Steps(vals);
    NoVarints();
    if vals == [] {
      return [], 0;
    }
    base := vals[0];
    payload := [];
    var prev := base;
    assert us[..0] == [];
    for i := 1 to |vals|
      invariant prev == vals[i - 1] && payload == VarintBytes(us[..i - 1])
    {
      VarintSnoc(us[..i - 1], us[i - 1]);
      assert us[..i] == us[..i - 1] + [us[i - 1]];
      payload := payload + Uvarint(Step(prev, vals[i]));
      prev := vals[i];
    }
    assert us[..|us|] == us;
  }

  lemma NoVarints()
    ensures VarintBytes([]) == []
  {
  }

  lemma VarintFront(us: seq<nat>, i: nat)
    requires i < |us| && us[i] < TWO_64
    ensures var b := VarintBytes(us[i..]);
            && ReadUvarint(b) == Some((us[i], |Uvarint(us[i])|))
            && b[|Uvarint(us[i])|..] == VarintBytes(us[i + 1..])
  {
    hide Uvarint, ReadUvarint;
    assert us[i..][1..] == us[i + 1..];
    ReadUvarintInverse(us[i], VarintBytes(us[i + 1..]));
  }

  method DecodeDelta(payload: bytes, n: nat, base: nat, ghost vals: seq<nat>) returns (out: Option<seq<nat>>)
    ensures out.Some? ==> |out.value| == n
    ensures IsDelta(payload, base, vals) && Words(vals) && |vals| == n ==> out == Some(vals)
  {
    hide Steps, VarintBytes;
    ghost var ok := IsDelta(payload, base, vals) && Words(vals) && |vals| == n;
    if n == 0 {
      assert ok ==> vals == [];
      return Some([]);
    }
    var r := new RBuf(payload);
    var all := ReadSteps(r, n, base, vals, ok);
    if r.err {
      return None;
    }
    return Some(all);
  }

  // The reader stands before step i.
  ghost predicate AtStep(rest: bytes, vals: seq<nat>, i: int) {
    0 <= i <= |Steps(vals)| && rest == VarintBytes(Steps(vals)[i..])
  }

  lemma FirstStep(vals: seq<nat>)
    ensures AtStep(VarintBytes(Steps(vals)), vals, 0)
  {
    assert Steps(vals)[0..] == Steps(vals);
  }

  method ReadStep(r: RBuf, prev: nat, ghost vals: seq<nat>, ghost i: nat) returns (next: nat)
    requires r.Valid()
    modifies r
    ensures r.Valid()
    ensures Words(vals) && i + 1 < |vals| && prev == vals[i] && old(!r.err && AtStep(r.Rest(), vals, i)) ==>
      !r.err && AtStep(r.Rest(), vals, i + 1) && next == vals[i + 1]
  {
    hide Step, Advance, Uvarint, ReadUvarint, VarintBytes;
    if Words(vals) && i + 1 < |vals| {
      VarintFront(Steps(vals), i);
      AdvanceStep(vals[i], vals[i + 1]);
    }
    var u := r.Uvarint();
    next := Advance(prev, u);
  }

  method ReadSteps(r: RBuf, n: nat, base: nat, ghost vals: seq<nat>, ghost ok: bool) returns (all: seq<nat>)
    requires r.Valid() && n > 0
    requires ok ==> !r.err && |vals| == n && Words(vals) && base == vals[0] && r.Rest() == VarintBytes(Steps(vals))
    modifies r
    ensures r.Valid() && |all| == n && (ok ==> !r.err && all == vals)
  {
    hide AtStep, Steps, VarintBytes;
    FirstStep(vals);
    all := [base];
    var prev := base;
    for i := 1 to n
      invariant r.Valid() && |all| == i
      invariant ok ==> !r.err && AtStep(r.Rest(), vals, i - 1) && prev == vals[i - 1] && all == vals[..i]
    {
      prev := ReadStep(r, prev, vals, i - 1);
      all := all + [prev];
    }
    assert ok ==> vals[..n] == vals;
  }

  // ---- frame of reference ----

  function Residuals(vals: seq<nat>, base: nat): (res: seq<nat>)
    requires forall i :: 0 <= i < |vals| ==> base <= vals[i]
    ensures |res| == |vals| && forall i :: 0 <= i < |res| ==> res[i] == vals[i] - base
  {
    seq(|vals|, i requires 0 <= i < |vals| => vals[i] - base)
  }

  // packed holds vals above their minimum base, at the least width that holds them all.
  ghost predicate Framed(vals: seq<nat>, base: nat, bw: byte, packed: bytes) {
    && (forall i :: 0 <= i < |vals| ==> base <= vals[i])
    && bw <= 64 && Fit(Residuals(vals, base), bw)
    && IsPacked(packed, Residuals(vals, base), bw)
  }

  ghost predicate Tight(vals: seq<nat>, base: nat, bw: byte) {
    vals != [] ==> base in vals && (bw > 0 ==> exists i :: 0 <= i < |vals| && vals[i] >= base + Pow2(bw - 1))
  }

  method Frame(vals: seq<nat>) returns (base: nat, bw: byte, packed: bytes)
    requires vals != [] && Words(vals)
    ensures Framed(vals, base, bw, packed) && Tight(vals, base, bw) && base < TWO_64
  {
    hide Pow2, IsPacked;
    var top := vals[0];
    base := vals[0];
    ghost var lo, hi := 0, 0;
    for i := 0 to |vals|
      invariant lo < |vals| && base == vals[lo] && hi < |vals| && top == vals[hi]
      invariant forall j :: 0 <= j < i ==> base <= vals[j] <= top
    {
      if vals[i] < base {
        base, lo := vals[i], i;
      }
      if vals[i] > top {
        top, hi := vals[i], i;
      }
    }
    var w := BitWidth(top - base);
    bw := w;
    packed := BitPack(Residuals(vals, base), bw);
    assert vals[hi] == top && (bw > 0 ==> vals[hi] >= base + Pow2(bw - 1));
  }

  // The values above base that packed holds at the front of rest.
  method Unframe(rest: bytes, n: nat, bw: byte, ghost vals: seq<nat>, ghost base: nat) returns (got: seq<nat>)
    ensures |got| == n
    ensures n == |vals| && Framed(vals, base, bw, rest) ==> got == Residuals(vals, base)
  {
    hide IsPacked, Unpacks, Fit;
    got := BitUnpack(rest, n, bw);
    if n == |vals| && Framed(vals, base, bw, rest) {
      assert rest + [] == rest;
      UnpackPacked(rest, [], Residuals(vals, base), got, bw);
    }
  }

  ghost predicate IsFor(payload: bytes, base: nat, vals: seq<nat>) {
    if vals == [] then payload == [] && base == 0
    else exists bw: byte, packed: bytes :: Framed(vals, base, bw, packed) && Tight(vals, base, bw) && payload == [bw] + packed
  }

  method EncodeFOR(vals: seq<nat>) returns (payload: bytes, base: nat)
    requires Words(vals)
    ensures IsFor(payload, base, vals)
  {
    hide Framed, Tight;
    if vals == [] {
      return [], 0;
    }
    var bw, packed;
    base, bw, packed := Frame(vals);
    payload := [bw] + packed;
  }

  method DecodeFOR(payload: bytes, n: nat, base: nat, ghost vals: seq<nat>) returns (out: Option<seq<nat>>)
    ensures out.Some? ==> |out.value| == n
    ensures IsFor(payload, base, vals) && Words(vals) && |vals| == n ==> out == Some(vals)
  {
    hide Framed, Tight;
    ghost var ok := IsFor(payload, base, vals) && Words(vals) && |vals| == n;
    if n == 0 {
      assert ok ==> vals == [];
      return Some([]);
    }
    if payload == [] {
      return None;
    }
    ghost var bw: byte, packed: bytes := payload[0], payload[1..];
    if ok {
      ForParts(payload, base, vals);
    }
    var res := Unframe(payload[1..], n, payload[0], vals, base);
    var all := Rebased(res, base);
    if ok {
      RebasedBack(vals, base, bw, packed, all);
    }
    return Some(all);
  }

  lemma ForParts(payload: bytes, base: nat, vals: seq<nat>)
    requires IsFor(payload, base, vals) && vals != []
    ensures payload != [] && Framed(vals, base, payload[0], payload[1..])
  {
    hide Framed, Tight;
    var bw: byte, packed: bytes :| Framed(vals, base, bw, packed) && Tight(vals, base, bw) && payload == [bw] + packed;
    assert payload[1..] == packed;
  }

  // out[i] = base + v, in 64 bits.
  function Rebased(res: seq<nat>, base: nat): (all: seq<nat>)
    ensures |all| == |res| && forall i :: 0 <= i < |all| ==> all[i] == (base + res[i]) % TWO_64
  {
    seq(|res|, i requires 0 <= i < |res| => (base + res[i]) % TWO_64)
  }

  lemma RebasedBack(vals: seq<nat>, base: nat, bw: byte, packed: bytes, all: seq<nat>)
    requires Framed(vals, base, bw, packed) && Words(vals) && all == Rebased(Residuals(vals, base), base)
    ensures all == vals
  {
    hide Fit, IsPacked;
  }

  // ---- delta, then frame of reference ----

  ghost predicate IsDeltaFor(payload: bytes, base: nat, vals: seq<nat>) {
    if vals == [] then payload == [] && base == 0
    else
      && base == vals[0]
      && exists low: nat, bw: byte, packed: bytes ::
           && low < TWO_64 && Framed(Steps(vals), low, bw, packed) && Tight(Steps(vals), low, bw)
           && payload == [bw] + (Uvarint(low) + packed)
  }

  lemma NothingFramed()
    ensures Framed([], 0, 0, []) && Tight([], 0, 0)
  {
    hide IsPacked, Pow2;
    EmptyPack([]);
    assert Residuals([], 0) == [];
  }

  method EncodeDeltaFOR(vals: seq<nat>) returns (payload: bytes, base: nat)
    ensures IsDeltaFor(payload, base, vals)
  {
    hide Framed, Tight, Step, Uvarint;
    if vals == [] {
      return [], 0;
    }
    base := vals[0];
    var us: seq<nat> := [];
    var prev := base;
    for i := 1 to |vals|
      invariant prev == vals[i - 1] && us == Steps(vals)[..i - 1]
    {
      us := us + [Step(prev, vals[i])];
      prev := vals[i];
    }
    assert us == Steps(vals);
    var low: nat, bw: byte, packed: bytes := 0, 0, [];
    NothingFramed();
    if us != [] {
      low, bw, packed := Frame(us);
    }
    payload := [bw] + (Uvarint(low) + packed);
  }

  lemma DeltaForParts(payload: bytes, base: nat, vals: seq<nat>)
    returns (low: nat, bw: byte, packed: bytes)
    requires IsDeltaFor(payload, base, vals) && vals != []
    ensures base == vals[0] && low < TWO_64 && Framed(Steps(vals), low, bw, packed)
    ensures payload != [] && payload[0] == bw && payload[1..] == Uvarint(low) + packed
    ensures ReadUvarint(payload[1..]) == Some((low, |Uvarint(low)|)) && payload[1..][|Uvarint(low)|..] == packed
  {
    hide Framed, Tight, Steps, Uvarint, ReadUvarint;
    low, bw, packed :| low < TWO_64 && Framed(Steps(vals), low, bw, packed) && Tight(Steps(vals), low, bw)
      && payload == [bw] + (Uvarint(low) + packed);
    assert payload[1..] == Uvarint(low) + packed;
    ReadUvarintInverse(low, packed);
  }

  method DecodeDeltaFOR(payload: bytes, n: nat, base: nat, ghost vals: seq<nat>) returns (out: Option<seq<nat>>)
    ensures out.Some? ==> |out.value| == n
    ensures IsDeltaFor(payload, base, vals) && Words(vals) && |vals| == n ==> out == Some(vals)
  {
    hide IsDeltaFor, Framed, Steps, Uvarint, ReadUvarint;
    ghost var ok := IsDeltaFor(payload, base, vals) && Words(vals) && |vals| == n;
    if n == 0 {
      assert ok ==> vals == [];
      return Some([]);
    }
    ghost var low: nat, bw: byte, packed: bytes := 0, 0, [];
    if ok {
      low, bw, packed := DeltaForParts(payload, base, vals);
    }
    if n == 1 {
      assert ok ==> vals == [base];
      return Some([base]);
    }
    var r := new RBuf(payload);
    var bits := r.U8();
    var dmin := r.Uvarint();
    if r.err {
      return None;
    }
    var res := Unframe(r.Rest(), n - 1, bits, Steps(vals), low);
    var all := Resum(res, dmin, base, n, vals, low, bw, packed, ok);
    return Some(all);
  }

  // res + dmin, in 64 bits
  function Rebased64(v: nat, base: nat): nat {
    (v + base) % TWO_64
  }

  lemma StepBack(vals: seq<nat>, low: nat, bw: byte, packed: bytes, i: nat)
    requires i < |Steps(vals)| && Framed(Steps(vals), low, bw, packed)
    ensures Rebased64(Residuals(Steps(vals), low)[i], low) == Step(vals[i], vals[i + 1])
  {
    hide IsPacked, Fit;
  }

  method Resum(res: seq<nat>, dmin: nat, base: nat, n: nat, ghost vals: seq<nat>, ghost low: nat, ghost bw: byte,
               ghost packed: bytes, ghost ok: bool) returns (all: seq<nat>)
    requires n > 1 && |res| == n - 1
    requires ok ==> |vals| == n && Words(vals) && base == vals[0] && Framed(Steps(vals), low, bw, packed) && dmin == low
    requires ok && Framed(Steps(vals), low, bw, packed) ==> res == Residuals(Steps(vals), low)
    ensures |all| == n && (ok ==> all == vals)
  {
    hide Step, Advance, Framed, Rebased64, Steps;
    all := [base];
    var prev := base;
    for i := 1 to n
      invariant |all| == i && (ok ==> prev == vals[i - 1] && all == vals[..i])
    {
      if ok {
        AdvanceStep(vals[i - 1], vals[i]);
        StepBack(vals, low, bw, packed, i - 1);
      }
      prev := Advance(prev, Rebased64(res[i - 1], dmin));
      all := all + [prev];
    }
  }

  // ---- the cascade ----

  // payload and base stand for vals under encoding enc.
  ghost predicate Encodes(enc: byte, payload: bytes, base: nat, vals: seq<nat>, width: nat) {
    if enc == ENC_RAW then payload == ValueBytes(vals, width)
    else if enc == ENC_RLE then IsRle(payload, vals, width)
    else if enc == ENC_DICT then IsDict(payload, vals, width)
    else if enc == ENC_DELTA then IsDelta(payload, base, vals)
    else if enc == ENC_FOR then IsFor(payload, base, vals)
    else if enc == ENC_DELTA_FOR then IsDeltaFor(payload, base, vals)
    else false
  }

  // encodeValues; an encoding it does not know is written raw.
  method EncodeValues(enc: byte, vals: seq<nat>, width: nat) returns (payload: bytes, base: nat)
    requires Wide(width) && InWidth(vals, width) && |vals| < MAX_INT
    ensures base < TWO_64
    ensures if enc in {ENC_RLE, ENC_DICT, ENC_DELTA, ENC_FOR, ENC_DELTA_FOR} then Encodes(enc, payload, base, vals, width)
            else payload == ValueBytes(vals, width)
  {
    hide IsRle, IsDict, ValueBytes, Framed, VarintBytes;
    WideWords(vals, width);
    base := 0;
    if enc == ENC_RLE {
      payload := EncodeRLE(vals, width);
    } else if enc == ENC_DICT {
      payload := EncodeDict(vals, width);
    } else if enc == ENC_DELTA {
      payload, base := EncodeDelta(vals);
    } else if enc == ENC_FOR {
      payload, base := EncodeFOR(vals);
    } else if enc == ENC_DELTA_FOR {
      payload, base := EncodeDeltaFOR(vals);
    } else {
      payload := WriteValues(vals, width);
    }
  }

  // decodeValues: whatever payload stands for vals under enc gives vals back.
  method DecodeValues(enc: byte, payload: bytes, n: nat, width: nat, base: nat, ghost vals: seq<nat>) returns (out: Option<seq<nat>>)
    requires Wide(width)
    ensures out.Some? && enc != ENC_RAW ==> |out.value| == n
    ensures Encodes(enc, payload, base, vals, width) && InWidth(vals, width) && |vals| == n ==> out == Some(vals)
  {
    hide IsDelta, IsFor, IsDeltaFor, ValueBytes, RunsFit, IsDictOf, Expand;
    WideWordsIf(vals, width);
    if enc == ENC_RAW {
      var got := ReadValues(payload, width);
      RawBack(payload, vals, got, width);
      return Some(got);
    } else if enc == ENC_RLE {
      ghost var runs: seq<Run> := [];
      if IsRle(payload, vals, width) {
        runs :| RunsFit(runs, width) && Maximal(runs) && Expand(runs) == vals && payload == RlePayload(runs, width);
      }
      out := DecodeRLE(payload, n, width, runs);
    } else if enc == ENC_DICT {
      ghost var dict: seq<nat>, codes: seq<nat>, cw: byte, packed: bytes := [], [], 0, [];
      if IsDict(payload, vals, width) {
        dict, codes, cw, packed :| IsDictOf(payload, vals, width, dict, codes, cw, packed);
      }
      out := DecodeDict(payload, n, width, vals, dict, codes, cw, packed);
    } else if enc == ENC_DELTA {
      out := DecodeDelta(payload, n, base, vals);
    } else if enc == ENC_FOR {
      out := DecodeFOR(payload, n, base, vals);
    } else if enc == ENC_DELTA_FOR {
      out := DecodeDeltaFOR(payload, n, base, vals);
    } else {
      out := None;
    }
  }

  lemma WideWordsIf(vals: seq<nat>, width: nat)
    requires Wide(width)
    ensures InWidth(vals, width) ==> Words(vals)
  {
    if InWidth(vals, width) {
      WideWords(vals, width);
    }
  }

  // A raw layout determines its values.
  lemma RawBack(payload: bytes, vals: seq<nat>, got: seq<nat>, width: nat)
    requires width > 0 && |got| == |payload| / width && InWidth(got, width)
    requires ValueBytes(got, width) == payload[..(|payload| / width) * width]
    requires (|payload| / width) * width <= |payload|
    ensures payload == ValueBytes(vals, width) && InWidth(vals, width) ==> got == vals
  {
    if payload == ValueBytes(vals, width) && InWidth(vals, width) {
      ValueBytesLength(vals, width);
      ValueBytesLength(got, width);
      DivExact(|vals|, width);
      assert payload[..|payload|] == payload;
      ValueBytesInjective(vals, got, width);
    }
  }

  lemma DivExact(n: nat, width: nat)
    requires width > 0
    ensures (n * width) / width == n
  {
    DivUnique(n * width, width, n, 0);
  }

  lemma {:induction false} ValueBytesInjective(v: seq<nat>, w: seq<nat>, width: nat)
    requires |v| == |w| && InWidth(v, width) && InWidth(w, width) && ValueBytes(v, width) == ValueBytes(w, width)
    ensures v == w
  {
    hide LittleEndian, FromLittleEndian, Pow256;
    if v != [] {
      var a, b := ValueBytes(v, width), ValueBytes(w, width);
      assert a[..width] == LittleEndian(v[0], width) && b[..width] == LittleEndian(w[0], width);
      assert a[width..] == ValueBytes(v[1..], width) && b[width..] == ValueBytes(w[1..], width);
      LittleEndianRoundTrip(v[0], width);
      LittleEndianRoundTrip(w[0], width);
      ValueBytesInjective(v[1..], w[1..], width);
      assert v == [v[0]] + v[1..] && w == [w[0]] + w[1..];
    }
  }
}
