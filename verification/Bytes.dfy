// Byte sequences: fixed-width little-endian integers and the unsigned LEB128 varint, the two
// integer forms of format/buf.go and encoding/binary, and the bounds-checked reader.
module Bytes {
  import opened Wrappers

  type byte = b: int | 0 <= b < 256
  type bytes = seq<byte>

  const TWO_16: nat := 0x1_0000
  const TWO_32: nat := 0x1_0000_0000
  const TWO_64: nat := 0x1_0000_0000_0000_0000

  type uint32 = v: int | 0 <= v < 0x1_0000_0000
  type uint64 = v: int | 0 <= v < 0x1_0000_0000_0000_0000

  function Pow256(n: nat): (p: nat)
    ensures p >= 1
  {
    if n == 0 then 1 else 256 * Pow256(n - 1)
  }

  lemma Pow256Words()
    ensures Pow256(1) == 256 && Pow256(2) == TWO_16 && Pow256(4) == TWO_32 && Pow256(8) == TWO_64
  {
    assert Pow256(3) == 256 * TWO_16;
    assert Pow256(6) == TWO_32 * TWO_16;
  }

  // The low n bytes of v, least significant first.
  function LittleEndian(v: nat, n: nat): (b: bytes)
    ensures |b| == n
  {
    if n == 0 then [] else [v % 256] + LittleEndian(v / 256, n - 1)
  }

  function FromLittleEndian(b: bytes): (v: nat)
    ensures v < Pow256(|b|)
  {
    if b == [] then 0 else b[0] + 256 * FromLittleEndian(b[1..])
  }

  lemma {:induction false} LittleEndianRoundTrip(v: nat, n: nat)
    requires v < Pow256(n)
    ensures FromLittleEndian(LittleEndian(v, n)) == v
  {
    if n > 0 {
      LittleEndianRoundTrip(v / 256, n - 1);
      assert LittleEndian(v, n)[1..] == LittleEndian(v / 256, n - 1);
    }
  }

  lemma {:induction false} FromLittleEndianInverse(b: bytes)
    ensures LittleEndian(FromLittleEndian(b), |b|) == b
  {
    if b != [] {
      var rest := FromLittleEndian(b[1..]);
      FromLittleEndianInverse(b[1..]);
      assert (b[0] + 256 * rest) % 256 == b[0] && (b[0] + 256 * rest) / 256 == rest;
      assert b == [b[0]] + b[1..];
    }
  }

  // ---- varints ----

  // binary.AppendUvarint(nil, v)
  function Uvarint(v: nat): (b: bytes)
    ensures b != []
  {
    if v < 128 then [v] else [128 + v % 128] + Uvarint(v / 128)
  }

  // binary.Uvarint(b): the value and the number of bytes it took. None when b ends inside the
  // varint or the value would not fit 64 bits, the cases where Go returns a count <= 0.
  function ReadUvarint(b: bytes): (r: Option<(nat, nat)>)
    ensures r.Some? ==> 0 < r.value.1 <= |b|
  {
    ReadUvarintFrom(b, 0)
  }

  // ReadUvarint with i bytes of the varint already read.
  function ReadUvarintFrom(b: bytes, i: nat): (r: Option<(nat, nat)>)
    ensures r.Some? ==> 0 < r.value.1 <= |b|
  {
    if b == [] || i >= 10 then None
    else if b[0] < 128 then if i == 9 && b[0] > 1 then None else Some((b[0], 1))
    else
      match ReadUvarintFrom(b[1..], i + 1)
      case None => None
      case Some((v, k)) => Some((b[0] - 128 + 128 * v, k + 1))
  }

  // What is left of a 64-bit value after i groups of seven bits.
  function UvarintCap(i: nat): nat {
    if i == 0 then TWO_64 else UvarintCap(i - 1) / 128
  }

  lemma CapAt9()
    ensures UvarintCap(9) == 2
  {
    CapStep(8);
  }

  lemma {:induction false} ReadUvarintFromInverse(v: nat, i: nat, rest: bytes)
    requires i < 10 && v < UvarintCap(i)
    ensures ReadUvarintFrom(Uvarint(v) + rest, i) == Some((v, |Uvarint(v)|))
    decreases v
  {
    var b := Uvarint(v) + rest;
    CapAt9();
    if v >= 128 {
      CapStep(i);
      ReadUvarintFromInverse(v / 128, i + 1, rest);
      assert b[1..] == Uvarint(v / 128) + rest;
    }
  }

  // A varint is read back from the front of any buffer, leaving the rest.
  lemma ReadUvarintInverse(v: nat, rest: bytes)
    requires v < TWO_64
    ensures ReadUvarint(Uvarint(v) + rest) == Some((v, |Uvarint(v)|))
    ensures (Uvarint(v) + rest)[|Uvarint(v)|..] == rest
  {
    ReadUvarintFromInverse(v, 0, rest);
  }

  lemma CapStep(i: nat)
    requires i < 9
    ensures UvarintCap(i) == 128 * UvarintCap(i + 1) && UvarintCap(i) >= 256
  {
    assert UvarintCap(1) == 0x200_0000_0000_0000 && UvarintCap(2) == 0x4_0000_0000_0000;
    assert UvarintCap(3) == 0x800_0000_0000 && UvarintCap(4) == 0x10_0000_0000 && UvarintCap(5) == 0x2000_0000;
    assert UvarintCap(6) == 0x40_0000 && UvarintCap(7) == 0x8000 && UvarintCap(8) == 0x100 && UvarintCap(9) == 2;
  }

  lemma {:induction false} ReadUvarintFromBound(b: bytes, i: nat)
    requires i <= 10
    ensures ReadUvarintFrom(b, i).Some? ==> i < 10 && ReadUvarintFrom(b, i).value.0 < UvarintCap(i)
    decreases |b|
  {
    CapAt9();
    if b != [] && i < 10 && b[0] >= 128 {
      ReadUvarintFromBound(b[1..], i + 1);
    }
    if i < 9 {
      CapStep(i);
    }
  }

  // A varint that is read fits 64 bits.
  lemma ReadUvarintBound(b: bytes)
    requires ReadUvarint(b).Some?
    ensures ReadUvarint(b).value.0 < TWO_64
  {
    ReadUvarintFromBound(b, 0);
  }
}
