// Model of format/buf.go: the bounds-checked reader. A read past the end sets the error, after
// which every read returns zero and moves nothing.
module Buffers {
  import opened Wrappers
  import opened Bytes

  class RBuf {
    const b: bytes
    var pos: nat
    var err: bool

    ghost predicate Valid()
      reads this
    {
      pos <= |b|
    }

    // What is left to read.
    function Rest(): (s: bytes)
      requires Valid()
      reads this
      ensures |s| == |b| - pos
    {
      b[pos..]
    }

    constructor (b: bytes)
      ensures Valid() && this.b == b && Rest() == b && !err
    {
      this.b, pos, err := b, 0, false;
      new;
      assert b[0..] == b;
    }

    // bytes, and through it u8, u32 and u64.
    method Bytes(n: nat) returns (s: bytes)
      requires Valid()
      modifies this
      ensures Valid() && err == (old(err) || n > old(|Rest()|))
      ensures !err ==> s == old(Rest()[..n]) && Rest() == old(Rest()[n..])
      ensures err ==> s == [] && pos == old(pos)
    {
      if err || pos + n > |b| {
        err := true;
        return [];
      }
      s := b[pos..pos + n];
      pos := pos + n;
    }

    // A fixed-width little-endian integer of n bytes.
    method Uint(n: nat) returns (v: nat)
      requires Valid()
      modifies this
      ensures Valid() && err == (old(err) || n > old(|Rest()|)) && v < Pow256(n)
      ensures !err ==> v == FromLittleEndian(old(Rest()[..n])) && Rest() == old(Rest()[n..])
      ensures err ==> v == 0 && pos == old(pos)
    {
      var s := Bytes(n);
      return if err then 0 else FromLittleEndian(s);
    }

    method U8() returns (v: byte)
      requires Valid()
      modifies this
      ensures Valid() && err == (old(err) || old(Rest()) == [])
      ensures !err ==> v == old(Rest()[0]) && Rest() == old(Rest()[1..])
      ensures err ==> v == 0 && pos == old(pos)
    {
      var s := Bytes(1);
      return if err then 0 else s[0];
    }

    method Uvarint() returns (v: uint64)
      requires Valid()
      modifies this
      ensures Valid() && err == (old(err) || ReadUvarint(old(Rest())).None?)
      ensures !err ==> v == ReadUvarint(old(Rest())).value.0 && Rest() == old(Rest()[ReadUvarint(Rest()).value.1..])
      ensures err ==> v == 0 && pos == old(pos)
    {
      if err {
        return 0;
      }
      var r := ReadUvarint(Rest());
      match r {
        case None =>
          err := true;
          return 0;
        case Some((u, k)) =>
          ReadUvarintBound(Rest());
          pos := pos + k;
          return u;
      }
    }
  }
}
