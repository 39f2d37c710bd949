// Model of distribute/map.go: jump consistent hashing and the owner lookup.
module PartitionMap {
  import opened Bytes

  // The jump computed from the next bucket b + 1 and the 31 high bits of the evolved key. The code
  // computes (b+1) * (2^31 / (r+1)) in float64; all that matters is that it never falls below b + 1.
  datatype Stepper = Stepper(jump: (nat, nat) -> nat)
  {
    ghost predicate Advances() {
      forall next, r :: jump(next, r) >= next
    }
  }

  // The jump in exact arithmetic.
  function ExactJump(next: nat, r: nat): nat {
    if r < 0x8000_0000 then next * 0x8000_0000 / (r + 1) else next
  }

  lemma ExactJumpAdvances()
    ensures Stepper(ExactJump).Advances()
  {
    forall next: nat, r: nat | r < 0x8000_0000
      ensures ExactJump(next, r) >= next
    {
      ScaleUp(next, r + 1, 0x8000_0000);
    }
  }

  lemma ScaleUp(x: nat, d: nat, m: nat)
    requires 0 < d <= m
    ensures x * m / d >= x
  {
    var q, r := x * m / d, x * m % d;
    assert x * m == d * q + r;
    assert d * (q + 1) == d * q + d;
    MulMono(x, d, m);
    if q < x {
      MulMono(d, q + 1, x);
    }
  }

  lemma {:induction false} MulMono(x: nat, y: nat, z: nat)
    requires y <= z
    ensures x * y <= x * z
    decreases z
  {
    if y < z {
      MulMono(x, y, z - 1);
      assert x * z == x * (z - 1) + x;
    }
  }

  function Evolve(key: uint64): uint64 {
    (key * 2862933555777941757 + 1) % 0x1_0000_0000_0000_0000
  }

  // The bucket reached from bucket b when the key's next jump lands on j.
  function JumpFrom(s: Stepper, key: uint64, b: nat, j: nat, n: nat): nat
    requires s.Advances()
    decreases n - j
  {
    if j >= n then b
    else
      var k := Evolve(key);
      JumpFrom(s, k, j, s.jump(j + 1, k / 0x2_0000_0000), n)
  }

  function Bucket(s: Stepper, key: uint64, n: int): nat
    requires s.Advances()
  {
    if n <= 1 then 0 else JumpFrom(s, key, 0, 0, n)
  }

  method JumpHash(s: Stepper, key: uint64, n: int) returns (bucket: nat)
    requires s.Advances()
    ensures bucket == Bucket(s, key, n) && (n >= 1 ==> bucket < n)
  {
    if n >= 1 {
      BucketInRange(s, key, n);
    }
    if n <= 1 {
      return 0;
    }
    var k, j := key, 0;
    bucket := 0;
    while j < n
      invariant j >= 0
      invariant JumpFrom(s, k, bucket, j, n) == Bucket(s, key, n)
      decreases n - j
    {
      bucket := j;
      k := Evolve(k);
      j := s.jump(bucket + 1, k / 0x2_0000_0000);
    }
  }

  lemma {:induction false} JumpInRange(s: Stepper, key: uint64, b: nat, j: nat, n: nat)
    requires s.Advances() && b < n
    ensures JumpFrom(s, key, b, j, n) < n
    decreases n - j
  {
    if j < n {
      var k := Evolve(key);
      JumpInRange(s, k, j, s.jump(j + 1, k / 0x2_0000_0000), n);
    }
  }

  lemma BucketInRange(s: Stepper, key: uint64, n: nat)
    requires s.Advances() && n >= 1
    ensures Bucket(s, key, n) < n
  {
    if n > 1 {
      JumpInRange(s, key, 0, 0, n);
    }
  }

  // The walks for n and for m >= n agree until one leaves [0, n), so they stop at the same bucket or
  // the longer walk stops at n or beyond.
  lemma {:induction false} JumpConsistent(s: Stepper, key: uint64, b: nat, j: nat, n: nat, m: nat)
    requires s.Advances() && b < n <= m
    ensures JumpFrom(s, key, b, j, m) < n ==> JumpFrom(s, key, b, j, n) == JumpFrom(s, key, b, j, m)
    decreases n - j
  {
    if j < n {
      var k := Evolve(key);
      JumpConsistent(s, k, j, s.jump(j + 1, k / 0x2_0000_0000), n, m);
    } else if j < m {
      JumpAtLeast(s, key, b, j, m);
    }
  }

  lemma {:induction false} JumpAtLeast(s: Stepper, key: uint64, b: nat, j: nat, m: nat)
    requires s.Advances() && j < m
    ensures JumpFrom(s, key, b, j, m) >= j
    decreases m - j
  {
    var k := Evolve(key);
    var j' := s.jump(j + 1, k / 0x2_0000_0000);
    if j' < m {
      JumpAtLeast(s, k, j, j', m);
    }
  }

  datatype Map = Map(partitions: nat, overrides: map<uint64, nat>)
  {
    function Owner(s: Stepper, host: uint64): nat
      requires s.Advances()
    {
      if host in overrides then overrides[host] else Bucket(s, host, partitions)
    }
  }

  // Growing the fleet moves a host only onto a new partition, and never moves a pinned one.
  lemma GrowthMovesOntoNew(s: Stepper, m: Map, partitions: nat, host: uint64)
    requires s.Advances() && 1 <= m.partitions <= partitions
    ensures
      var m' := m.(partitions := partitions);
      m'.Owner(s, host) == m.Owner(s, host) || (host !in m.overrides && m.partitions <= m'.Owner(s, host) < partitions)
  {
    BucketInRange(s, host, m.partitions);
    BucketInRange(s, host, partitions);
    if m.partitions == 1 {
      if partitions > 1 {
        JumpConsistent(s, host, 0, 0, 1, partitions);
      }
    } else {
      JumpConsistent(s, host, 0, 0, m.partitions, partitions);
    }
  }
}
