// Model of frontier/ring.go and frontier/shard.go: the bucketed priority ring and the ready bank of
// rings with work stealing. A ring's meaning is the multiset of its items.
module Rings {
  import opened Wrappers

  const LEVELS: nat := 64

  function Buckets<T(==)>(bs: seq<seq<T>>): multiset<T> {
    if bs == [] then multiset{} else Buckets(bs[..|bs| - 1]) + multiset(bs[|bs| - 1])
  }

  // cs is bs with one more x in bucket b.
  lemma {:induction false} BucketGains<T>(bs: seq<seq<T>>, cs: seq<seq<T>>, b: nat, x: T)
    requires |cs| == |bs| && b < |bs| && multiset(cs[b]) == multiset(bs[b]) + multiset{x}
    requires forall i :: 0 <= i < |bs| && i != b ==> cs[i] == bs[i]
    ensures Buckets(cs) == Buckets(bs) + multiset{x}
  {
    var n := |bs| - 1;
    if b == n {
      assert bs[..n] == cs[..n];
    } else {
      BucketGains(bs[..n], cs[..n], b, x);
    }
  }

  lemma {:induction false} InBuckets<T>(bs: seq<seq<T>>, x: T)
    ensures x in Buckets(bs) <==> exists b :: 0 <= b < |bs| && x in bs[b]
  {
    if bs != [] {
      var n := |bs| - 1;
      InBuckets(bs[..n], x);
      if x in Buckets(bs) {
        if x in multiset(bs[n]) {
          assert x in bs[n];
        } else {
          var b :| 0 <= b < |bs[..n]| && x in bs[..n][b];
          assert x in bs[b];
        }
      }
      if b :| 0 <= b < |bs| && x in bs[b] {
        if b < n {
          assert x in bs[..n][b];
        }
      }
    }
  }

  // The occupancy word is the set of its set bits.
  datatype Ring<T(==)> = Ring(buckets: seq<seq<T>>, occ: set<nat>, n: nat)
  {
    ghost predicate Valid() {
      && |buckets| == LEVELS
      && (forall b :: b in occ <==> 0 <= b < LEVELS && buckets[b] != [])
      && n == |Items()|
    }

    function Items(): multiset<T> {
      Buckets(buckets)
    }

    // The item Pop takes: the front of the highest occupied bucket.
    ghost predicate IsHead(x: T)
      requires Valid()
    {
      exists b :: b in occ && (forall c :: c in occ ==> c <= b) && buckets[b][0] == x
    }

    lemma HeadUnique(x: T, y: T)
      requires Valid() && IsHead(x) && IsHead(y)
      ensures x == y
    {
    }

    function Push(x: T, b: nat): Ring<T>
      requires |buckets| == LEVELS && b < LEVELS
    {
      Ring(buckets[b := buckets[b] + [x]], occ + {b}, n + 1)
    }

    function Take(b: nat): Ring<T>
      requires |buckets| == LEVELS && b < LEVELS && buckets[b] != [] && n > 0
    {
      Ring(buckets[b := buckets[b][1..]], if |buckets[b]| == 1 then occ - {b} else occ, n - 1)
    }

    lemma PushItems(x: T, b: nat)
      requires Valid() && b < LEVELS
      ensures Push(x, b).Valid() && Push(x, b).Items() == Items() + multiset{x}
    {
      var r := Push(x, b);
      BucketGains(buckets, r.buckets, b, x);
    }

    method Add(x: T, b: nat) returns (r: Ring<T>)
      requires Valid() && b < LEVELS
      ensures r.Valid() && r.Items() == Items() + multiset{x}
    {
      PushItems(x, b);
      r := Push(x, b);
    }

    lemma TakeItems(b: nat)
      requires Valid() && b in occ
      ensures n > 0 && Take(b).Valid() && Items() == Take(b).Items() + multiset{buckets[b][0]}
    {
      var x := buckets[b][0];
      assert buckets[b] == [x] + buckets[b][1..];
      InBuckets(buckets, x);
      BucketGains(buckets[b := buckets[b][1..]], buckets, b, x);
    }

    lemma ItemOccupies(x: T)
      requires Valid() && x in Items()
      ensures occ != {}
    {
      InBuckets(buckets, x);
      var b :| 0 <= b < LEVELS && x in buckets[b];
      assert b in occ;
    }

    lemma EmptyItems()
      requires Valid()
      ensures occ == {} <==> Items() == multiset{}
    {
      if x :| x in Items() {
        ItemOccupies(x);
      }
      if b :| b in occ {
        InBuckets(buckets, buckets[b][0]);
      }
    }

    // highest: the highest non-empty bucket, -1 when empty.
    method Highest() returns (b: int)
      requires Valid()
      ensures b == -1 <==> occ == {}
      ensures b >= 0 ==> b in occ && forall c :: c in occ ==> c <= b
      ensures -1 <= b < LEVELS
    {
      b := LEVELS - 1;
      while b >= 0 && b !in occ
        invariant -1 <= b < LEVELS
        invariant forall c :: c in occ ==> c <= b
      {
        b := b - 1;
      }
    }

    method Peek() returns (r: Option<T>)
      requires Valid()
      ensures r.None? <==> Items() == multiset{}
      ensures r.Some? ==> IsHead(r.value) && r.value in Items()
    {
      EmptyItems();
      var b := Highest();
      if b < 0 {
        return None;
      }
      TakeItems(b);
      return Some(buckets[b][0]);
    }

    method Pop() returns (x: Option<T>, r: Ring<T>)
      requires Valid()
      ensures r.Valid()
      ensures x.None? <==> Items() == multiset{}
      ensures x.None? ==> r == this
      ensures x.Some? ==> IsHead(x.value) && Items() == r.Items() + multiset{x.value}
    {
      EmptyItems();
      var b := Highest();
      if b < 0 {
        return None, this;
      }
      TakeItems(b);
      return Some(buckets[b][0]), Take(b);
    }

    // rebucket: move the first copy of x from bucket ob to the end of bucket nb.
    method Rebucket(x: T, ob: nat, nb: nat) returns (r: Ring<T>, moved: bool)
      requires Valid() && ob < LEVELS && nb < LEVELS
      ensures r.Valid() && r.Items() == Items()
      ensures moved <==> ob != nb && x in buckets[ob]
      ensures !moved ==> r == this
    {
      if ob == nb {
        return this, false;
      }
      for i := 0 to |buckets[ob]|
        invariant x !in buckets[ob][..i]
      {
        if buckets[ob][i] == x {
          r := Without(ob, i);
          r.PushItems(x, nb);
          return r.Push(x, nb), true;
        }
      }
      return this, false;
    }

    method Without(b: nat, i: nat) returns (r: Ring<T>)
      requires Valid() && b < LEVELS && i < |buckets[b]|
      ensures r.Valid() && Items() == r.Items() + multiset{buckets[b][i]}
    {
      hide Buckets;
      var bucket := buckets[b];
      var rest := bucket[..i] + bucket[i + 1..];
      assert bucket == bucket[..i] + [bucket[i]] + bucket[i + 1..];
      assert multiset(bucket) == multiset(rest) + multiset{bucket[i]};
      InBuckets(buckets, bucket[i]);
      r := Ring(buckets[b := rest], if rest == [] then occ - {b} else occ, n - 1);
      BucketGains(r.buckets, buckets, b, bucket[i]);
    }
  }

  function EmptyRing<T(==)>(): (r: Ring<T>) {
    Ring(seq(LEVELS, _ => []), {}, 0)
  }

  lemma {:induction false} NoItems<T>(bs: seq<seq<T>>)
    requires forall i :: 0 <= i < |bs| ==> bs[i] == []
    ensures Buckets(bs) == multiset{}
  {
    if bs != [] {
      NoItems(bs[..|bs| - 1]);
    }
  }

  lemma EmptyRingValid<T>()
    ensures EmptyRing<T>().Valid() && EmptyRing<T>().Items() == multiset{}
  {
    NoItems(EmptyRing<T>().buckets);
  }

  // ---- the ready bank ----

  ghost predicate ValidBank<T>(bank: seq<Ring<T>>) {
    forall i :: 0 <= i < |bank| ==> bank[i].Valid()
  }

  function BankItems<T(==)>(bank: seq<Ring<T>>): multiset<T> {
    if bank == [] then multiset{} else BankItems(bank[..|bank| - 1]) + bank[|bank| - 1].Items()
  }

  lemma {:induction false} ShardGains<T>(bank: seq<Ring<T>>, bank': seq<Ring<T>>, i: nat, x: T)
    requires |bank'| == |bank| && i < |bank| && bank'[i].Items() == bank[i].Items() + multiset{x}
    requires forall k :: 0 <= k < |bank| && k != i ==> bank'[k] == bank[k]
    ensures BankItems(bank') == BankItems(bank) + multiset{x}
  {
    hide Ring.Items, Ring.Valid, Buckets;
    var n := |bank| - 1;
    if i == n {
      assert bank[..n] == bank'[..n];
    } else {
      ShardGains(bank[..n], bank'[..n], i, x);
    }
  }

  lemma {:induction false} EmptyBank<T>(bank: seq<Ring<T>>)
    ensures BankItems(bank) == multiset{} <==> forall i :: 0 <= i < |bank| ==> bank[i].Items() == multiset{}
  {
    if bank != [] {
      var n := |bank| - 1;
      EmptyBank(bank[..n]);
      assert bank[n].Items() <= BankItems(bank);
      assert BankItems(bank[..n]) <= BankItems(bank);
      assert forall i :: 0 <= i < n ==> bank[..n][i] == bank[i];
    }
  }

  // push: file a host in its home shard.
  method PushBank(bank: seq<Ring<nat>>, hk: nat, b: nat) returns (r: seq<Ring<nat>>)
    requires ValidBank(bank) && |bank| > 0 && b < LEVELS
    ensures ValidBank(r) && |r| == |bank|
    ensures BankItems(r) == BankItems(bank) + multiset{hk}
  {
    var home := hk % |bank|;
    bank[home].PushItems(hk, b);
    r := bank[home := bank[home].Push(hk, b)];
    ShardGains(bank, r, home, hk);
  }

  // popShard: the head of thread s's own shard, or, when that has drained, the head of the shard
  // with the highest occupied bucket. A thread is turned away only when every shard is empty.
  method PopShard(bank: seq<Ring<nat>>, s: nat) returns (hk: Option<nat>, r: seq<Ring<nat>>)
    requires ValidBank(bank)
    ensures ValidBank(r) && |r| == |bank|
    ensures hk.None? <==> BankItems(bank) == multiset{}
    ensures hk.None? ==> r == bank
    ensures hk.Some? ==> BankItems(bank) == BankItems(r) + multiset{hk.value}
    ensures hk.Some? ==> if OwnWork(bank, s) then bank[s].IsHead(hk.value) else BestHead(bank, hk.value)
  {
    if s < |bank| {
      var x, ring := bank[s].Pop();
      if x.Some? {
        r := bank[s := ring];
        ShardGains(r, bank, s, x.value);
        return x, r;
      }
    }
    hk, r := Steal(bank);
  }

  ghost predicate OwnWork(bank: seq<Ring<nat>>, s: nat) {
    s < |bank| && bank[s].Items() != multiset{}
  }

  // hk heads a shard none of whose siblings holds anything in a higher bucket.
  ghost predicate BestHead(bank: seq<Ring<nat>>, hk: nat)
    requires ValidBank(bank)
  {
    exists i, b ::
      && 0 <= i < |bank| && b in bank[i].occ && bank[i].IsHead(hk)
      && NoneAbove(bank, b)
  }

  ghost predicate NoneAbove(bank: seq<Ring<nat>>, b: int) {
    forall j, c :: 0 <= j < |bank| && c in bank[j].occ ==> c <= b
  }

  method Steal(bank: seq<Ring<nat>>) returns (hk: Option<nat>, r: seq<Ring<nat>>)
    requires ValidBank(bank)
    ensures ValidBank(r) && |r| == |bank|
    ensures hk.None? <==> BankItems(bank) == multiset{}
    ensures hk.None? ==> r == bank
    ensures hk.Some? ==> BankItems(bank) == BankItems(r) + multiset{hk.value} && BestHead(bank, hk.value)
  {
    var best, level := BestShard(bank);
    if best < 0 {
      return None, bank;
    }
    bank[best].EmptyItems();
    var x, ring := bank[best].Pop();
    r := bank[best := ring];
    ShardGains(r, bank, best, x.value);
    return x, r;
  }

  method BestShard(bank: seq<Ring<nat>>) returns (best: int, level: int)
    requires ValidBank(bank)
    ensures best < |bank| && NoneAbove(bank, level)
    ensures if best < 0 then BankItems(bank) == multiset{} else level in bank[best].occ
  {
    best, level := -1, -1;
    for i := 0 to |bank|
      invariant -1 <= best < i && -1 <= level && (best == -1 <==> level == -1)
      invariant best >= 0 ==> level in bank[best].occ
      invariant NoneAbove(bank[..i], level)
    {
      var lvl := bank[i].Highest();
      if lvl > level {
        best, level := i, lvl;
      }
      assert forall j :: 0 <= j < i ==> bank[..i + 1][j] == bank[..i][j];
    }
    assert bank[..|bank|] == bank;
    if best < 0 {
      NothingAnywhere(bank);
    }
  }

  lemma NothingAnywhere(bank: seq<Ring<nat>>)
    requires ValidBank(bank) && NoneAbove(bank, -1)
    ensures BankItems(bank) == multiset{}
  {
    forall j | 0 <= j < |bank|
      ensures bank[j].Items() == multiset{}
    {
      bank[j].EmptyItems();
    }
    EmptyBank(bank);
  }
}
