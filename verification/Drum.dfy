// Model of dedup/drum.go: the exact set as sorted buckets of URL keys, with single-key inserts and
// the batched merge that classifies a whole batch in one pass over each bucket.
module Drum {
  import opened Bytes
  import opened Keys
  import opened BitOps
  import opened Sorting

  ghost predicate Ascending(s: seq<URLKey>) {
    forall i, j :: 0 <= i < j < |s| ==> s[i].Less(s[j])
  }

  predicate KeyLess(a: URLKey, b: URLKey) {
    a.Less(b)
  }

  lemma KeyOrder()
    ensures StrictWeak(KeyLess)
  {
  }

  // ---- what a batch means ----

  // The verdict on one checked key: unique when it was not there before.
  datatype Verdict = Verdict(key: URLKey, unique: bool)

  // Checking and inserting the keys one at a time, the set growing as it goes.
  function OneByOne(held: set<URLKey>, batch: seq<URLKey>): seq<Verdict> {
    if batch == [] then []
    else
      var n := |batch| - 1;
      OneByOne(held, batch[..n]) + [Verdict(batch[n], batch[n] !in held && batch[n] !in batch[..n])]
  }

  ghost function Unique(held: set<URLKey>, batch: seq<URLKey>, k: URLKey): nat {
    if k in batch && k !in held then 1 else 0
  }

  // Of a key's verdicts at most one is unique: the first, when the key was not held.
  lemma {:induction false} VerdictCounts(held: set<URLKey>, batch: seq<URLKey>, k: URLKey)
    ensures multiset(OneByOne(held, batch))[Verdict(k, true)] == Unique(held, batch, k)
    ensures multiset(OneByOne(held, batch))[Verdict(k, false)] == multiset(batch)[k] - Unique(held, batch, k)
  {
    if batch != [] {
      var n := |batch| - 1;
      VerdictCounts(held, batch[..n], k);
      var v := Verdict(batch[n], batch[n] !in held && batch[n] !in batch[..n]);
      assert multiset(OneByOne(held, batch)) == multiset(OneByOne(held, batch[..n])) + multiset{v};
      assert batch == batch[..n] + [batch[n]];
    }
  }

  // ---- sorted runs ----

  // Each key of a strictly ascending run is there once.
  lemma AscendingMember(s: seq<URLKey>, i: nat, k: URLKey)
    requires Ascending(s) && i <= |s|
    requires forall j :: 0 <= j < i ==> s[j].Less(k)
    requires forall j :: i <= j < |s| ==> !s[j].Less(k)
    ensures k in s <==> i < |s| && s[i] == k
  {
    assert forall y :: i < y < |s| ==> s[i].Less(s[y]);
    if k in s {
      var j :| 0 <= j < |s| && s[j] == k;
      assert j >= i;
    }
  }

  // sort.Search for the first key not below k.
  method SearchKey(s: seq<URLKey>, k: URLKey) returns (i: nat)
    requires Ascending(s)
    ensures i <= |s|
    ensures forall j :: 0 <= j < i ==> s[j].Less(k)
    ensures forall j :: i <= j < |s| ==> !s[j].Less(k)
  {
    i := 0;
    var hi := |s|;
    while i < hi
      invariant 0 <= i <= hi <= |s|
      invariant forall j :: 0 <= j < i ==> s[j].Less(k)
      invariant forall j :: hi <= j < |s| ==> !s[j].Less(k)
    {
      var mid := (i + hi) / 2;
      if s[mid].Less(k) {
        i := mid + 1;
      } else {
        hi := mid;
      }
    }
  }

  // mergeSortedRuns of two disjoint ascending runs.
  method MergeSortedRuns(a: seq<URLKey>, b: seq<URLKey>) returns (out: seq<URLKey>)
    requires Ascending(a) && Ascending(b) && forall k :: k in a ==> k !in b
    ensures Ascending(out) && |out| == |a| + |b|
    ensures forall k :: k in out <==> k in a || k in b
  {
    out := [];
    var i: nat, j: nat := 0, 0;
    while i < |a| && j < |b|
      invariant i <= |a| && j <= |b| && |out| == i + j && Ascending(out)
      invariant forall k :: k in out <==> k in a[..i] || k in b[..j]
      invariant forall x :: 0 <= x < |out| ==> (i < |a| ==> out[x].Less(a[i])) && (j < |b| ==> out[x].Less(b[j]))
    {
      assert a[i] in a && b[j] in b;
      if a[i].Less(b[j]) {
        out := out + [a[i]];
        i := i + 1;
      } else {
        assert b[j].Less(a[i]);
        out := out + [b[j]];
        j := j + 1;
      }
    }
    Finish(a, b, out, i, j);
    out := out + a[i..] + b[j..];
  }

  lemma Finish(a: seq<URLKey>, b: seq<URLKey>, out: seq<URLKey>, i: nat, j: nat)
    requires Ascending(a) && Ascending(b) && i <= |a| && j <= |b| && |out| == i + j && Ascending(out)
    requires i == |a| || j == |b|
    requires forall k :: k in out <==> k in a[..i] || k in b[..j]
    requires forall x :: 0 <= x < |out| ==> (i < |a| ==> out[x].Less(a[i])) && (j < |b| ==> out[x].Less(b[j]))
    ensures Ascending(out + a[i..] + b[j..]) && |out + a[i..] + b[j..]| == |a| + |b|
    ensures forall k :: k in out + a[i..] + b[j..] <==> k in a || k in b
  {
    assert a == a[..i] + a[i..] && b == b[..j] + b[j..];
    if i == |a| {
      assert out + a[i..] + b[j..] == out + b[j..];
      Append(out, b, j);
    } else {
      assert out + a[i..] + b[j..] == out + a[i..];
      Append(out, a, i);
    }
  }

  lemma Append(out: seq<URLKey>, b: seq<URLKey>, j: nat)
    requires Ascending(out) && Ascending(b) && j <= |b|
    requires j < |b| ==> forall x :: 0 <= x < |out| ==> out[x].Less(b[j])
    ensures Ascending(out + b[j..])
  {
    forall x, y | 0 <= x < |out| && j <= y < |b|
      ensures out[x].Less(b[y])
    {
      assert out[x].Less(b[j]) && (y > j ==> b[j].Less(b[y]));
    }
  }

  // ---- one bucket ----

  ghost function SetOf(s: seq<URLKey>): set<URLKey> {
    set k | k in s
  }

  // The two-pointer pass of mergeBucket over a sorted run: the verdicts are those of checking the
  // run's keys one by one, and fresh_ are its new keys, ascending.
  method Sweep(disk: seq<URLKey>, run: seq<URLKey>) returns (verdicts: seq<Verdict>, fresh_: seq<URLKey>)
    requires Ascending(disk) && Sorted(run, KeyLess)
    ensures verdicts == OneByOne(SetOf(disk), run)
    ensures Ascending(fresh_) && forall k :: k in fresh_ <==> k in run && k !in disk
  {
    verdicts, fresh_ := [], [];
    var di: nat := 0;
    assert run[..0] == [];
    for i := 0 to |run|
      invariant di <= |disk| && forall j :: 0 <= j < di && i < |run| ==> disk[j].Less(run[i])
      invariant verdicts == OneByOne(SetOf(disk), run[..i])
      invariant Ascending(fresh_) && forall k :: k in fresh_ <==> k in run[..i] && k !in disk
      invariant forall x :: 0 <= x < |fresh_| && i < |run| ==> !run[i].Less(fresh_[x])
    {
      var k := run[i];
      di := Skip(disk, di, k);
      var onDisk := di < |disk| && disk[di] == k;
      AscendingMember(disk, di, k);
      var dup := fresh_ != [] && fresh_[|fresh_| - 1] == k;
      LastIsMember(fresh_, k);
      assert run[..i + 1] == run[..i] + [k];
      assert run[..i + 1][..i] == run[..i];
      FreshBefore(disk, run, i, fresh_);
      verdicts := verdicts + [Verdict(k, !onDisk && !dup)];
      if !onDisk && !dup {
        fresh_ := fresh_ + [k];
      }
      StillBelow(run, i, fresh_, disk, di);
    }
    assert run[..|run|] == run;
  }

  method Skip(disk: seq<URLKey>, di: nat, k: URLKey) returns (d: nat)
    requires Ascending(disk) && di <= |disk| && forall j :: 0 <= j < di ==> disk[j].Less(k)
    ensures di <= d <= |disk| && (forall j :: 0 <= j < d ==> disk[j].Less(k)) && (forall j :: d <= j < |disk| ==> !disk[j].Less(k))
  {
    d := di;
    while d < |disk| && disk[d].Less(k)
      invariant di <= d <= |disk| && forall j :: 0 <= j < d ==> disk[j].Less(k)
    {
      d := d + 1;
    }
    assert forall j :: d < j < |disk| ==> disk[d].Less(disk[j]);
  }

  // The newest key is the only one of the batch's that can equal k.
  lemma LastIsMember(fresh_: seq<URLKey>, k: URLKey)
    requires Ascending(fresh_) && forall x :: 0 <= x < |fresh_| ==> !k.Less(fresh_[x])
    ensures k in fresh_ <==> fresh_ != [] && fresh_[|fresh_| - 1] == k
    ensures k !in fresh_ ==> Ascending(fresh_ + [k])
  {
    assert forall y :: 0 <= y < |fresh_| - 1 ==> fresh_[y].Less(fresh_[|fresh_| - 1]);
    if k in fresh_ {
      var j :| 0 <= j < |fresh_| && fresh_[j] == k;
      assert j == |fresh_| - 1;
    } else {
      forall x | 0 <= x < |fresh_|
        ensures fresh_[x].Less(k)
      {
        assert fresh_[x] in fresh_;
      }
    }
  }

  lemma FreshBefore(disk: seq<URLKey>, run: seq<URLKey>, i: nat, fresh_: seq<URLKey>)
    requires i < |run| && forall k :: k in fresh_ <==> k in run[..i] && k !in disk
    ensures run[i] !in SetOf(disk) && run[i] !in run[..i] <==> run[i] !in disk && run[i] !in fresh_
  {
  }

  lemma StillBelow(run: seq<URLKey>, i: nat, fresh_: seq<URLKey>, disk: seq<URLKey>, di: nat)
    requires i < |run| && Sorted(run, KeyLess) && di <= |disk|
    requires forall j :: 0 <= j < di ==> disk[j].Less(run[i])
    requires forall x :: 0 <= x < |fresh_| ==> !run[i].Less(fresh_[x])
    ensures i + 1 < |run| ==> forall x :: 0 <= x < |fresh_| ==> !run[i + 1].Less(fresh_[x])
    ensures i + 1 < |run| ==> forall j :: 0 <= j < di ==> disk[j].Less(run[i + 1])
  {
    if i + 1 < |run| {
      assert !KeyLess(run[i + 1], run[i]);
    }
  }

  // ---- the buckets ----

  // bucketOf: the high bits of the host key.
  function BucketOf(bits: nat, k: URLKey): nat
    requires bits <= 64
  {
    Shr(k.host, 64 - bits)
  }

  lemma BucketInRange(bits: nat, k: URLKey)
    requires bits <= 64
    ensures BucketOf(bits, k) < Pow2(bits)
  {
    Pow2At64();
    ShrBound(k.host, 64 - bits, bits);
  }

  // Bucket b holds exactly the held keys that belong to it, in order.
  ghost predicate BucketOk(bits: nat, bucket: seq<URLKey>, b: nat, keys: set<URLKey>)
    requires bits <= 64
  {
    Ascending(bucket) && forall k :: k in bucket <==> k in keys && BucketOf(bits, k) == b
  }

  ghost predicate BucketsOk(bits: nat, buckets: seq<seq<URLKey>>, keys: set<URLKey>)
  {
    bits <= 64 && |buckets| == Pow2(bits) && forall b :: 0 <= b < |buckets| ==> BucketOk(bits, buckets[b], b, keys)
  }

  // The keys of a batch that belong to bucket b, in batch order.
  function Routed(bits: nat, batch: seq<URLKey>, b: nat): seq<URLKey>
    requires bits <= 64
  {
    if batch == [] then []
    else
      var n := |batch| - 1;
      Routed(bits, batch[..n], b) + Own(bits, batch[n], b)
  }

  function Own(bits: nat, k: URLKey, b: nat): seq<URLKey>
    requires bits <= 64
  {
    if BucketOf(bits, k) == b then [k] else []
  }

  lemma {:induction false} RoutedCount(bits: nat, batch: seq<URLKey>, b: nat, k: URLKey)
    requires bits <= 64
    ensures multiset(Routed(bits, batch, b))[k] == if BucketOf(bits, k) == b then multiset(batch)[k] else 0
    ensures k in Routed(bits, batch, b) <==> k in batch && BucketOf(bits, k) == b
  {
    hide BucketOf;
    if batch != [] {
      var n := |batch| - 1;
      RoutedCount(bits, batch[..n], b, k);
      assert batch == batch[..n] + [batch[n]];
    }
  }

  // Verdicts on one bucket's run after those on others'.
  ghost predicate VerdictsFor(bits: nat, held: set<URLKey>, batch: seq<URLKey>, done: set<nat>, out: multiset<Verdict>)
    requires bits <= 64
  {
    forall k, u :: out[Verdict(k, u)] ==
      if BucketOf(bits, k) in done then multiset(OneByOne(held, batch))[Verdict(k, u)] else 0
  }

  // Sweeping one bucket's run says of its keys what checking the whole batch one by one says.
  lemma SweepVerdicts(bits: nat, held: set<URLKey>, disk: seq<URLKey>, batch: seq<URLKey>, run: seq<URLKey>, b: nat, k: URLKey, u: bool)
    requires bits <= 64 && BucketOk(bits, disk, b, held) && Permutation(run, Routed(bits, batch, b))
    ensures multiset(OneByOne(SetOf(disk), run))[Verdict(k, u)] ==
      if BucketOf(bits, k) == b then multiset(OneByOne(held, batch))[Verdict(k, u)] else 0
  {
    hide BucketOf, OneByOne, Routed;
    VerdictCounts(SetOf(disk), run, k);
    VerdictCounts(held, batch, k);
    RoutedCount(bits, batch, b, k);
    PermutationMembers(run, Routed(bits, batch, b));
  }

  lemma AddVerdicts(bits: nat, held: set<URLKey>, batch: seq<URLKey>, done: set<nat>, out: multiset<Verdict>,
                    disk: seq<URLKey>, run: seq<URLKey>, b: nat, verdicts: seq<Verdict>)
    requires bits <= 64 && VerdictsFor(bits, held, batch, done, out) && b !in done
    requires BucketOk(bits, disk, b, held) && Permutation(run, Routed(bits, batch, b)) && verdicts == OneByOne(SetOf(disk), run)
    ensures VerdictsFor(bits, held, batch, done + {b}, out + multiset(verdicts))
  {
    hide BucketOf, OneByOne, Routed, BucketOk, Permutation;
    forall k, u
      ensures (out + multiset(verdicts))[Verdict(k, u)] ==
        if BucketOf(bits, k) in done + {b} then multiset(OneByOne(held, batch))[Verdict(k, u)] else 0
    {
      SweepVerdicts(bits, held, disk, batch, run, b, k, u);
      assert out[Verdict(k, u)] == if BucketOf(bits, k) in done then multiset(OneByOne(held, batch))[Verdict(k, u)] else 0;
    }
  }

  lemma AllVerdicts(bits: nat, held: set<URLKey>, batch: seq<URLKey>, done: set<nat>, out: seq<Verdict>)
    requires bits <= 64 && VerdictsFor(bits, held, batch, done, multiset(out))
    requires forall k :: k in batch ==> BucketOf(bits, k) in done
    ensures Permutation(out, OneByOne(held, batch))
  {
    hide BucketOf, OneByOne;
    forall v: Verdict
      ensures multiset(out)[v] == multiset(OneByOne(held, batch))[v]
    {
      VerdictCounts(held, batch, v.key);
      assert v == Verdict(v.key, v.unique);
      assert v.key in batch <==> v.key in multiset(batch);
      assert multiset(out)[Verdict(v.key, v.unique)] ==
        if BucketOf(bits, v.key) in done then multiset(OneByOne(held, batch))[Verdict(v.key, v.unique)] else 0;
    }
  }

  // The keys held once the buckets in done have taken in their part of a batch.
  ghost predicate KeysSoFar(bits: nat, keys: set<URLKey>, held: set<URLKey>, batch: seq<URLKey>, done: set<nat>)
    requires bits <= 64
  {
    forall k :: k in keys <==> k in held || (k in batch && BucketOf(bits, k) in done)
  }

  lemma BucketOfHeld(bits: nat, bucket: seq<URLKey>, keys: set<URLKey>, held: set<URLKey>, batch: seq<URLKey>, done: set<nat>, b: nat)
    requires bits <= 64 && KeysSoFar(bits, keys, held, batch, done) && b !in done && BucketOk(bits, bucket, b, keys)
    ensures BucketOk(bits, bucket, b, held)
  {
    hide BucketOf, Ascending;
  }

  lemma KeysNext(bits: nat, keys: set<URLKey>, held: set<URLKey>, batch: seq<URLKey>, done: set<nat>, b: nat)
    requires bits <= 64 && KeysSoFar(bits, keys, held, batch, done)
    ensures KeysSoFar(bits, keys + SetOf(Routed(bits, batch, b)), held, batch, done + {b})
  {
    hide BucketOf, Routed;
    forall k
      ensures k in keys + SetOf(Routed(bits, batch, b)) <==> k in held || (k in batch && BucketOf(bits, k) in done + {b})
    {
      RoutedCount(bits, batch, b, k);
    }
  }

  // A bucket that takes in new keys of its own keeps the others right.
  lemma BucketGrows(bits: nat, buckets: seq<seq<URLKey>>, keys: set<URLKey>, b: nat, bucket: seq<URLKey>, more: set<URLKey>)
    requires BucketsOk(bits, buckets, keys) && b < |buckets| && Ascending(bucket)
    requires forall k :: k in more ==> BucketOf(bits, k) == b
    requires forall k :: k in bucket <==> k in buckets[b] || k in more
    ensures BucketsOk(bits, buckets[b := bucket], keys + more)
  {
    hide BucketOf, Ascending;
    var grown := buckets[b := bucket];
    forall c | 0 <= c < |grown|
      ensures BucketOk(bits, grown[c], c, keys + more)
    {
      assert BucketOk(bits, buckets[c], c, keys);
    }
  }

  lemma {:induction false} AscendingSize(s: seq<URLKey>)
    requires Ascending(s)
    ensures |SetOf(s)| == |s|
  {
    if s == [] {
      assert SetOf(s) == {};
    } else {
      var n := |s| - 1;
      AscendingSize(s[..n]);
      assert s == s[..n] + [s[n]];
      assert SetOf(s) == SetOf(s[..n]) + {s[n]};
      assert s[n] !in s[..n];
    }
  }

  lemma JoinSizes(a: set<URLKey>, b: set<URLKey>)
    requires a !! b
    ensures |a + b| == |a| + |b|
  {
  }

  lemma InsertAscending(s: seq<URLKey>, i: nat, k: URLKey)
    requires Ascending(s) && i <= |s| && k !in s
    requires (forall j :: 0 <= j < i ==> s[j].Less(k)) && (forall j :: i <= j < |s| ==> !s[j].Less(k))
    ensures Ascending(s[..i] + [k] + s[i..])
    ensures forall x :: x in s[..i] + [k] + s[i..] <==> x in s || x == k
  {
    assert s == s[..i] + s[i..];
    forall j | i <= j < |s|
      ensures k.Less(s[j])
    {
      assert s[j] in s;
    }
  }

  class ExactSet {
    const bits: nat                     // log2 of the bucket count
    var buckets: seq<seq<URLKey>>
    var size: nat
    ghost var keys: set<URLKey>

    ghost predicate Valid()
      reads this
    {
      BucketsOk(bits, buckets, keys) && size == |keys|
    }

    // newExactSet: the bucket count rounded up to a power of two.
    constructor (nBuckets: nat)
      requires nBuckets <= TWO_64
      ensures Valid() && keys == {} && nBuckets <= |buckets| && (bits > 0 ==> Pow2(bits - 1) < nBuckets)
    {
      var n: nat, w: nat := 1, 0;
      Pow2At64();
      assert Pow2(0) == 1;
      while n < nBuckets
        invariant w <= 64 && n == Pow2(w) && (w > 0 ==> Pow2(w - 1) < nBuckets)
        decreases if n < nBuckets then nBuckets - n else 0
      {
        BelowTop(w, nBuckets);
        n := n * 2;
        w := w + 1;
      }
      bits := w;
      buckets := seq(n, _ => []);
      size, keys := 0, {};
    }

    // contains
    method Contains(k: URLKey) returns (yes: bool)
      requires Valid()
      ensures yes == (k in keys)
    {
      hide BucketOf, Ascending;
      BucketInRange(bits, k);
      var b := buckets[BucketOf(bits, k)];
      assert BucketOk(bits, b, BucketOf(bits, k), keys);
      var i := SearchKey(b, k);
      AscendingMember(b, i, k);
      return i < |b| && b[i] == k;
    }

    // add: false when the key is already there.
    method Add(k: URLKey) returns (added: bool)
      requires Valid()
      modifies this
      ensures Valid() && keys == old(keys) + {k} && added == (k !in old(keys))
    {
      hide BucketOf, Ascending;
      BucketInRange(bits, k);
      var idx := BucketOf(bits, k);
      var b := buckets[idx];
      assert BucketOk(bits, b, idx, keys);
      var i := SearchKey(b, k);
      AscendingMember(b, i, k);
      if i < |b| && b[i] == k {
        assert keys + {k} == keys;
        return false;
      }
      InsertAscending(b, i, k);
      BucketGrows(bits, buckets, keys, idx, b[..i] + [k] + b[i..], {k});
      hide BucketsOk;
      buckets := buckets[idx := b[..i] + [k] + b[i..]];
      size := size + 1;
      keys := keys + {k};
      return true;
    }

    // The batch split into per-bucket runs.
    method Route(batch: seq<URLKey>) returns (byBucket: map<nat, seq<URLKey>>)
      requires bits <= 64
      ensures forall b :: b in byBucket ==> b < Pow2(bits) && byBucket[b] == Routed(bits, batch, b)
      ensures forall k :: k in batch ==> BucketOf(bits, k) in byBucket
    {
      hide BucketOf, Own, Routed;
      RoutedNone(bits);
      byBucket := map[];
      assert batch[..0] == [];
      for i := 0 to |batch|
        invariant forall b :: b in byBucket ==> b < Pow2(bits) && byBucket[b] == Routed(bits, batch[..i], b)
        invariant forall b :: b !in byBucket ==> Routed(bits, batch[..i], b) == []
        invariant forall k :: k in batch[..i] ==> BucketOf(bits, k) in byBucket
      {
        BucketInRange(bits, batch[i]);
        var idx := BucketOf(bits, batch[i]);
        assert batch[..i + 1] == batch[..i] + [batch[i]];
        RoutedNext(bits, batch, i);
        OwnBucket(bits, batch[i]);
        byBucket := byBucket[idx := (if idx in byBucket then byBucket[idx] else []) + [batch[i]]];
      }
      assert batch[..|batch|] == batch;
    }

    // mergeBucket: sort the run, sweep it, fold the new keys in.
    method MergeBucket(idx: nat, run: seq<URLKey>) returns (verdicts: seq<Verdict>, ghost sorted: seq<URLKey>)
      requires Valid() && idx < |buckets| && forall k :: k in run ==> BucketOf(bits, k) == idx
      modifies this
      ensures Valid() && |buckets| == old(|buckets|) && keys == old(keys) + SetOf(run)
      ensures Permutation(sorted, run) && verdicts == OneByOne(SetOf(old(buckets[idx])), sorted)
    {
      hide BucketOf, Ascending, OneByOne, Sorted;
      KeyOrder();
      var disk := buckets[idx];
      assert BucketOk(bits, disk, idx, keys);
      var order := SortBy(run, KeyLess);
      sorted := order;
      PermutationMembers(order, run);
      var fresh_;
      verdicts, fresh_ := Sweep(disk, order);
      var bucket := MergeSortedRuns(disk, fresh_);
      FoldIn(bits, buckets, keys, idx, disk, run, fresh_, bucket);
      hide BucketsOk;
      if fresh_ != [] {
        buckets := buckets[idx := bucket];
        size := size + |fresh_|;
      }
      keys := keys + SetOf(run);
    }

    // merge: whatever order the buckets are taken in, the verdicts are those of checking the keys
    // one by one, and the set ends up the same.
    method Merge(batch: seq<URLKey>) returns (out: seq<Verdict>)
      requires Valid()
      modifies this
      ensures Valid() && keys == old(keys) + SetOf(batch)
      ensures Permutation(out, OneByOne(old(keys), batch))
    {
      hide BucketOf, OneByOne, Routed, VerdictsFor, Permutation, Ascending, KeysSoFar;
      var byBucket := Route(batch);
      var left := byBucket.Keys;
      ghost var done: set<nat> := {};
      ghost var held := keys;
      out := [];
      NothingDone(bits, held, batch);
      while left != {}
        invariant Valid() && |buckets| == Pow2(bits) && left <= byBucket.Keys && left + done == byBucket.Keys && left !! done
        invariant KeysSoFar(bits, keys, held, batch, done) && VerdictsFor(bits, held, batch, done, multiset(out))
        decreases left
      {
        var b :| b in left;
        RoutedTo(bits, batch, b);
        BucketOfHeld(bits, buckets[b], keys, held, batch, done, b);
        KeysNext(bits, keys, held, batch, done, b);
        ghost var disk := buckets[b];
        var verdicts;
        ghost var sorted;
        verdicts, sorted := MergeBucket(b, byBucket[b]);
        AddVerdicts(bits, held, batch, done, multiset(out), disk, sorted, b, verdicts);
        out := out + verdicts;
        done := done + {b};
        left := left - {b};
      }
      KeysAll(bits, keys, held, batch, done);
      AllVerdicts(bits, held, batch, done, out);
    }
  }

  lemma BelowTop(w: nat, n: nat)
    requires w <= 64 && Pow2(w) < n <= TWO_64
    ensures w < 64
  {
    Pow2At64();
  }

  lemma RoutedNone(bits: nat)
    requires bits <= 64
    ensures forall b :: Routed(bits, [], b) == []
  {
  }

  lemma OwnBucket(bits: nat, k: URLKey)
    requires bits <= 64
    ensures forall b :: Own(bits, k, b) == if b == BucketOf(bits, k) then [k] else []
  {
    hide BucketOf;
  }

  lemma RoutedNext(bits: nat, batch: seq<URLKey>, i: nat)
    requires bits <= 64 && i < |batch|
    ensures forall b :: Routed(bits, batch[..i + 1], b) == Routed(bits, batch[..i], b) + Own(bits, batch[i], b)
  {
    hide BucketOf, Own;
    assert batch[..i + 1][..i] == batch[..i];
  }

  lemma RoutedTo(bits: nat, batch: seq<URLKey>, b: nat)
    requires bits <= 64
    ensures forall k :: k in Routed(bits, batch, b) ==> BucketOf(bits, k) == b
  {
    hide BucketOf, Routed;
    forall k | k in Routed(bits, batch, b)
      ensures BucketOf(bits, k) == b
    {
      RoutedCount(bits, batch, b, k);
    }
  }

  lemma NothingDone(bits: nat, held: set<URLKey>, batch: seq<URLKey>)
    requires bits <= 64
    ensures KeysSoFar(bits, held, held, batch, {}) && VerdictsFor(bits, held, batch, {}, multiset{})
  {
  }

  lemma KeysAll(bits: nat, keys: set<URLKey>, held: set<URLKey>, batch: seq<URLKey>, done: set<nat>)
    requires bits <= 64 && KeysSoFar(bits, keys, held, batch, done)
    requires forall k :: k in batch ==> BucketOf(bits, k) in done
    ensures keys == held + SetOf(batch)
  {
    hide BucketOf;
  }

  // The new keys join their bucket, and the count rises by exactly their number.
  lemma FoldIn(bits: nat, buckets: seq<seq<URLKey>>, keys: set<URLKey>, idx: nat, disk: seq<URLKey>, run: seq<URLKey>,
               fresh_: seq<URLKey>, bucket: seq<URLKey>)
    requires BucketsOk(bits, buckets, keys) && idx < |buckets| && disk == buckets[idx]
    requires forall k :: k in run ==> BucketOf(bits, k) == idx
    requires Ascending(fresh_) && forall k :: k in fresh_ <==> k in run && k !in disk
    requires Ascending(bucket) && forall k :: k in bucket <==> k in disk || k in fresh_
    ensures BucketsOk(bits, buckets[idx := bucket], keys + SetOf(run))
    ensures fresh_ == [] ==> BucketsOk(bits, buckets, keys + SetOf(run))
    ensures |keys + SetOf(run)| == |keys| + |fresh_|
  {
    hide BucketOf, Ascending;
    assert BucketOk(bits, disk, idx, keys);
    forall k
      ensures k in keys + SetOf(run) <==> k in keys + SetOf(fresh_)
    {
    }
    assert keys + SetOf(run) == keys + SetOf(fresh_);
    AscendingSize(fresh_);
    JoinSizes(keys, SetOf(fresh_));
    BucketGrows(bits, buckets, keys, idx, bucket, SetOf(fresh_));
    if fresh_ == [] {
      assert keys + SetOf(fresh_) == keys;
    }
  }
}
