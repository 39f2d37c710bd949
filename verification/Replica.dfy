// Model of distribute/replicate.go: a standby that loads a snapshot and folds the primary's log tail
// into it. Deliveries may be late, repeated, and out of order within a batch.
module Replica {
  import opened Wrappers
  import opened Sorting

  // A record write or a tombstone, of a URL or of a host.
  datatype Change = PutUrl(url: int, value: int) | PutHost(host: int, data: int) | DelUrl(gone: int) | DelHost(lost: int)
  datatype Tail = Tail(lsn: nat, change: Change)
  datatype Records = Records(urls: map<int, int>, hosts: map<int, int>)

  function Write(r: Records, c: Change): Records {
    match c
    case PutUrl(k, v) => r.(urls := r.urls[k := v])
    case PutHost(k, v) => r.(hosts := r.hosts[k := v])
    case DelUrl(k) => r.(urls := r.urls - {k})
    case DelHost(k) => r.(hosts := r.hosts - {k})
  }

  // The primary's log: entry i carries LSN base + i + 1. Recovery up to an LSN replays a prefix.
  function Recovered(snap: Records, log: seq<Change>, n: nat): Records
    requires n <= |log|
  {
    if n == 0 then snap else Write(Recovered(snap, log, n - 1), log[n - 1])
  }

  ghost predicate FromLog(e: Tail, base: nat, log: seq<Change>) {
    base < e.lsn <= base + |log| && e.change == log[e.lsn - base - 1]
  }

  predicate ByLsn(a: Tail, b: Tail) {
    a.lsn < b.lsn
  }

  lemma LsnOrder()
    ensures StrictWeak(ByLsn)
  {
  }

  function MaxLsn(batch: seq<Tail>, floor: nat): nat {
    if batch == [] then floor
    else
      var e, m := batch[|batch| - 1], MaxLsn(batch[..|batch| - 1], floor);
      if e.lsn > m then e.lsn else m
  }

  // The batch skips no entry between what the replica has and the last entry it carries.
  ghost predicate Gapless(batch: seq<Tail>, applied: nat) {
    forall n :: applied < n <= MaxLsn(batch, applied) ==> Carries(batch, n)
  }

  ghost predicate Carries(batch: seq<Tail>, n: nat) {
    exists e :: e in batch && e.lsn == n
  }

  // What Apply leaves as the applied LSN after the first i entries of a sorted batch.
  function Reached(ordered: seq<Tail>, i: nat, floor: nat): nat
    requires i <= |ordered|
  {
    if i == 0 || ordered[i - 1].lsn < floor then floor else ordered[i - 1].lsn
  }

  class Standby {
    var records: Records
    var applied: nat

    constructor (snap: Records, snapLsn: nat)
      ensures records == snap && applied == snapLsn
    {
      records, applied := snap, snapLsn;
    }

    // Apply: an entry the replica has already, or has passed by, changes nothing.
    method Apply(e: Tail)
      modifies this
      ensures if e.lsn <= old(applied) then records == old(records) && applied == old(applied)
              else records == Write(old(records), e.change) && applied == e.lsn
    {
      if e.lsn <= applied {
        return;
      }
      records := Write(records, e.change);
      applied := e.lsn;
    }

    // The replica is the primary's log recovered up to the last entry it applied.
    ghost predicate IsRecovery(snap: Records, base: nat, log: seq<Change>)
      reads this
    {
      base <= applied <= base + |log| && records == Recovered(snap, log, applied - base)
    }

    // Stream: a batch in any order, with any repetitions, brings the replica to the recovery at its
    // last entry, provided it leaves no gap; a batch of old entries changes nothing.
    method Stream(batch: seq<Tail>, ghost snap: Records, ghost base: nat, ghost log: seq<Change>)
      requires IsRecovery(snap, base, log) && forall e :: e in batch ==> FromLog(e, base, log)
      modifies this
      ensures applied == MaxLsn(batch, old(applied))
      ensures Gapless(batch, old(applied)) ==> IsRecovery(snap, base, log)
      ensures MaxLsn(batch, old(applied)) == old(applied) ==> records == old(records)
    {
      LsnOrder();
      hide StrictWeak, Sorted, Recovered, Gapless, StepsByOne, MaxLsn, Reached;
      var ordered := SortBy(batch, ByLsn);
      PermutationMembers(ordered, batch);
      ghost var gapless, floor := Gapless(batch, applied), applied;
      if gapless {
        GaplessSorted(batch, ordered, floor);
      }
      LastIsMax(batch, ordered, floor);
      ReachedFrom(ordered, floor);
      for i := 0 to |ordered|
        invariant applied == Reached(ordered, i, floor) >= floor
        invariant gapless ==> IsRecovery(snap, base, log)
        invariant applied == floor ==> records == old(records)
      {
        var e := ordered[i];
        assert e in batch && FromLog(e, base, log);
        ReachedNext(ordered, i, floor);
        if gapless && e.lsn > applied {
          NextLsn(ordered, i, floor, applied);
          RecoveredNext(snap, log, applied - base);
        }
        Apply(e);
      }
    }
  }

  lemma ReachedFrom(ordered: seq<Tail>, floor: nat)
    ensures Reached(ordered, 0, floor) == floor
  {
  }

  lemma ReachedNext(ordered: seq<Tail>, i: nat, floor: nat)
    requires i < |ordered| && Sorted(ordered, ByLsn)
    ensures var at := Reached(ordered, i, floor);
      Reached(ordered, i + 1, floor) == if ordered[i].lsn <= at then at else ordered[i].lsn
    ensures Reached(ordered, i + 1, floor) >= floor
  {
    assert i > 0 ==> !ByLsn(ordered[i], ordered[i - 1]);
  }

  lemma RecoveredNext(snap: Records, log: seq<Change>, n: nat)
    requires n < |log|
    ensures Recovered(snap, log, n + 1) == Write(Recovered(snap, log, n), log[n])
  {
  }

  lemma {:induction false} MaxOfBatch(batch: seq<Tail>, floor: nat)
    ensures floor <= MaxLsn(batch, floor) && forall e :: e in batch ==> e.lsn <= MaxLsn(batch, floor)
    ensures MaxLsn(batch, floor) == floor || exists e :: e in batch && e.lsn == MaxLsn(batch, floor)
  {
    if batch != [] {
      var n := |batch| - 1;
      MaxOfBatch(batch[..n], floor);
      assert forall e :: e in batch <==> e in batch[..n] || e == batch[n];
    }
  }

  // Sorted, a gapless batch steps by at most one.
  ghost predicate StepsByOne(s: seq<Tail>, floor: nat) {
    forall i :: 0 <= i < |s| && s[i].lsn > floor + 1 ==> exists j :: 0 <= j < i && s[j].lsn == s[i].lsn - 1
  }

  lemma GaplessSorted(batch: seq<Tail>, ordered: seq<Tail>, floor: nat)
    requires Gapless(batch, floor) && Sorted(ordered, ByLsn) && forall e :: e in ordered <==> e in batch
    ensures StepsByOne(ordered, floor)
  {
    MaxOfBatch(batch, floor);
    forall i | 0 <= i < |ordered| && ordered[i].lsn > floor + 1
      ensures exists j :: 0 <= j < i && ordered[j].lsn == ordered[i].lsn - 1
    {
      assert ordered[i] in batch;
      var n: nat := ordered[i].lsn - 1;
      assert floor < n <= MaxLsn(batch, floor);
      assert Carries(batch, n);
      var e :| e in batch && e.lsn == n;
      assert e in ordered;
      var j :| 0 <= j < |ordered| && ordered[j] == e;
      assert j < i || j > i;
      assert j > i ==> !ByLsn(ordered[j], ordered[i]);
    }
  }

  lemma NextLsn(s: seq<Tail>, i: nat, floor: nat, applied: nat)
    requires i < |s| && Sorted(s, ByLsn) && StepsByOne(s, floor) && s[i].lsn > applied
    requires applied == Reached(s, i, floor)
    ensures s[i].lsn == applied + 1
  {
    if s[i].lsn > applied + 1 {
      var j := OneBefore(s, i, floor);
    }
  }

  lemma OneBefore(s: seq<Tail>, i: nat, floor: nat) returns (j: nat)
    requires i < |s| && Sorted(s, ByLsn) && StepsByOne(s, floor) && s[i].lsn > floor + 1
    ensures j < i && s[j].lsn == s[i].lsn - 1 && s[j].lsn <= s[i - 1].lsn
  {
    j :| 0 <= j < i && s[j].lsn == s[i].lsn - 1;
    hide StepsByOne;
    assert j < i - 1 ==> !ByLsn(s[i - 1], s[j]);
  }

  lemma LastIsMax(batch: seq<Tail>, ordered: seq<Tail>, floor: nat)
    requires Sorted(ordered, ByLsn) && |ordered| == |batch| && forall e :: e in ordered <==> e in batch
    ensures MaxLsn(batch, floor) == Reached(ordered, |ordered|, floor)
  {
    MaxOfBatch(batch, floor);
    if ordered != [] {
      var last := ordered[|ordered| - 1];
      assert last in batch;
      forall e | e in batch
        ensures e.lsn <= last.lsn
      {
        assert e in ordered;
        var j :| 0 <= j < |ordered| && ordered[j] == e;
        assert j < |ordered| - 1 ==> !ByLsn(last, ordered[j]);
      }
    }
  }

  // Every batch begins where the ones before it ended, or earlier.
  ghost predicate NeverSkips(batches: seq<seq<Tail>>, applied: nat) {
    batches == [] || (Gapless(batches[0], applied) && NeverSkips(batches[1..], MaxLsn(batches[0], applied)))
  }

  // The last entry that a run of batches carries, or where it began.
  function Furthest(batches: seq<seq<Tail>>, floor: nat): nat
    decreases |batches|
  {
    if batches == [] then floor else Furthest(batches[1..], MaxLsn(batches[0], floor))
  }

  lemma {:induction false} FurthestIsMax(batches: seq<seq<Tail>>, floor: nat)
    ensures floor <= Furthest(batches, floor) && forall b, e :: b in batches && e in b ==> e.lsn <= Furthest(batches, floor)
    ensures Furthest(batches, floor) == floor || exists b, e :: b in batches && e in b && e.lsn == Furthest(batches, floor)
    decreases |batches|
  {
    if batches != [] {
      MaxOfBatch(batches[0], floor);
      FurthestIsMax(batches[1..], MaxLsn(batches[0], floor));
      assert forall b :: b in batches <==> b == batches[0] || b in batches[1..];
    }
  }

  // Any run of batches that never skips brings the replica to the primary's recovery at the last entry
  // the run carries, however often and in whatever order each batch repeats entries.
  method Follow(r: Standby, snap: Records, base: nat, log: seq<Change>, batches: seq<seq<Tail>>)
    requires r.IsRecovery(snap, base, log) && NeverSkips(batches, r.applied)
    requires forall b, e :: b in batches && e in b ==> FromLog(e, base, log)
    modifies r
    ensures r.IsRecovery(snap, base, log) && r.applied == Furthest(batches, old(r.applied))
  {
    hide Gapless, Recovered;
    ghost var last := Furthest(batches, r.applied);
    assert batches[0..] == batches;
    for i := 0 to |batches|
      invariant r.IsRecovery(snap, base, log)
      invariant NeverSkips(batches[i..], r.applied) && Furthest(batches[i..], r.applied) == last
    {
      assert batches[i] in batches;
      assert batches[i..][1..] == batches[i + 1..];
      MaxOfBatch(batches[i], r.applied);
      r.Stream(batches[i], snap, base, log);
    }
  }

  // An entry that arrives in a later batch than its successor is never applied: the replica has
  // passed it by.
  method LateEntryIsLost(snap: Records, key: int, value: int) returns (r: Standby)
    requires key !in snap.urls
    ensures fresh(r) && r.applied == 2
    ensures var log := [PutUrl(key, value), DelHost(0)];
      !r.IsRecovery(snap, 0, log) && Recovered(snap, log, 2).urls == snap.urls[key := value] && r.records.urls == snap.urls
  {
    ghost var log := [PutUrl(key, value), DelHost(0)];
    assert Recovered(snap, log, 1) == Write(snap, log[0]);
    assert Recovered(snap, log, 2) == Write(Recovered(snap, log, 1), log[1]);
    r := new Standby(snap, 0);
    var second, first := [Tail(2, DelHost(0))], [Tail(1, PutUrl(key, value))];
    assert MaxLsn([], 0) == 0 && second[..0] == [] && first[..0] == [];
    r.Apply(second[0]);
    r.Apply(first[0]);
  }
}
