// Model of format/manifest.go: the catalog of partition ranges, its routing and the check that the
// ranges cover the host keys.
module Manifest {
  import opened Wrappers
  import opened Bytes
  import opened Keys
  import opened Sorting

  const TOP: uint64 := 0xFFFF_FFFF_FFFF_FFFF

  // The last key of a range is part of it.
  datatype Entry = Entry(partition: nat, lo: uint64, hi: uint64, epoch: nat)
  {
    predicate Covers(hk: uint64) {
      lo <= hk <= hi
    }
  }

  predicate Before(a: Entry, b: Entry) {
    if a.lo != b.lo then a.lo < b.lo else a.partition < b.partition
  }

  ghost predicate InOrder(es: seq<Entry>) {
    forall i, j :: 0 <= i < j < |es| ==> es[i].lo <= es[j].lo
  }

  ghost predicate Covered(es: seq<Entry>, hk: uint64) {
    exists i :: 0 <= i < |es| && es[i].Covers(hk)
  }

  // Every host key is in exactly one range.
  ghost predicate Tiles(es: seq<Entry>) {
    && (forall hk: uint64 :: Covered(es, hk))
    && (forall hk: uint64, i, j :: 0 <= i < j < |es| ==> !(es[i].Covers(hk) && es[j].Covers(hk)))
  }

  // BuildManifest
  method BuildManifest(entries: seq<Entry>) returns (es: seq<Entry>)
    ensures Permutation(es, entries) && Sorted(es, Before) && InOrder(es)
  {
    hide StrictWeak;
    BeforeIsOrder();
    es := SortBy(entries, Before);
  }

  lemma BeforeIsOrder()
    ensures StrictWeak(Before)
  {
  }

  // ---- routing ----

  // Entry i is the last that starts at or below the key.
  ghost predicate LastBelow(es: seq<Entry>, hk: uint64, i: int) {
    0 <= i < |es| && es[i].lo <= hk && forall j :: i < j < |es| ==> es[j].lo > hk
  }

  method Route(es: seq<Entry>, hk: uint64) returns (r: Option<Entry>)
    requires InOrder(es)
    ensures r.Some? ==> r.value in es && r.value.Covers(hk)
    ensures forall i :: LastBelow(es, hk, i) && es[i].Covers(hk) ==> r == Some(es[i])
    ensures r.None? ==> forall i :: LastBelow(es, hk, i) ==> !es[i].Covers(hk)
  {
    var los := seq(|es|, i requires 0 <= i < |es| => es[i].lo);
    var i := SearchAtLeast(los, hk + 1);
    assert forall j :: 0 <= j < i ==> es[j].lo == los[j];
    assert forall j :: i <= j < |es| ==> es[j].lo == los[j];
    if i == 0 {
      return None;
    }
    var e := es[i - 1];
    if e.lo <= hk <= e.hi {
      return Some(e);
    }
    return None;
  }

  // ---- coverage ----

  // The entries of one epoch, in the manifest's order.
  function OfEpoch(es: seq<Entry>, epoch: nat): seq<Entry> {
    if es == [] then []
    else OfEpoch(es[..|es| - 1], epoch) + if es[|es| - 1].epoch == epoch then [es[|es| - 1]] else []
  }

  function Next(hi: uint64): uint64 {
    if hi == TOP then 0 else hi + 1
  }

  // Each range starts where the one before it ended, modulo 2^64.
  ghost predicate Linked(s: seq<Entry>) {
    (s != [] ==> s[0].lo == 0) && forall i :: 0 <= i < |s| - 1 ==> s[i + 1].lo == Next(s[i].hi)
  }

  ghost predicate Clean(s: seq<Entry>) {
    s != [] && Linked(s) && s[|s| - 1].hi == TOP
  }

  // CoverageGap: None when it finds neither gap nor overlap.
  method CoverageGap(es: seq<Entry>, epoch: nat) returns (r: Option<(uint64, uint64)>)
    ensures r.None? <==> Clean(OfEpoch(es, epoch))
  {
    var next: uint64, first := 0, true;
    for i := 0 to |es|
      invariant var s := OfEpoch(es[..i], epoch); Linked(s) && (first <==> s == []) && (s != [] ==> next == Next(s[|s| - 1].hi))
    {
      var e := es[i];
      EpochStep(es, epoch, i);
      if e.epoch != epoch {
        continue;
      }
      if first {
        if e.lo != 0 {
          return Some((0, e.lo - 1));
        }
        first := false;
      } else if e.lo != next {
        BrokenLink(es, epoch, i);
        if e.lo > next {
          return Some((next, e.lo - 1));
        }
        return Some((e.lo, next - 1));
      }
      next := Next(e.hi);
    }
    assert es[..|es|] == es;
    if first {
      return Some((0, TOP));
    }
    if next != 0 {
      return Some((next, TOP));
    }
    return None;
  }

  lemma BrokenLink(es: seq<Entry>, epoch: nat, i: nat)
    requires i < |es| && es[i].epoch == epoch
    requires var s := OfEpoch(es[..i], epoch); s != [] && es[i].lo != Next(s[|s| - 1].hi)
    ensures !Linked(OfEpoch(es, epoch))
  {
    var s, all := OfEpoch(es[..i], epoch), OfEpoch(es, epoch);
    EpochStep(es, epoch, i);
    assert s + [es[i]] <= all;
    assert all[|s| - 1 + 1] == es[i] && all[|s| - 1] == s[|s| - 1];
  }

  lemma EpochStep(es: seq<Entry>, epoch: nat, i: nat)
    requires i < |es|
    ensures OfEpoch(es[..i + 1], epoch) == OfEpoch(es[..i], epoch) + if es[i].epoch == epoch then [es[i]] else []
    ensures OfEpoch(es[..i + 1], epoch) <= OfEpoch(es, epoch)
  {
    assert es[..i + 1][..i] == es[..i];
    EpochPrefix(es, epoch, i + 1);
  }

  lemma {:induction false} EpochPrefix(es: seq<Entry>, epoch: nat, i: nat)
    requires i <= |es|
    ensures OfEpoch(es[..i], epoch) <= OfEpoch(es, epoch)
    decreases |es|
  {
    if i < |es| {
      EpochPrefix(es[..|es| - 1], epoch, i);
      assert es[..|es| - 1][..i] == es[..i];
    } else {
      assert es[..i] == es;
    }
  }

  lemma {:induction false} LastBelowExists(s: seq<Entry>, hk: uint64, n: nat) returns (i: int)
    requires InOrder(s) && s != [] && s[0].lo == 0 && n < |s|
    requires forall j :: n < j < |s| ==> s[j].lo > hk
    ensures LastBelow(s, hk, i)
    decreases n
  {
    if s[n].lo <= hk {
      i := n;
    } else {
      i := LastBelowExists(s, hk, n - 1);
    }
  }

  // A clean manifest routes every host key.
  lemma CleanCovers(s: seq<Entry>, hk: uint64) returns (i: int)
    requires InOrder(s) && Clean(s)
    ensures LastBelow(s, hk, i) && s[i].Covers(hk)
  {
    i := LastBelowExists(s, hk, |s| - 1);
    if i < |s| - 1 {
      assert s[i + 1].lo == Next(s[i].hi) && s[i + 1].lo > hk;
    }
  }

  // Only the first range can end at the top before the last one does.
  lemma {:induction false} TopOnlyFirst(s: seq<Entry>, i: nat)
    requires InOrder(s) && Linked(s) && i < |s| - 1 && s[i].hi == TOP
    ensures s[0].hi == TOP
  {
    if i > 0 {
      assert s[i + 1].lo == 0 && s[1].lo <= s[i + 1].lo;
      assert s[1].lo == Next(s[0].hi);
    }
  }

  // What a clean verdict is worth: the ranges tile the key space, unless the first of several ranges
  // is the whole space, when the wrap to zero hides the overlap.
  lemma CleanTilesIff(s: seq<Entry>)
    requires InOrder(s) && Clean(s)
    ensures Tiles(s) <==> |s| == 1 || s[0].hi != TOP
  {
    if |s| > 1 && s[0].hi == TOP {
      assert s[1].lo == Next(s[0].hi);
      assert s[0].Covers(0) && s[1].Covers(0);
    } else {
      forall hk: uint64
        ensures Covered(s, hk)
      {
        var i := CleanCovers(s, hk);
      }
      forall hk: uint64, i, j | 0 <= i < j < |s|
        ensures !(s[i].Covers(hk) && s[j].Covers(hk))
      {
        assert s[i + 1].lo == Next(s[i].hi) && s[i + 1].lo <= s[j].lo;
        if s[i].hi == TOP {
          TopOnlyFirst(s, i);
        }
      }
    }
  }

  // Two partitions that both claim everything pass the check.
  lemma OverlapCalledClean()
    ensures var s := [Entry(0, 0, TOP, 1), Entry(1, 0, TOP, 1)]; InOrder(s) && Clean(s) && !Tiles(s)
  {
    var s := [Entry(0, 0, TOP, 1), Entry(1, 0, TOP, 1)];
    assert s[0].Covers(0) && s[1].Covers(0);
  }

  ghost predicate NonEmptyRanges(s: seq<Entry>) {
    forall i :: 0 <= i < |s| ==> s[i].lo <= s[i].hi
  }

  // In a tiling, no earlier range reaches past the end of a later one.
  lemma TilesEnds(s: seq<Entry>, k: nat, i: nat)
    requires InOrder(s) && NonEmptyRanges(s) && Tiles(s) && k < i < |s|
    ensures s[k].hi < s[i].lo
  {
    assert s[i].Covers(s[i].lo);
    assert !s[k].Covers(s[i].lo);
  }

  // No tiling is refused.
  lemma TilesIsClean(s: seq<Entry>)
    requires InOrder(s) && NonEmptyRanges(s) && Tiles(s)
    ensures Clean(s)
  {
    assert Covered(s, 0);
    var z :| 0 <= z < |s| && s[z].Covers(0);
    assert s[0].lo <= s[z].lo;
    EndsMeet(s, |s| - 1);
    forall i | 0 <= i < |s| - 1
      ensures s[i + 1].lo == Next(s[i].hi)
    {
      EndsMeet(s, i);
    }
  }

  lemma EndsMeet(s: seq<Entry>, i: nat)
    requires InOrder(s) && NonEmptyRanges(s) && Tiles(s) && i < |s|
    ensures if i == |s| - 1 then s[i].hi == TOP else s[i + 1].lo == Next(s[i].hi)
  {
    if i < |s| - 1 {
      TilesEnds(s, i, i + 1);
    }
    if s[i].hi < TOP {
      var h: uint64 := s[i].hi + 1;
      assert Covered(s, h);
      var k :| 0 <= k < |s| && s[k].Covers(h);
      if k < i {
        TilesEnds(s, k, i);
      }
      assert k > i;
      assert s[i + 1].lo <= s[k].lo;
    }
  }

  // The control plane's use of it: a manifest of one epoch that passes the check sends every host
  // key to a partition whose range holds it.
  method CheckedRoute(es: seq<Entry>, epoch: nat, hk: uint64) returns (r: Option<Entry>)
    requires InOrder(es) && forall e :: e in es ==> e.epoch == epoch
    ensures Clean(es) ==> r.Some? && r.value in es && r.value.Covers(hk)
    ensures NonEmptyRanges(es) && Tiles(es) ==> Clean(es)
  {
    hide Clean, Tiles, LastBelow, InOrder, NonEmptyRanges;
    if Clean(es) {
      var i := CleanCovers(es, hk);
    }
    if NonEmptyRanges(es) && Tiles(es) {
      TilesIsClean(es);
    }
    r := Route(es, hk);
  }
}
