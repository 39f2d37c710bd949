// Model of frontier/wheel.go: a hashed timing wheel over epoch-hours with an overflow heap for the
// entries past its horizon. The wheel implements a multiset of (effective hour, key) pairs.
module Wheel {
  import opened MinHeap

  const WHEEL_SPAN: nat := 1024
  // Hours stay clear of the top of the 32-bit range, so no cursor arithmetic wraps.
  const MAX_HOUR: nat := 0xFFFF_FFFF - 2048

  datatype OverItem<K> = OverItem(due: nat, key: K)

  function Due<K>(it: OverItem<K>): nat {
    it.due
  }

  function Slot(h: nat): (b: nat)
    ensures b < WHEEL_SPAN
  {
    h % WHEEL_SPAN
  }

  // The buckets of the hours c, c + 1, ... in that order.
  ghost function View<K>(ring: seq<seq<K>>, c: nat): (v: seq<seq<K>>)
    requires |ring| == WHEEL_SPAN
    ensures |v| == |ring| && forall i :: 0 <= i < |v| ==> v[i] == ring[Slot(c + i)]
  {
    seq(|ring|, i requires 0 <= i < |ring| => ring[Slot(c + i)])
  }

  // The entries of one bucket, all due at hour h.
  ghost function At<K>(h: nat, ks: seq<K>): multiset<OverItem<K>> {
    if ks == [] then multiset{} else At(h, ks[..|ks| - 1]) + multiset{OverItem(h, ks[|ks| - 1])}
  }

  // The entries of consecutive buckets, the first due at hour h.
  ghost function Items<K>(v: seq<seq<K>>, h: nat): multiset<OverItem<K>> {
    if v == [] then multiset{} else At(h, v[0]) + Items(v[1..], h + 1)
  }

  function Keys<K>(s: seq<OverItem<K>>): (ks: seq<K>)
    ensures |ks| == |s|
  {
    seq(|s|, i requires 0 <= i < |s| => s[i].key)
  }

  ghost predicate InHourOrder<K>(s: seq<OverItem<K>>) {
    forall i, j :: 0 <= i < j < |s| ==> s[i].due <= s[j].due
  }

  lemma {:induction false} AtFacts<K>(h: nat, ks: seq<K>)
    ensures |At(h, ks)| == |ks|
    ensures forall it :: it in At(h, ks) ==> it.due == h
  {
    if ks != [] {
      AtFacts(h, ks[..|ks| - 1]);
    }
  }

  lemma AtSnoc<K>(h: nat, ks: seq<K>, k: K)
    ensures At(h, ks + [k]) == At(h, ks) + multiset{OverItem(h, k)}
  {
    assert (ks + [k])[..|ks|] == ks;
  }

  lemma {:induction false} ItemsFacts<K>(v: seq<seq<K>>, h: nat)
    ensures forall it :: it in Items(v, h) ==> h <= it.due < h + |v|
    ensures |Items(v, h)| == 0 <==> forall i :: 0 <= i < |v| ==> v[i] == []
  {
    if v != [] {
      AtFacts(h, v[0]);
      ItemsFacts(v[1..], h + 1);
      assert forall i :: 0 < i < |v| ==> v[i] == v[1..][i - 1];
    }
  }

  lemma ItemsHead<K>(v: seq<seq<K>>, h: nat)
    requires v != []
    ensures Items(v, h) == At(h, v[0]) + Items(v[1..], h + 1)
  {
  }

  // w is v with k appended to its bucket i.
  lemma {:induction false} ItemsAdd<K>(v: seq<seq<K>>, w: seq<seq<K>>, h: nat, i: nat, k: K)
    requires i < |v| == |w| && w[i] == v[i] + [k]
    requires forall j :: 0 <= j < |v| && j != i ==> w[j] == v[j]
    ensures Items(w, h) == Items(v, h) + multiset{OverItem(h + i, k)}
  {
    hide Items, At;
    ItemsHead(v, h);
    ItemsHead(w, h);
    if i == 0 {
      AtSnoc(h, v[0], k);
      assert w[1..] == v[1..];
    } else {
      assert w[1..][i - 1] == v[1..][i - 1] + [k];
      ItemsAdd(v[1..], w[1..], h + 1, i - 1, k);
      assert h + 1 + (i - 1) == h + i;
    }
  }

  lemma {:induction false} ItemsSnocEmpty<K>(v: seq<seq<K>>, h: nat)
    ensures Items(v + [[]], h) == Items(v, h)
  {
    if v == [] {
      assert (v + [[]])[1..] == [];
    } else {
      ItemsSnocEmpty(v[1..], h + 1);
      assert (v + [[]])[1..] == v[1..] + [[]];
    }
  }

  // The first non-empty bucket holds the earliest entries.
  lemma {:induction false} FirstBucket<K>(v: seq<seq<K>>, h: nat, i: nat)
    requires i < |v| && v[i] != [] && forall j :: 0 <= j < i ==> v[j] == []
    ensures exists it :: it in Items(v, h) && it.due == h + i
    ensures forall it :: it in Items(v, h) ==> h + i <= it.due
  {
    if i > 0 {
      FirstBucket(v[1..], h + 1, i - 1);
    } else {
      assert OverItem(h, v[0][|v[0]| - 1]) in At(h, v[0]);
      ItemsFacts(v, h);
    }
  }

  lemma SlotApart(d: nat, e: nat)
    requires Slot(d) == Slot(e) && d < e + WHEEL_SPAN && e < d + WHEEL_SPAN
    ensures d == e
  {
  }

  lemma ViewUpdate<K>(ring: seq<seq<K>>, c: nat, d: nat, ks: seq<K>)
    requires |ring| == WHEEL_SPAN && c <= d < c + WHEEL_SPAN
    ensures View(ring[Slot(d) := ks], c) == View(ring, c)[d - c := ks]
  {
    var v, w := View(ring[Slot(d) := ks], c), View(ring, c)[d - c := ks];
    forall i | 0 <= i < |v|
      ensures v[i] == w[i]
    {
      if Slot(c + i) == Slot(d) {
        SlotApart(c + i, d);
      }
    }
  }

  // The bucket just fired is the one that the new last hour will use.
  lemma ViewAdvance<K>(ring: seq<seq<K>>, c: nat)
    requires |ring| == WHEEL_SPAN
    ensures View(ring[Slot(c) := []], c + 1) == View(ring, c)[1..] + [[]]
  {
    var v, w := View(ring, c), View(ring[Slot(c) := []], c + 1);
    forall i | 0 <= i < WHEEL_SPAN
      ensures w[i] == (v[1..] + [[]])[i]
    {
      assert i < WHEEL_SPAN - 1 ==> Slot(c + 1 + i) != Slot(c);
      assert i == WHEEL_SPAN - 1 ==> Slot(c + 1 + i) == Slot(c);
    }
  }

  // Firing the cursor's hour takes exactly that bucket's entries.
  lemma Fire<K>(ring: seq<seq<K>>, c: nat)
    requires |ring| == WHEEL_SPAN
    ensures Items(View(ring, c), c) == At(c, ring[Slot(c)]) + Items(View(ring[Slot(c) := []], c + 1), c + 1)
  {
    ViewAdvance(ring, c);
    ItemsSnocEmpty(View(ring, c)[1..], c + 1);
  }

  // The hour of the window starting at c that bucket b serves.
  lemma HourOf(c: nat, b: nat) returns (i: nat)
    requires b < WHEEL_SPAN
    ensures i < WHEEL_SPAN && Slot(c + i) == b
  {
    i := if Slot(c) <= b then b - Slot(c) else b + WHEEL_SPAN - Slot(c);
  }

  // An empty window can start anywhere.
  lemma Restart<K>(ring: seq<seq<K>>, c: nat, c': nat)
    requires |ring| == WHEEL_SPAN && |Items(View(ring, c), c)| == 0
    ensures Items(View(ring, c), c) == Items(View(ring, c'), c') == multiset{}
  {
    ItemsFacts(View(ring, c), c);
    forall b | 0 <= b < WHEEL_SPAN
      ensures ring[b] == []
    {
      var i := HourOf(c, b);
      assert View(ring, c)[i] == ring[b];
    }
    ItemsFacts(View(ring, c'), c');
  }

  class DueWheel<K(==)> {
    var cursor: nat              // hours before it have fired
    const ring: array<seq<K>>    // a key due at hour h waits in ring[Slot(h)]
    var over: seq<OverItem<K>>   // the far-future heap
    var ringCount: nat

    ghost function RingItems(): multiset<OverItem<K>>
      reads this, ring
      requires ring.Length == WHEEL_SPAN
    {
      Items(View(ring[..], cursor), cursor)
    }

    // What the wheel is waiting to fire.
    ghost function Pending(): multiset<OverItem<K>>
      reads this, ring
      requires ring.Length == WHEEL_SPAN
    {
      RingItems() + multiset(over)
    }

    ghost predicate Shape()
      reads this, ring
    {
      && ring.Length == WHEEL_SPAN && cursor <= MAX_HOUR + 1
      && IsHeap(over, Due<K>)
      && ringCount == |RingItems()|
    }

    ghost predicate OverFrom(h: nat)
      reads this
    {
      forall it :: it in multiset(over) ==> h <= it.due
    }

    // Ring hours lie in [cursor, cursor + WHEEL_SPAN) and overflow hours at or after
    // cursor + WHEEL_SPAN - 1.
    ghost predicate Valid()
      reads this, ring
    {
      Shape() && OverFrom(cursor + WHEEL_SPAN - 1)
    }

    constructor (base: nat)
      requires base <= MAX_HOUR
      ensures Valid() && fresh(ring) && cursor == base && Pending() == multiset{}
    {
      cursor := base;
      ring := new seq<K>[WHEEL_SPAN](_ => []);
      over := [];
      ringCount := 0;
      new;
      ItemsFacts(View(ring[..], base), base);
    }

    // File a key in its hour's bucket, which must be inside the window.
    method FileInRing(key: K, d: nat)
      requires Shape() && cursor <= d < cursor + WHEEL_SPAN
      modifies this`ringCount, ring
      ensures Shape() && RingItems() == old(RingItems()) + multiset{OverItem(d, key)}
      ensures ringCount == old(ringCount) + 1
    {
      hide Items, At, IsHeap, View, Slot;
      ghost var was := ring[..];
      var b := Slot(d);
      ring[b] := ring[b] + [key];
      ringCount := ringCount + 1;
      assert ring[..] == was[b := was[b] + [key]];
      ViewUpdate(was, cursor, d, was[b] + [key]);
      ItemsAdd(View(was, cursor), View(ring[..], cursor), cursor, d - cursor, key);
    }

    // add: an hour the cursor has passed counts as the cursor's hour.
    method Add(key: K, dueHour: nat)
      requires Valid() && dueHour <= MAX_HOUR
      modifies this, ring
      ensures Valid() && cursor == old(cursor)
      ensures Pending() == old(Pending()) + multiset{OverItem(if dueHour <= cursor then cursor else dueHour, key)}
    {
      var d := if dueHour <= cursor then cursor else dueHour;
      if d - cursor < WHEEL_SPAN {
        FileInRing(key, d);
        return;
      }
      over := Push(over, OverItem(d, key), Due<K>);
    }

    // admitOverflow: afterwards every overflow entry is beyond the horizon.
    method AdmitOverflow()
      requires Shape() && OverFrom(cursor)
      modifies this`over, this`ringCount, ring
      ensures Shape() && OverFrom(cursor + WHEEL_SPAN)
      ensures Pending() == old(Pending()) && |over| <= old(|over|)
      ensures old(over != [] && over[0].due < cursor + WHEEL_SPAN) ==> |over| < old(|over|)
    {
      while over != []
        invariant Shape() && OverFrom(cursor)
        invariant Pending() == old(Pending()) && |over| <= old(|over|)
        invariant |over| == old(|over|) ==> over == old(over)
        decreases |over|
      {
        var it := over[0];
        if it.due > cursor && it.due - cursor >= WHEEL_SPAN {
          RootMinAll(over, Due<K>);
          return;
        }
        AdmitHead();
      }
    }

    method AdmitHead()
      requires Shape() && OverFrom(cursor) && over != [] && over[0].due < cursor + WHEEL_SPAN
      modifies this`over, this`ringCount, ring
      ensures Shape() && OverFrom(cursor) && Pending() == old(Pending()) && |over| == old(|over|) - 1
    {
      hide Items, At, IsHeap, View, Slot;
      ghost var was := over;
      RootMinAll(over, Due<K>);
      var it, rest := Pop(over, Due<K>);
      assert |was| == |multiset(was)| && |rest| == |multiset(rest)|;
      over := rest;
      FileInRing(it.key, if it.due > cursor then it.due else cursor);
    }

    // nextDue: the earliest hour anything is pending for.
    method NextDue() returns (hour: nat, ok: bool)
      requires Valid()
      ensures ok <==> Pending() != multiset{}
      ensures ok ==> (exists it :: it in Pending() && it.due == hour) && forall it :: it in Pending() ==> hour <= it.due
    {
      hide Items, At, IsHeap;
      ghost var v := View(ring[..], cursor);
      ItemsFacts(v, cursor);
      if ringCount > 0 {
        var d := cursor;
        while d < cursor + WHEEL_SPAN
          invariant cursor <= d <= cursor + WHEEL_SPAN
          invariant forall i :: 0 <= i < d - cursor ==> v[i] == []
        {
          assert ring[Slot(d)] == v[d - cursor];
          if ring[Slot(d)] != [] {
            FirstBucket(v, cursor, d - cursor);
            ghost var it :| it in Items(v, cursor) && it.due == d;
            assert it in Pending();
            return d, true;
          }
          d := d + 1;
        }
        assert false;
      }
      assert RingItems() == multiset{};
      if over != [] {
        RootMinAll(over, Due<K>);
        return over[0].due, true;
      }
      return 0, false;
    }

    // due: advance the cursor past now and return the keys of every hour it passed, in hour order.
    // log is what fired, hour by hour; with what still waits it makes up what was pending before.
    method FireDue(now: nat) returns (fired: seq<K>, ghost log: seq<OverItem<K>>)
      requires Valid() && now <= MAX_HOUR
      modifies this, ring
      ensures Valid() && cursor == if old(cursor) <= now then now + 1 else old(cursor)
      ensures fired == Keys(log) && InHourOrder(log)
      ensures old(Pending()) == multiset(log) + Pending()
      ensures forall it :: it in multiset(log) ==> it.due <= now
      ensures forall it :: it in Pending() ==> it.due > now
    {
      hide Items, At, IsHeap, View, Slot;
      fired, log := [], [];
      while cursor <= now
        invariant Valid() && old(cursor) <= cursor && (cursor <= now + 1 || cursor == old(cursor))
        invariant fired == Keys(log) && InHourOrder(log)
        invariant old(Pending()) == multiset(log) + Pending()
        invariant forall it :: it in multiset(log) ==> it.due < cursor && it.due <= now
        decreases now + 1 - cursor, |over|
      {
        if ringCount == 0 {
          var done := SkipEmpty(now);
          if done {
            break;
          }
          continue;
        }
        var ks;
        ghost var passed;
        ks, passed := FireHour();
        fired := fired + ks;
        LogAppend(log, passed, cursor - 1);
        log := log + passed;
      }
      ItemsFacts(View(ring[..], cursor), cursor);
    }

    // With no bucket occupied, jump to the hour the overflow head enters the ring, or past now.
    method SkipEmpty(now: nat) returns (done: bool)
      requires Valid() && cursor <= now <= MAX_HOUR && ringCount == 0
      modifies this, ring
      ensures Valid() && Pending() == old(Pending())
      ensures done ==> cursor == now + 1
      ensures !done ==> old(cursor) <= cursor <= now && |over| < old(|over|)
    {
      hide Items, At, IsHeap, View, Slot;
      if over == [] {
        Restart(ring[..], cursor, now + 1);
        cursor := now + 1;
        return true;
      }
      RootMinAll(over, Due<K>);
      var edge := if over[0].due < WHEEL_SPAN - 1 then 0 else over[0].due - (WHEEL_SPAN - 1);
      if edge > now {
        Restart(ring[..], cursor, now + 1);
        cursor := now + 1;
        return true;
      }
      if edge > cursor {
        Restart(ring[..], cursor, edge);
        cursor := edge;
      }
      AdmitOverflow();
      return false;
    }

    // Empty the cursor's bucket and step to the next hour.
    method FireHour() returns (ks: seq<K>, ghost log: seq<OverItem<K>>)
      requires Valid() && cursor <= MAX_HOUR
      modifies this, ring
      ensures Valid() && cursor == old(cursor) + 1 && |over| <= old(|over|)
      ensures ks == Keys(log) && old(Pending()) == multiset(log) + Pending()
      ensures forall i :: 0 <= i < |log| ==> log[i].due == old(cursor)
    {
      hide Items, At, IsHeap, View, Slot;
      ghost var was := ring[..];
      var b := Slot(cursor);
      ks := ring[b];
      log := LogOf(cursor, ks);
      Fire(was, cursor);
      AtFacts(cursor, ks);
      LogIsAt(cursor, ks);
      ring[b] := [];
      assert ring[..] == was[b := []];
      ringCount := ringCount - |ks|;
      cursor := cursor + 1;
      AdmitOverflow();
    }
  }

  ghost function LogOf<K>(h: nat, ks: seq<K>): (log: seq<OverItem<K>>)
    ensures |log| == |ks| && Keys(log) == ks
    ensures forall i :: 0 <= i < |log| ==> log[i] == OverItem(h, ks[i])
  {
    seq(|ks|, i requires 0 <= i < |ks| => OverItem(h, ks[i]))
  }

  lemma {:induction false} LogIsAt<K>(h: nat, ks: seq<K>)
    ensures multiset(LogOf(h, ks)) == At(h, ks)
  {
    if ks != [] {
      var n := |ks| - 1;
      LogIsAt(h, ks[..n]);
      assert LogOf(h, ks) == LogOf(h, ks[..n]) + [OverItem(h, ks[n])];
    }
  }

  lemma LogAppend<K>(log: seq<OverItem<K>>, passed: seq<OverItem<K>>, h: nat)
    requires InHourOrder(log) && forall it :: it in multiset(log) ==> it.due <= h
    requires forall i :: 0 <= i < |passed| ==> passed[i].due == h
    ensures InHourOrder(log + passed) && Keys(log + passed) == Keys(log) + Keys(passed)
    ensures multiset(log + passed) == multiset(log) + multiset(passed)
    ensures forall it :: it in multiset(log + passed) ==> it.due <= h
  {
    forall i | 0 <= i < |log|
      ensures log[i].due <= h
    {
      assert log[i] in multiset(log);
    }
    forall it | it in multiset(log + passed)
      ensures it.due <= h
    {
      assert it in log + passed;
    }
  }
}
