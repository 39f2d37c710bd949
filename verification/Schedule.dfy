// Model of format/schedule.go and the due queries of format/reader.go: the durable timing wheel,
// its region, and the answer it gives to "what is due now".
module Schedule {
  import opened Wrappers
  import opened Bytes
  import opened Keys
  import opened Buffers
  import opened Encoding
  import opened DeltaEncoding
  import opened Pages

  const NEAR_SPAN: nat := 168
  const MID_WIDTH: nat := 24
  const MID_SPAN: nat := 2160
  const FAR_WIDTH: nat := 720
  const FAR_SPAN: nat := 17280
  const MID_IDX: nat := 168
  const FAR_IDX: nat := 258
  const OVERFLOW: nat := 282
  const BUCKETS: nat := 283
  const PAGE_SCHEDULE: byte := 5

  // schedBucketOf
  function BucketOf(offset: nat): (b: nat)
    ensures b < BUCKETS
  {
    if offset < NEAR_SPAN then offset
    else if offset - NEAR_SPAN < MID_SPAN then MID_IDX + (offset - NEAR_SPAN) / MID_WIDTH
    else if offset - NEAR_SPAN - MID_SPAN < FAR_SPAN then FAR_IDX + (offset - NEAR_SPAN - MID_SPAN) / FAR_WIDTH
    else OVERFLOW
  }

  // schedBucketStart
  function BucketStart(b: nat): nat {
    if b < MID_IDX then b
    else if b < FAR_IDX then NEAR_SPAN + (b - MID_IDX) * MID_WIDTH
    else if b < OVERFLOW then NEAR_SPAN + MID_SPAN + (b - FAR_IDX) * FAR_WIDTH
    else NEAR_SPAN + MID_SPAN + FAR_SPAN
  }

  // The windows tile the hours: a row's bucket is the last one whose window has opened by its hour.
  lemma BucketWindow(offset: nat, b: nat)
    requires b < BUCKETS
    ensures BucketStart(b) <= offset <==> b <= BucketOf(offset)
  {
  }

  lemma StartsIncrease(a: nat, b: nat)
    requires a < b < BUCKETS
    ensures BucketStart(a) < BucketStart(b)
  {
  }

  // ---- building ----

  // Rows i < n in bucket b, ascending. A zero due time is unscheduled.
  function RowsIn(due: seq<uint32>, base: nat, b: nat, n: nat): (rows: seq<nat>)
    requires n <= |due|
  {
    if n == 0 then []
    else RowsIn(due, base, b, n - 1) + if InBucket(due[n - 1], base, b) then [n - 1] else []
  }

  predicate InBucket(d: nat, base: nat, b: nat) {
    d != 0 && d >= base && BucketOf(d - base) == b
  }

  ghost predicate Ascending(rows: seq<nat>) {
    forall j, k :: 0 <= j < k < |rows| ==> rows[j] < rows[k]
  }

  lemma {:induction false} RowsInFacts(due: seq<uint32>, base: nat, b: nat, n: nat)
    requires n <= |due|
    ensures forall j :: 0 <= j < |RowsIn(due, base, b, n)| ==> RowsIn(due, base, b, n)[j] < n
    ensures Ascending(RowsIn(due, base, b, n))
  {
    hide InBucket;
    if n > 0 {
      RowsInFacts(due, base, b, n - 1);
    }
  }

  lemma JoinCounts<T>(a: seq<T>, b: seq<T>)
    ensures multiset(a + b) == multiset(a) + multiset(b)
  {
  }

  lemma {:induction false} RowsInCount(due: seq<uint32>, base: nat, b: nat, n: nat, i: nat)
    requires n <= |due|
    ensures multiset(RowsIn(due, base, b, n))[i] == if i < n && InBucket(due[i], base, b) then 1 else 0
  {
    hide InBucket;
    if n > 0 {
      RowsInCount(due, base, b, n - 1, i);
      var last: seq<nat> := if InBucket(due[n - 1], base, b) then [n - 1] else [];
      JoinCounts(RowsIn(due, base, b, n - 1), last);
    }
  }

  // The earliest scheduled hour, zero when nothing is scheduled.
  ghost predicate IsBase(due: seq<uint32>, base: nat) {
    if base == 0 then forall i :: 0 <= i < |due| ==> due[i] == 0
    else base in due && forall i :: 0 <= i < |due| ==> due[i] == 0 || base <= due[i]
  }

  method DueMin(due: seq<uint32>) returns (base: uint32)
    ensures IsBase(due, base)
  {
    base := 0;
    for i := 0 to |due|
      invariant if base == 0 then forall j :: 0 <= j < i ==> due[j] == 0
                else base in due && forall j :: 0 <= j < i ==> due[j] == 0 || base <= due[j]
    {
      if due[i] != 0 && (base == 0 || due[i] < base) {
        base := due[i];
      }
    }
  }

  ghost predicate IsIndex(due: seq<uint32>, base: nat, buckets: seq<seq<nat>>) {
    |buckets| == BUCKETS && forall b :: 0 <= b < |buckets| ==> buckets[b] == RowsIn(due, base, b, |due|)
  }

  // buildScheduleIndex: None when nothing is scheduled.
  method BuildScheduleIndex(due: seq<uint32>) returns (base: uint32, buckets: seq<seq<nat>>, ok: bool)
    ensures IsBase(due, base) && ok == (base != 0)
    ensures ok ==> IsIndex(due, base, buckets)
  {
    hide BucketOf;
    base := DueMin(due);
    buckets := [];
    if base == 0 {
      return base, buckets, false;
    }
    buckets := seq(BUCKETS, _ => []);
    for i := 0 to |due|
      invariant |buckets| == BUCKETS && forall b :: 0 <= b < |buckets| ==> buckets[b] == RowsIn(due, base, b, i)
    {
      if due[i] != 0 {
        var b := BucketOf(due[i] - base);
        buckets := buckets[b := buckets[b] + [i]];
      }
    }
    return base, buckets, true;
  }

  // ---- querying ----

  function Join(parts: seq<seq<nat>>): seq<nat> {
    if parts == [] then [] else Join(parts[..|parts| - 1]) + parts[|parts| - 1]
  }

  // How many buckets have opened by an offset.
  ghost predicate Opened(offset: nat, m: nat) {
    && m <= BUCKETS
    && (forall b :: 0 <= b < m ==> BucketStart(b) <= offset)
    && (forall b :: m <= b < BUCKETS ==> BucketStart(b) > offset)
  }

  // The rows of the buckets whose windows have opened by now.
  ghost predicate Candidates(base: nat, buckets: seq<seq<nat>>, now: nat, m: nat, cand: seq<nat>)
    requires |buckets| == BUCKETS
  {
    if now < base then m == 0 && cand == [] else Opened(now - base, m) && cand == Join(buckets[..m])
  }

  // DueBuckets
  method DueBuckets(base: nat, buckets: seq<seq<nat>>, now: nat) returns (cand: seq<nat>)
    requires |buckets| == BUCKETS
    ensures exists m :: Candidates(base, buckets, now, m, cand)
  {
    hide BucketStart;
    cand := [];
    assert now < base ==> Candidates(base, buckets, now, 0, []);
    if now < base {
      return;
    }
    var offset := now - base;
    assert buckets[..0] == [];
    var b := 0;
    while b < BUCKETS
      invariant 0 <= b <= BUCKETS && cand == Join(buckets[..b])
      invariant forall a :: 0 <= a < b ==> BucketStart(a) <= offset
    {
      if BucketStart(b) > offset {
        LaterClosed(b, offset);
        assert Candidates(base, buckets, now, b, cand);
        return;
      }
      assert buckets[..b + 1][..b] == buckets[..b];
      cand := cand + buckets[b];
      b := b + 1;
    }
    assert Candidates(base, buckets, now, BUCKETS, cand);
  }

  lemma LaterClosed(b: nat, offset: nat)
    requires b < BUCKETS && BucketStart(b) > offset
    ensures forall a :: b <= a < BUCKETS ==> BucketStart(a) > offset
  {
    forall a | b < a < BUCKETS
      ensures BucketStart(a) > offset
    {
      StartsIncrease(b, a);
    }
  }

  predicate DueAt(due: seq<uint32>, now: nat, i: nat) {
    i < |due| && due[i] != 0 && due[i] <= now
  }

  function DueKey(keys: seq<URLKey>, due: seq<uint32>, now: nat, i: nat): seq<URLKey>
    requires |keys| == |due|
  {
    if DueAt(due, now, i) then [keys[i]] else []
  }

  // The candidate rows that are due, and their keys.
  function Confirm(keys: seq<URLKey>, due: seq<uint32>, now: nat, rows: seq<nat>): seq<URLKey>
    requires |keys| == |due|
  {
    if rows == [] then []
    else
      Confirm(keys, due, now, rows[..|rows| - 1])
      + DueKey(keys, due, now, rows[|rows| - 1])
  }

  // DueKeys, the column scan.
  function DueKeys(keys: seq<URLKey>, due: seq<uint32>, now: nat): seq<URLKey>
    requires |keys| == |due|
  {
    Confirm(keys, due, now, seq(|due|, i => i))
  }

  // Rows that are not due add nothing, in whatever order the rows come.
  lemma {:induction false} ConfirmSame(keys: seq<URLKey>, due: seq<uint32>, now: nat, a: seq<nat>, b: seq<nat>)
    requires |keys| == |due|
    requires forall i :: DueAt(due, now, i) ==> multiset(a)[i] == multiset(b)[i]
    ensures multiset(Confirm(keys, due, now, a)) == multiset(Confirm(keys, due, now, b))
    decreases |a|
  {
    if a == [] {
      NothingDue(keys, due, now, b);
    } else {
      var n := |a| - 1;
      var r := a[n];
      assert a == a[..n] + [r];
      if DueAt(due, now, r) {
        var j := IndexOf(b, r);
        ConfirmDrop(keys, due, now, b, j);
        DropCounts(a, b, r, j);
        ConfirmSame(keys, due, now, a[..n], b[..j] + b[j + 1..]);
      } else {
        ConfirmSame(keys, due, now, a[..n], b);
      }
    }
  }

  lemma IndexOf(b: seq<nat>, r: nat) returns (j: nat)
    requires multiset(b)[r] > 0
    ensures j < |b| && b[j] == r
  {
    assert r in multiset(b) && r in b;
    j :| 0 <= j < |b| && b[j] == r;
  }

  lemma DropCounts(a: seq<nat>, b: seq<nat>, r: nat, j: nat)
    requires a != [] && a[|a| - 1] == r && j < |b| && b[j] == r
    ensures forall i :: multiset(a[..|a| - 1])[i] == multiset(a)[i] - if i == r then 1 else 0
    ensures forall i :: multiset(b[..j] + b[j + 1..])[i] == multiset(b)[i] - if i == r then 1 else 0
  {
    assert a == a[..|a| - 1] + [r];
    assert b == b[..j] + [r] + b[j + 1..];
  }

  lemma {:induction false} NothingDue(keys: seq<URLKey>, due: seq<uint32>, now: nat, b: seq<nat>)
    requires |keys| == |due|
    requires forall i :: DueAt(due, now, i) ==> i !in multiset(b)
    ensures Confirm(keys, due, now, b) == []
  {
    if b != [] {
      var n := |b| - 1;
      assert b == b[..n] + [b[n]];
      NothingDue(keys, due, now, b[..n]);
      assert b[n] in multiset(b);
    }
  }

  lemma ConfirmStep(keys: seq<URLKey>, due: seq<uint32>, now: nat, rows: seq<nat>)
    requires |keys| == |due| && rows != []
    ensures multiset(Confirm(keys, due, now, rows)) ==
      multiset(Confirm(keys, due, now, rows[..|rows| - 1])) + multiset(DueKey(keys, due, now, rows[|rows| - 1]))
  {
    hide DueKey;
    JoinCounts(Confirm(keys, due, now, rows[..|rows| - 1]), DueKey(keys, due, now, rows[|rows| - 1]));
  }

  // Taking a due row out of the middle takes its key out.
  lemma {:induction false} ConfirmDrop(keys: seq<URLKey>, due: seq<uint32>, now: nat, b: seq<nat>, j: nat)
    requires |keys| == |due| && j < |b| && DueAt(due, now, b[j])
    ensures multiset(Confirm(keys, due, now, b)) == multiset(Confirm(keys, due, now, b[..j] + b[j + 1..])) + multiset{keys[b[j]]}
    decreases |b|
  {
    assert DueKey(keys, due, now, b[j]) == [keys[b[j]]];
    ConfirmStep(keys, due, now, b);
    hide Confirm, DueKey, DueAt;
    var n := |b| - 1;
    if j == n {
      assert b[..j] + b[j + 1..] == b[..n];
    } else {
      ConfirmDrop(keys, due, now, b[..n], j);
      DropInit(b, j);
      ConfirmStep(keys, due, now, b[..j] + b[j + 1..]);
    }
  }

  lemma DropInit(b: seq<nat>, j: nat)
    requires j < |b| - 1
    ensures var n := |b| - 1;
            var c := b[..j] + b[j + 1..];
            c != [] && c[..|c| - 1] == b[..n][..j] + b[..n][j + 1..] && c[|c| - 1] == b[n] && b[..n][j] == b[j]
  {
  }

  // Row i is among the first m buckets' rows once if its bucket is one of them, else not at all.
  lemma {:induction false} CandidateCount(due: seq<uint32>, base: nat, buckets: seq<seq<nat>>, m: nat, i: nat)
    requires IsIndex(due, base, buckets) && m <= BUCKETS
    ensures multiset(Join(buckets[..m]))[i] ==
      if i < |due| && due[i] != 0 && due[i] >= base && BucketOf(due[i] - base) < m then 1 else 0
  {
    hide BucketOf;
    if m > 0 {
      CandidateCount(due, base, buckets, m - 1, i);
      assert buckets[..m][..m - 1] == buckets[..m - 1];
      RowsInCount(due, base, m - 1, |due|, i);
      JoinCounts(Join(buckets[..m - 1]), buckets[m - 1]);
    }
  }

  lemma AllRows(n: nat, i: nat)
    requires i < n
    ensures multiset(seq(n, k => k))[i] == 1
  {
    var all := seq(n, k => k);
    assert all == all[..i] + [i] + all[i + 1..];
    assert i !in all[..i] && i !in all[i + 1..];
  }

  // Every due row is a candidate, exactly once: its bucket's window had opened by now.
  lemma DueIsCandidate(due: seq<uint32>, base: nat, buckets: seq<seq<nat>>, now: nat, m: nat, i: nat)
    requires IsIndex(due, base, buckets) && IsBase(due, base) && now >= base && Opened(now - base, m) && DueAt(due, now, i)
    ensures multiset(Join(buckets[..m]))[i] == 1 == multiset(seq(|due|, k => k))[i]
  {
    CandidateCount(due, base, buckets, m, i);
    AllRows(|due|, i);
    var d := due[i] - base;
    var b := BucketOf(d);
    BucketWindow(d, b);
    hide BucketOf, BucketStart;
    assert BucketStart(b) <= now - base;
  }

  // DueByWheel: for every partition and time, the rows the column scan finds, in wheel order.
  method DueByWheel(keys: seq<URLKey>, due: seq<uint32>, base: nat, buckets: seq<seq<nat>>, now: nat)
    returns (out: Option<seq<URLKey>>)
    requires |keys| == |due| && |buckets| == BUCKETS
    ensures base != 0 && IsBase(due, base) && IsIndex(due, base, buckets) ==>
      out.Some? && multiset(out.value) == multiset(DueKeys(keys, due, now))
  {
    hide IsIndex, IsBase, Opened, BucketOf;
    var cand := DueBuckets(base, buckets, now);
    ghost var m :| Candidates(base, buckets, now, m, cand);
    ghost var ok := base != 0 && IsBase(due, base) && IsIndex(due, base, buckets);
    if ok {
      WheelAgrees(keys, due, base, buckets, now, cand, m);
    }
    var keep: seq<URLKey> := [];
    assert cand[..0] == [];
    for i := 0 to |cand|
      invariant keep == Confirm(keys, due, now, cand[..i])
    {
      var r := cand[i];
      if r >= |due| {
        return None;
      }
      assert cand[..i + 1][..i] == cand[..i];
      keep := keep + DueKey(keys, due, now, r);
    }
    assert cand[..|cand|] == cand;
    return Some(keep);
  }

  lemma WheelAgrees(keys: seq<URLKey>, due: seq<uint32>, base: nat, buckets: seq<seq<nat>>, now: nat, cand: seq<nat>, m: nat)
    requires |keys| == |due| && IsBase(due, base) && IsIndex(due, base, buckets) && base != 0
    requires now < base ==> cand == [] && m == 0
    requires now >= base ==> Opened(now - base, m) && cand == Join(buckets[..m])
    ensures forall i :: 0 <= i < |cand| ==> cand[i] < |due|
    ensures multiset(Confirm(keys, due, now, cand)) == multiset(DueKeys(keys, due, now))
  {
    hide BucketOf, BucketStart, Join, Confirm, InBucket;
    if now >= base {
      forall i | 0 <= i < |cand|
        ensures cand[i] < |due|
      {
        assert multiset(cand)[cand[i]] > 0;
        CandidateCount(due, base, buckets, m, cand[i]);
      }
    }
    forall i | DueAt(due, now, i)
      ensures multiset(cand)[i] == multiset(seq(|due|, k => k))[i]
    {
      DueIsCandidate(due, base, buckets, now, m, i);
    }
    ConfirmSame(keys, due, now, cand, seq(|due|, k => k));
  }

  // MaybeDueAt: the footer's earliest hour rules a partition out exactly when nothing is due.
  lemma MaybeDueAt(due: seq<uint32>, base: nat, now: nat)
    requires IsBase(due, base)
    ensures base != 0 && base <= now <==> exists i :: DueAt(due, now, i)
  {
    if base != 0 && base <= now {
      var i :| 0 <= i < |due| && due[i] == base;
      assert DueAt(due, now, i);
    }
  }

  // ---- the region ----

  ghost predicate SmallRows(rows: seq<nat>) {
    |rows| < TWO_32 && Ascending(rows) && forall j :: 0 <= j < |rows| ==> rows[j] < TWO_32
  }

  ghost predicate SmallIndex(base: nat, n: nat, buckets: seq<seq<nat>>) {
    && base < TWO_32 && n < TWO_32 && |buckets| == BUCKETS
    && forall b :: 0 <= b < |buckets| ==> SmallRows(buckets[b])
  }

  // idx - prev for the rows of a bucket, starting from zero, in 32 bits.
  function Gap(prev: nat, next: nat): (g: nat)
    ensures g < TWO_32
  {
    (next - prev) % TWO_32
  }

  function Gaps(rows: seq<nat>): (gs: seq<nat>)
    ensures |gs| == |rows| && forall j :: 0 <= j < |gs| ==> gs[j] < TWO_32
  {
    seq(|rows|, j requires 0 <= j < |rows| => Gap(if j == 0 then 0 else rows[j - 1], rows[j]))
  }

  function Sizes(buckets: seq<seq<nat>>): (ns: seq<nat>)
    ensures |ns| == |buckets| && forall b :: 0 <= b < |ns| ==> ns[b] == |buckets[b]|
  {
    seq(|buckets|, b requires 0 <= b < |buckets| => |buckets[b]|)
  }

  function BodyBytes(buckets: seq<seq<nat>>): bytes {
    if buckets == [] then [] else VarintBytes(Gaps(buckets[0])) + BodyBytes(buckets[1..])
  }

  lemma {:induction false} BodySnoc(buckets: seq<seq<nat>>, rows: seq<nat>)
    ensures BodyBytes(buckets + [rows]) == BodyBytes(buckets) + VarintBytes(Gaps(rows))
  {
    hide Gaps, VarintBytes;
    if buckets == [] {
      assert [rows][1..] == [];
      assert BodyBytes([rows]) == VarintBytes(Gaps(rows)) + BodyBytes([rows][1..]);
    } else {
      BodySnoc(buckets[1..], rows);
      assert (buckets + [rows])[1..] == buckets[1..] + [rows];
    }
  }

  function RegionPayload(base: nat, n: nat, buckets: seq<seq<nat>>): bytes {
    LittleEndian(base, 4) + (LittleEndian(n, 4) + (Uvarint(BUCKETS) + (VarintBytes(Sizes(buckets)) + BodyBytes(buckets))))
  }

  // The payload encodeScheduleRegion frames.
  method EncodePayload(base: nat, n: nat, buckets: seq<seq<nat>>) returns (payload: bytes)
    requires |buckets| == BUCKETS
    ensures payload == RegionPayload(base, n, buckets)
  {
    hide LittleEndian, Uvarint, VarintBytes, BodyBytes, Gap;
    var counts: bytes, body: bytes := [], [];
    ghost var sizes := Sizes(buckets);
    NoVarints();
    NoBody();
    assert sizes[..0] == [] && buckets[..0] == [];
    for b := 0 to |buckets|
      invariant counts == VarintBytes(sizes[..b]) && body == BodyBytes(buckets[..b])
    {
      VarintSnoc(sizes[..b], sizes[b]);
      BodySnoc(buckets[..b], buckets[b]);
      assert sizes[..b + 1] == sizes[..b] + [sizes[b]] && buckets[..b + 1] == buckets[..b] + [buckets[b]];
      counts := counts + Uvarint(|buckets[b]|);
      var part := EncodeBucket(buckets[b]);
      body := body + part;
    }
    assert sizes[..|sizes|] == sizes && buckets[..|buckets|] == buckets;
    payload := LittleEndian(base, 4) + (LittleEndian(n, 4) + (Uvarint(BUCKETS) + (counts + body)));
  }

  lemma NoBody()
    ensures BodyBytes([]) == []
  {
  }

  method EncodeBucket(rows: seq<nat>) returns (part: bytes)
    ensures part == VarintBytes(Gaps(rows))
  {
    hide Uvarint, VarintBytes, Gap;
    ghost var gs := Gaps(rows);
    part := [];
    NoVarints();
    assert gs[..0] == [];
    var prev := 0;
    for j := 0 to |rows|
      invariant part == VarintBytes(gs[..j]) && prev == if j == 0 then 0 else rows[j - 1]
    {
      VarintSnoc(gs[..j], gs[j]);
      assert gs[..j + 1] == gs[..j] + [gs[j]];
      part := part + Uvarint(Gap(prev, rows[j]));
      prev := rows[j];
    }
    assert gs[..|gs|] == gs;
  }

  method ReadSizes(r: RBuf, nb: nat, ghost sizes: seq<nat>, ghost tail: bytes) returns (counts: seq<int>)
    requires r.Valid()
    modifies r
    ensures r.Valid() && |counts| == nb
    ensures nb == |sizes| && (forall b :: 0 <= b < |sizes| ==> sizes[b] < TWO_32) && old(!r.err && AtVarint(r.Rest(), sizes, 0, tail)) ==>
      !r.err && counts == sizes && r.Rest() == tail
  {
    hide AtVarint;
    ghost var ok := nb == |sizes| && (forall b :: 0 <= b < |sizes| ==> sizes[b] < TWO_32) && !r.err && AtVarint(r.Rest(), sizes, 0, tail);
    counts := [];
    for b := 0 to nb
      invariant r.Valid() && |counts| == b
      invariant ok ==> !r.err && AtVarint(r.Rest(), sizes, b, tail) && counts == sizes[..b]
    {
      var u := ReadVarint(r, sizes, b, tail);
      counts := counts + [ToInt(u)];
    }
    if ok {
      VarintsDone(r.Rest(), sizes, tail);
    }
  }

  // prev += uint32(u)
  lemma GapBack(prev: nat, next: nat)
    requires prev < TWO_32 && next < TWO_32
    ensures Add32(prev, Gap(prev, next)) == next
  {
  }

  function Add32(a: nat, b: nat): (s: nat)
    ensures s < TWO_32
  {
    (a + b) % TWO_32
  }

  lemma SmallRow(rows: seq<nat>, j: nat)
    requires SmallRows(rows) && j < |rows|
    ensures rows[j] < TWO_32
  {
  }

  method ReadRows(r: RBuf, count: int, ghost rows: seq<nat>, ghost tail: bytes) returns (ids: seq<nat>)
    requires r.Valid()
    modifies r
    ensures r.Valid()
    ensures count == |rows| && SmallRows(rows) && old(!r.err && AtVarint(r.Rest(), Gaps(rows), 0, tail)) ==>
      !r.err && ids == rows && r.Rest() == tail
  {
    hide AtVarint, Gap, Add32, SmallRows;
    ghost var ok := count == |rows| && SmallRows(rows) && !r.err && AtVarint(r.Rest(), Gaps(rows), 0, tail);
    ids := [];
    var prev: nat := 0;
    var j: nat := 0;
    while j < count
      invariant r.Valid() && prev < TWO_32
      invariant ok ==> j <= count && !r.err && AtVarint(r.Rest(), Gaps(rows), j, tail) && ids == rows[..j]
      invariant ok ==> prev == if j == 0 then 0 else rows[j - 1]
    {
      var u := ReadVarint(r, Gaps(rows), j, tail);
      if ok {
        SmallRow(rows, j);
        GapBack(prev, rows[j]);
      }
      prev := Add32(prev, u);
      ids := ids + [prev];
      j := j + 1;
    }
    if ok {
      VarintsDone(r.Rest(), Gaps(rows), tail);
    }
  }

  ghost predicate AtBucket(rest: bytes, buckets: seq<seq<nat>>, b: int) {
    0 <= b <= |buckets| && rest == BodyBytes(buckets[b..])
  }

  lemma BucketFront(rest: bytes, buckets: seq<seq<nat>>, b: nat)
    requires b < |buckets| && AtBucket(rest, buckets, b)
    ensures AtVarint(rest, Gaps(buckets[b]), 0, BodyBytes(buckets[b + 1..]))
  {
    hide Gaps, VarintBytes;
    assert buckets[b..][1..] == buckets[b + 1..];
    assert Gaps(buckets[b])[0..] == Gaps(buckets[b]);
  }

  lemma AtNext(rest: bytes, buckets: seq<seq<nat>>, b: nat)
    requires b < |buckets| && rest == BodyBytes(buckets[b + 1..])
    ensures AtBucket(rest, buckets, b + 1)
  {
  }

  method ReadBuckets(r: RBuf, counts: seq<int>, ghost buckets: seq<seq<nat>>) returns (out: seq<seq<nat>>)
    requires r.Valid()
    modifies r
    ensures r.Valid() && |out| == |counts|
    ensures counts == Sizes(buckets) && (forall b :: 0 <= b < |buckets| ==> SmallRows(buckets[b])) && old(!r.err && AtBucket(r.Rest(), buckets, 0)) ==>
      !r.err && out == buckets
  {
    hide SmallRows, Gaps, AtBucket, AtVarint, BodyBytes;
    ghost var ok := counts == Sizes(buckets) && (forall b :: 0 <= b < |buckets| ==> SmallRows(buckets[b])) && !r.err && AtBucket(r.Rest(), buckets, 0);
    out := [];
    for b := 0 to |counts|
      invariant r.Valid() && |out| == b
      invariant ok ==> !r.err && AtBucket(r.Rest(), buckets, b) && out == buckets[..b]
    {
      if ok {
        BucketFront(r.Rest(), buckets, b);
      }
      var ids := ReadRows(r, counts[b], if ok then buckets[b] else [], if ok then BodyBytes(buckets[b + 1..]) else []);
      if ok {
        AtNext(r.Rest(), buckets, b);
      }
      out := out + [ids];
    }
  }

  datatype ScheduleIndex = ScheduleIndex(base: nat, covered: nat, buckets: seq<seq<nat>>)

  lemma PayloadFront(base: nat, n: nat, buckets: seq<seq<nat>>)
    requires SmallIndex(base, n, buckets)
    ensures var p := RegionPayload(base, n, buckets);
            var rest := VarintBytes(Sizes(buckets)) + BodyBytes(buckets);
            && |p| >= 8 && FromLittleEndian(p[..4]) == base
            && p[4..] == LittleEndian(n, 4) + (Uvarint(BUCKETS) + rest)
            && FromLittleEndian(p[4..][..4]) == n && p[4..][4..] == Uvarint(BUCKETS) + rest
            && ReadUvarint(Uvarint(BUCKETS) + rest) == Some((BUCKETS, |Uvarint(BUCKETS)|))
            && (Uvarint(BUCKETS) + rest)[|Uvarint(BUCKETS)|..] == rest
  {
    hide LittleEndian, FromLittleEndian, Uvarint, ReadUvarint, VarintBytes, BodyBytes, Sizes, SmallRows, Pow256;
    var p := RegionPayload(base, n, buckets);
    var rest := VarintBytes(Sizes(buckets)) + BodyBytes(buckets);
    Pow256Words();
    assert p[..4] == LittleEndian(base, 4) && p[4..] == LittleEndian(n, 4) + (Uvarint(BUCKETS) + rest);
    assert p[4..][..4] == LittleEndian(n, 4) && p[4..][4..] == Uvarint(BUCKETS) + rest;
    LittleEndianRoundTrip(base, 4);
    LittleEndianRoundTrip(n, 4);
    ReadUvarintInverse(BUCKETS, rest);
  }

  // The payload half of decodeScheduleRegion.
  method DecodePayload(payload: bytes, ghost base: nat, ghost n: nat, ghost buckets: seq<seq<nat>>) returns (idx: Option<ScheduleIndex>)
    ensures idx.Some? ==> |idx.value.buckets| == BUCKETS
    ensures SmallIndex(base, n, buckets) && payload == RegionPayload(base, n, buckets) ==> idx == Some(ScheduleIndex(base, n, buckets))
  {
    hide RegionPayload, Uvarint, ReadUvarint, VarintBytes, BodyBytes, FromLittleEndian, LittleEndian, SmallRows, Sizes;
    ghost var ok := SmallIndex(base, n, buckets) && payload == RegionPayload(base, n, buckets);
    if ok {
      PayloadFront(base, n, buckets);
    }
    var r := new RBuf(payload);
    var b := r.Uint(4);
    var covered := r.Uint(4);
    var nb := r.Uvarint();
    if r.err || nb != BUCKETS {
      return None;
    }
    if ok {
      AtFirst(r.Rest(), buckets);
    }
    var counts := ReadSizes(r, nb, Sizes(buckets), BodyBytes(buckets));
    if ok {
      SizesSmall(base, n, buckets);
      assert buckets[0..] == buckets;
    }
    var got := ReadBuckets(r, counts, buckets);
    if r.err {
      return None;
    }
    return Some(ScheduleIndex(b, covered, got));
  }

  lemma AtFirst(rest: bytes, buckets: seq<seq<nat>>)
    requires rest == VarintBytes(Sizes(buckets)) + BodyBytes(buckets)
    ensures AtVarint(rest, Sizes(buckets), 0, BodyBytes(buckets))
  {
    assert Sizes(buckets)[0..] == Sizes(buckets);
  }

  lemma SizesSmall(base: nat, n: nat, buckets: seq<seq<nat>>)
    requires SmallIndex(base, n, buckets)
    ensures forall b :: 0 <= b < |Sizes(buckets)| ==> Sizes(buckets)[b] < TWO_32
  {
    forall b | 0 <= b < |buckets|
      ensures |buckets[b]| < TWO_32
    {
      assert SmallRows(buckets[b]);
    }
  }

  lemma IndexIsSmall(due: seq<uint32>, base: nat, buckets: seq<seq<nat>>)
    requires IsIndex(due, base, buckets) && base < TWO_32 && |due| < TWO_32
    ensures SmallIndex(base, |due|, buckets)
  {
    hide BucketOf, InBucket, RowsIn;
    forall b | 0 <= b < |buckets|
      ensures SmallRows(buckets[b])
    {
      RowsInFacts(due, base, b, |due|);
      AscendingLength(buckets[b], |due|);
    }
  }

  lemma {:induction false} AscendingLength(rows: seq<nat>, n: nat)
    requires Ascending(rows) && forall j :: 0 <= j < |rows| ==> rows[j] < n
    ensures |rows| <= n
  {
    if rows != [] {
      var k := |rows| - 1;
      AscendingLength(rows[..k], rows[k]);
    }
  }

  // The index compresses to what a page header's 32-bit size can hold.
  ghost predicate Packs(z: Foreign, codec: byte, due: seq<uint32>) {
    forall base, buckets :: IsIndex(due, base, buckets) ==> |z.Compress(codec, RegionPayload(base, |due|, buckets)).1| < TWO_32
  }

  // region is the page of the index of due, whose earliest hour is base; it is empty without one.
  ghost predicate Encodes(z: Foreign, region: bytes, due: seq<uint32>, base: nat, buckets: seq<seq<nat>>) {
    && IsBase(due, base) && (region == [] <==> base == 0)
    && (base != 0 ==> IsIndex(due, base, buckets) && IsRegion(z, region, base, |due|, buckets))
  }

  // encodeScheduleRegion: no region when nothing is scheduled.
  method EncodeScheduleRegion(z: Foreign, due: seq<uint32>, codec: byte) returns (region: bytes)
    requires z.Lossless() && Packs(z, codec, due) && |due| < TWO_32
    ensures exists base, buckets :: Encodes(z, region, due, base, buckets)
  {
    hide IsIndex, SmallIndex, RegionPayload, IsBase, HeaderBytes, HeaderFor, ReadPage;
    var b, bs, ok := BuildScheduleIndex(due);
    if !ok {
      assert Encodes(z, [], due, b, bs);
      return [];
    }
    IndexIsSmall(due, b, bs);
    IndexShape(due, b, bs);
    var payload := EncodePayload(b, |due|, bs);
    var scheduled := Total(bs);
    region := Page(z, PAGE_SCHEDULE, ENC_RAW, codec, scheduled, 0, b, payload);
    PageBack(z, PAGE_SCHEDULE, ENC_RAW, codec, scheduled, 0, b, payload, []);
    assert region + [] == region;
    RegionHeader(z, codec, scheduled, b, payload);
    assert Encodes(z, region, due, b, bs);
  }

  lemma RegionHeader(z: Foreign, codec: byte, n: nat, base: nat, payload: bytes)
    ensures HeaderFor(z, PAGE_SCHEDULE, ENC_RAW, codec, n, 0, base, payload).kind == PAGE_SCHEDULE
  {
  }

  // The rows in the buckets, as the page header counts them.
  method Total(buckets: seq<seq<nat>>) returns (n: uint32)
  {
    var sum := 0;
    for b := 0 to |buckets| {
      sum := sum + |buckets[b]|;
    }
    n := sum % TWO_32;
  }

  // A page of the schedule kind whose payload is the index.
  ghost predicate IsRegion(z: Foreign, region: bytes, base: nat, n: nat, buckets: seq<seq<nat>>) {
    && SmallIndex(base, n, buckets)
    && var page := ReadPage(z, region);
       page.Some? && page.value.0.kind == PAGE_SCHEDULE && page.value.1 == RegionPayload(base, n, buckets)
  }

  // decodeScheduleRegion
  method DecodeScheduleRegion(z: Foreign, region: bytes, ghost base: nat, ghost n: nat, ghost buckets: seq<seq<nat>>)
    returns (idx: Option<ScheduleIndex>)
    ensures idx.Some? ==> |idx.value.buckets| == BUCKETS
    ensures IsRegion(z, region, base, n, buckets) ==> idx == Some(ScheduleIndex(base, n, buckets))
  {
    hide ReadPage, RegionPayload, SmallIndex;
    var page := ReadPage(z, region);
    if page.None? || page.value.0.kind != PAGE_SCHEDULE {
      return None;
    }
    idx := DecodePayload(page.value.1, base, n, buckets);
  }

  // From the rows to the file and back to the due query: what is stored answers as a scan of the
  // column would.
  method StoreAndQuery(z: Foreign, keys: seq<URLKey>, due: seq<uint32>, codec: byte, now: nat) returns (out: Option<seq<URLKey>>)
    requires z.Lossless() && Packs(z, codec, due) && |keys| == |due| < TWO_32
    ensures out.Some? && multiset(out.value) == multiset(DueKeys(keys, due, now))
  {
    hide IsIndex, IsRegion, IsBase, DueKeys;
    var region := EncodeScheduleRegion(z, due, codec);
    ghost var base, buckets :| Encodes(z, region, due, base, buckets);
    if region == [] {
      // No wheel: the query falls back to the column scan.
      return Some(DueKeys(keys, due, now));
    }
    var idx := DecodeScheduleRegion(z, region, base, |due|, buckets);
    out := DueByWheel(keys, due, idx.value.base, idx.value.buckets, now);
  }

  lemma IndexShape(due: seq<uint32>, base: nat, buckets: seq<seq<nat>>)
    requires IsIndex(due, base, buckets)
    ensures |buckets| == BUCKETS
  {
  }
}
