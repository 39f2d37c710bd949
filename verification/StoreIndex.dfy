// Model of the URL half of store/store.go: an index whose record bodies may be evicted and read back
// from the log, over puts, gets, deletes, checkpoints and recovery. The store means a plain map, live.
// It answers like the map until a row that was written before the last checkpoint is evicted.
module StoreIndex {
  import opened Wrappers
  import opened Bytes
  import opened Keys
  import opened LogFrames

  const KIND_URL: byte := 0
  const TOMB_BIT: byte := 0x80

  // A record is its encoded value.
  type Value = b: bytes | |b| < TWO_32 witness []

  // urlLoc: where the current frame is and, when resident, the record.
  datatype Loc = Loc(off: nat, lsn: nat, rec: Option<Value>, tomb: bool)

  type Index = map<URLKey, Loc>

  // What the entries stand for: the rows as last written, those whose last write is in the open log,
  // and those that were evicted when it was not.
  datatype Truth = Truth(live: map<URLKey, Value>, recent: set<URLKey>, stale: set<URLKey>)

  function KeyBytes(k: URLKey): (b: bytes)
    ensures |b| == 16
  {
    LittleEndian(k.host, 8) + LittleEndian(k.path, 8)
  }

  // URLKeyFromBytes
  function KeyFrom(b: bytes): (k: URLKey)
    requires |b| == 16
    ensures KeyBytes(k) == b
  {
    Pow256Words();
    FromLittleEndianInverse(b[..8]);
    FromLittleEndianInverse(b[8..]);
    assert b == b[..8] + b[8..];
    URLKey(FromLittleEndian(b[..8]), FromLittleEndian(b[8..]))
  }

  ghost predicate Names(file: bytes, crc: Checksum, off: nat, k: URLKey, val: Value) {
    && ReadAt(file, off, crc).Some?
    && ReadAt(file, off, crc).value.key == KeyBytes(k)
    && ReadAt(file, off, crc).value.val == val
  }

  // A deleted key is not live. A live key's body, when resident, is its row, and when evicted its
  // frame in the open log holds the row; of a stale key nothing is known.
  ghost predicate LocOk(file: bytes, crc: Checksum, k: URLKey, loc: Loc, t: Truth) {
    if loc.tomb then k !in t.live && loc.rec.None?
    else
      && k in t.live
      && (k !in t.stale ==> if loc.rec.Some? then loc.rec.value == t.live[k] else k in t.recent)
      && (k in t.recent ==> Names(file, crc, loc.off, k, t.live[k]))
  }

  ghost predicate Backed(file: bytes, crc: Checksum, index: Index, t: Truth) {
    && t.live.Keys <= index.Keys && t.stale <= t.live.Keys && t.recent * t.stale == {}
    && (forall k <- index :: LocOk(file, crc, k, index[k], t))
  }

  ghost function Residents(index: Index): set<URLKey> {
    set k | k in index && index[k].rec.Some?
  }

  // The live rows that are not in memory.
  ghost function Out(index: Index): set<URLKey> {
    set k | k in index && !index[k].tomb && index[k].rec.None?
  }

  // With a budget, the eviction queue reaches every body but the pinned ones, which recovery loaded,
  // and the counter is the number of the others plus what deletions left in it.
  ghost predicate Tracked(budget: nat, index: Index, evictQ: seq<URLKey>, residentN: int, leaked: nat, pinned: set<URLKey>) {
    Counted(budget, Residents(index), evictQ, residentN, leaked, pinned)
  }

  ghost predicate Counted(budget: nat, bodies: set<URLKey>, evictQ: seq<URLKey>, residentN: int, leaked: nat, pinned: set<URLKey>) {
    && pinned <= bodies
    && (budget > 0 ==>
          && residentN == |bodies - pinned| + leaked
          && (forall k <- bodies - pinned :: k in evictQ) && (forall k <- pinned :: k !in evictQ))
  }

  // What GetURL answers, and what a snapshot reads.
  function Lookup(file: bytes, crc: Checksum, index: Index, k: URLKey): Option<Value> {
    if k !in index || index[k].tomb then None
    else if index[k].rec.Some? then index[k].rec
    else ReadValue(file, crc, index[k].off)
  }

  // readAt, the value only.
  function ReadValue(file: bytes, crc: Checksum, off: nat): Option<Value> {
    match ReadAt(file, off, crc)
    case None => None
    case Some(f) => if |f.val| < TWO_32 then Some(f.val) else None
  }

  function At(live: map<URLKey, Value>, k: URLKey): Option<Value> {
    if k in live then Some(live[k]) else None
  }

  // The store answers like the map.
  ghost predicate Agree(file: bytes, crc: Checksum, index: Index, live: map<URLKey, Value>) {
    forall k :: Lookup(file, crc, index, k) == At(live, k)
  }

  // snapshotPartition: a row whose read fails is left out.
  function Rows(file: bytes, crc: Checksum, index: Index): map<URLKey, Value> {
    map k | k in index && Lookup(file, crc, index, k).Some? :: Lookup(file, crc, index, k).value
  }

  lemma RowsAgree(file: bytes, crc: Checksum, index: Index, live: map<URLKey, Value>)
    ensures Rows(file, crc, index) == live <==> Agree(file, crc, index, live)
  {
    hide ReadValue;
    var rows := Rows(file, crc, index);
    assert forall k :: At(rows, k) == Lookup(file, crc, index, k);
    if Agree(file, crc, index, live) {
      forall k
        ensures k in rows <==> k in live
        ensures k in rows ==> rows[k] == live[k]
      {
        assert Lookup(file, crc, index, k) == At(live, k);
      }
    }
  }

  // ---- eviction ----

  function Drop(index: Index, k: URLKey): Index
    requires k in index
  {
    index[k := index[k].(rec := None)]
  }

  // The loop of trackResident: drop bodies from the head of the queue while the count is over.
  function Shed(budget: nat, index: Index, q: seq<URLKey>, n: int): (Index, seq<URLKey>, int)
    decreases |q|
  {
    if n <= budget || q == [] then (index, q, n)
    else if q[0] in index && index[q[0]].rec.Some? && !index[q[0]].tomb then Shed(budget, Drop(index, q[0]), q[1..], n - 1)
    else Shed(budget, index, q[1..], n)
  }

  // A new body joins the queue and the count.
  function Track(budget: nat, index: Index, q: seq<URLKey>, n: int, k: URLKey): (Index, seq<URLKey>, int) {
    if budget == 0 then (index, q, n) else Shed(budget, index, q + [k], n + 1)
  }

  // An eviction makes a row stale when its last write is not in the open log.
  ghost function AfterDrop(t: Truth, k: URLKey): Truth {
    if k in t.recent then t else t.(stale := t.stale + {k})
  }

  lemma DropBacked(file: bytes, crc: Checksum, index: Index, t: Truth, k: URLKey)
    requires Backed(file, crc, index, t) && k in index && !index[k].tomb
    ensures Backed(file, crc, Drop(index, k), AfterDrop(t, k))
  {
    hide Names;
    assert LocOk(file, crc, k, index[k], t);
  }

  lemma DropTracked(budget: nat, index: Index, q: seq<URLKey>, n: int, leaked: nat, pinned: set<URLKey>)
    requires Tracked(budget, index, q, n, leaked, pinned) && budget > 0 && q != []
    ensures if q[0] in index && index[q[0]].rec.Some? then Tracked(budget, Drop(index, q[0]), q[1..], n - 1, leaked, pinned)
            else Tracked(budget, index, q[1..], n, leaked, pinned)
  {
    var k := q[0];
    assert k in index && index[k].rec.Some? ==> Residents(Drop(index, k)) == Residents(index) - {k};
    assert k in Residents(index) <==> k in index && index[k].rec.Some?;
    hide Residents;
    CountHead(budget, Residents(index), q, n, leaked, pinned);
  }

  lemma CountHead(budget: nat, bodies: set<URLKey>, q: seq<URLKey>, n: int, leaked: nat, pinned: set<URLKey>)
    requires Counted(budget, bodies, q, n, leaked, pinned) && budget > 0 && q != []
    ensures if q[0] in bodies then Counted(budget, bodies - {q[0]}, q[1..], n - 1, leaked, pinned)
            else Counted(budget, bodies, q[1..], n, leaked, pinned)
  {
    assert q == [q[0]] + q[1..];
    assert (bodies - {q[0]}) - pinned == (bodies - pinned) - {q[0]};
  }

  // ---- recovery ----

  // The effect of a replayed frame on the URL rows; frames of hosts and interned strings have none.
  function Redo(live: map<URLKey, Value>, f: Frame): map<URLKey, Value> {
    if !IsUrl(f) then live
    else if f.kind >= TOMB_BIT then live - {KeyFrom(f.key)}
    else live[KeyFrom(f.key) := f.val]
  }

  predicate IsUrl(f: Frame) {
    f.kind % TOMB_BIT == KIND_URL && |f.key| == 16 && |f.val| < TWO_32
  }

  function RedoAll(live: map<URLKey, Value>, fs: seq<Frame>): map<URLKey, Value> {
    if fs == [] then live else Redo(RedoAll(live, fs[..|fs| - 1]), fs[|fs| - 1])
  }

  // The least sequence number from n on that is above those of all frames.
  function Resumed(n: nat, fs: seq<Frame>): (m: nat)
    ensures m >= n && forall f <- fs :: f.lsn < m
  {
    if fs == [] then n
    else
      var m := Resumed(n, fs[..|fs| - 1]);
      assert forall f <- fs :: f in fs[..|fs| - 1] || f == fs[|fs| - 1];
      if fs[|fs| - 1].lsn + 1 > m then fs[|fs| - 1].lsn + 1 else m
  }

  lemma RedoNone(live: map<URLKey, Value>, n: nat)
    ensures RedoAll(live, []) == live && Resumed(n, []) == n
  {
  }

  lemma ResumedNext(n: nat, fs: seq<Frame>, f: Frame)
    ensures Resumed(n, fs + [f]) == if f.lsn + 1 > Resumed(n, fs) then f.lsn + 1 else Resumed(n, fs)
  {
    assert (fs + [f])[..|fs|] == fs;
  }

  // The entry a replayed frame leaves.
  function RedoIndex(index: Index, f: Frame, off: nat): Index {
    if !IsUrl(f) then index
    else index[KeyFrom(f.key) := if f.kind >= TOMB_BIT then Loc(off, f.lsn, None, true) else Loc(off, f.lsn, Some(f.val), false)]
  }

  ghost function RedoTruth(t: Truth, f: Frame): Truth {
    if !IsUrl(f) then t
    else Truth(Redo(t.live, f), if f.kind >= TOMB_BIT then t.recent - {KeyFrom(f.key)} else t.recent + {KeyFrom(f.key)},
               t.stale - {KeyFrom(f.key)})
  }

  // Snapshot rows load resident, with no frame of their own.
  function Loaded(snap: map<URLKey, Value>): Index {
    map k | k in snap :: Loc(0, 0, Some(snap[k]), false)
  }

  lemma RedoBacked(file: bytes, crc: Checksum, index: Index, t: Truth, f: Frame, off: nat)
    requires Backed(file, crc, index, t) && ReadAt(file, off, crc) == Some(f)
    ensures Backed(file, crc, RedoIndex(index, f, off), RedoTruth(t, f))
  {
    hide ReadAt, Backed;
    if IsUrl(f) {
      var k := KeyFrom(f.key);
      if f.kind >= TOMB_BIT {
        Entomb(file, crc, index, t, k, Loc(off, f.lsn, None, true));
      } else {
        Repoint(file, crc, index, t, k, Loc(off, f.lsn, Some(f.val), false), f.val);
      }
    }
  }

  // Within one generation nothing is stale, and every body that eviction can reach has its frame in
  // the open log.
  ghost predicate OneGeneration(index: Index, t: Truth, pinned: set<URLKey>) {
    t.stale == {} && Residents(index) - pinned <= t.recent
  }

  class Store {
    const crc: Checksum
    const residentBudget: nat       // 0 is unbounded
    var file: bytes                 // the open log
    var nextLSN: nat
    var index: Index
    var evictQ: seq<URLKey>
    var residentN: int
    ghost var truth: Truth
    ghost var leaked: nat
    ghost var pinned: set<URLKey>

    ghost predicate Valid()
      reads this
    {
      && Backed(file, crc, index, truth)
      && Tracked(residentBudget, index, evictQ, residentN, leaked, pinned)
      && (residentBudget > 0 ==> |Residents(index) - pinned| <= residentBudget)
    }

    ghost predicate Agrees()
      reads this
    {
      Agree(file, crc, index, truth.live)
    }

    ghost predicate Steady()
      reads this
    {
      OneGeneration(index, truth, pinned)
    }

    constructor (crc: Checksum, residentBudget: nat)
      ensures Valid() && Steady() && truth == Truth(map[], {}, {}) && leaked == 0 && pinned == {}
      ensures file == [] && index == map[] && evictQ == [] && residentN == 0 && nextLSN == 1
      ensures this.crc == crc && this.residentBudget == residentBudget
    {
      this.crc, this.residentBudget := crc, residentBudget;
      file, nextLSN, index, evictQ, residentN := [], 1, map[], [], 0;
      truth, leaked, pinned := Truth(map[], {}, {}), 0, {};
      new;
      assert Residents(index) == {};
    }

    // recover: load the snapshot, redo the log over it, and resume past the highest sequence number.
    // Everything recovered is in memory, and none of it is counted or queued for eviction.
    constructor Recover(crc: Checksum, residentBudget: nat, snap: map<URLKey, Value>, log: bytes, frontier: nat)
      ensures Valid() && Steady() && Agrees()
      ensures truth.live == RedoAll(snap, Replay(log, 0, crc)) && file == log
      ensures this.crc == crc && this.residentBudget == residentBudget
      ensures pinned == Residents(index) == truth.live.Keys && Out(index) == {} && evictQ == [] && residentN == 0 && leaked == 0
      ensures nextLSN == Resumed(if frontier < 1 then 1 else frontier, Replay(log, 0, crc))
    {
      this.crc, this.residentBudget := crc, residentBudget;
      file, nextLSN, index, evictQ, residentN := log, if frontier < 1 then 1 else frontier, Loaded(snap), [], 0;
      truth, leaked, pinned := Truth(snap, {}, {}), 0, {};
      new;
      LoadedBacked(log, crc, snap);
      RedoLog(snap);
      pinned := Residents(index);
      hide ReadAt, Backed;
      AllResident(file, crc, index, truth);
      NoneCounted(residentBudget, index, pinned);
      AgreesUnlessStale();
    }

    // The replay callback, over the whole log.
    method RedoLog(ghost snap: map<URLKey, Value>)
      requires Backed(file, crc, index, truth) && truth == Truth(snap, {}, {}) && Out(index) == {}
      modifies `index, `nextLSN, `truth
      ensures Backed(file, crc, index, truth) && truth.live == RedoAll(snap, Replay(file, 0, crc)) && truth.stale == {} && Out(index) == {}
      ensures nextLSN == Resumed(old(nextLSN), Replay(file, 0, crc))
    {
      hide ReadAt, Redo, RedoAll, RedoIndex, RedoTruth, Backed, Out, Resumed;
      RedoNone(snap, nextLSN);
      ghost var done: seq<Frame> := [];
      var off := 0;
      while true
        invariant Replay(file, 0, crc) == done + Replay(file, off, crc)
        invariant Backed(file, crc, index, truth) && truth.live == RedoAll(snap, done) && truth.stale == {} && Out(index) == {}
        invariant nextLSN == Resumed(old(nextLSN), done)
        decreases |file| - off
      {
        var r := ReadAt(file, off, crc);
        if r.None? {
          assert done == Replay(file, 0, crc);
          return;
        }
        var f := r.value;
        RedoBacked(file, crc, index, truth, f, off);
        RedoNext(snap, done, f, index, truth, off);
        ResumedNext(old(nextLSN), done, f);
        assert done + ([f] + Replay(file, off + f.Size(), crc)) == done + [f] + Replay(file, off + f.Size(), crc);
        index, truth := RedoIndex(index, f, off), RedoTruth(truth, f);
        done := done + [f];
        if f.lsn + 1 > nextLSN {
          nextLSN := f.lsn + 1;
        }
        off := off + f.Size();
      }
    }

    // log.append: the frame lands at the end of the file under the next LSN.
    method Append(kind: byte, key: URLKey, val: Value) returns (off: nat, lsn: nat)
      requires Backed(file, crc, index, truth) && nextLSN < TWO_64
      modifies `file, `nextLSN
      ensures Backed(file, crc, index, truth)
      ensures off == old(|file|) && lsn == old(nextLSN) && nextLSN == lsn + 1 && old(file) <= file
      ensures ReadAt(file, off, crc) == Some(Frame(lsn, kind, KeyBytes(key), val))
    {
      hide ReadAt, Encode, Backed;
      var f := Frame(nextLSN, kind, KeyBytes(key), val);
      off, lsn := |file|, nextLSN;
      AppendKeeps(file, Encode(f, crc), crc, index, truth);
      ReadBack(file, f, [], crc);
      assert file + Encode(f, crc) + [] == file + Encode(f, crc);
      file := file + Encode(f, crc);
      nextLSN := nextLSN + 1;
    }

    // trackResident
    method TrackResident(key: URLKey)
      requires Backed(file, crc, index, truth) && key in Residents(index) && key !in pinned
      requires Tracked(residentBudget, index, evictQ + [key], residentN + 1, leaked, pinned)
      modifies `index, `evictQ, `residentN, `truth
      ensures Valid() && (index, evictQ, residentN) == Track(residentBudget, old(index), old(evictQ), old(residentN), key)
      ensures truth.live == old(truth.live) && truth.recent == old(truth.recent)
      ensures old(truth.stale) <= truth.stale <= old(truth.stale) + (Out(index) - truth.recent)
      ensures residentBudget == 0 || old(residentN) < residentBudget ==> index == old(index) && truth == old(truth)
      ensures old(Steady()) ==> Steady()
    {
      hide Backed, Residents, Tracked, Out;
      if residentBudget == 0 {
        Unbudgeted(index, evictQ, evictQ + [key], residentN, residentN + 1, leaked, pinned);
        return;
      }
      residentN := residentN + 1;
      evictQ := evictQ + [key];
      ghost var total := Shed(residentBudget, index, evictQ, residentN);
      while residentN > residentBudget && evictQ != []
        invariant Backed(file, crc, index, truth) && Tracked(residentBudget, index, evictQ, residentN, leaked, pinned)
        invariant total == Shed(residentBudget, index, evictQ, residentN)
        invariant truth.live == old(truth.live) && truth.recent == old(truth.recent)
        invariant old(truth.stale) <= truth.stale <= old(truth.stale) + (Out(index) - truth.recent)
        invariant old(residentN) < residentBudget ==> index == old(index) && truth == old(truth) && residentN == old(residentN) + 1
        invariant old(Steady()) ==> Steady()
        decreases |evictQ|
      {
        EvictHead();
      }
      OverOnlyWhenEmpty(residentBudget, index, evictQ, residentN, leaked, pinned);
    }

    method EvictHead()
      requires Backed(file, crc, index, truth) && Tracked(residentBudget, index, evictQ, residentN, leaked, pinned)
      requires residentBudget > 0 && evictQ != [] && residentN > residentBudget
      modifies `index, `evictQ, `residentN, `truth
      ensures Backed(file, crc, index, truth) && Tracked(residentBudget, index, evictQ, residentN, leaked, pinned)
      ensures |evictQ| < old(|evictQ|)
      ensures Shed(residentBudget, index, evictQ, residentN) == Shed(residentBudget, old(index), old(evictQ), old(residentN))
      ensures truth.live == old(truth.live) && truth.recent == old(truth.recent) && old(Out(index)) <= Out(index)
      ensures old(truth.stale) <= truth.stale <= old(truth.stale) + (Out(index) - truth.recent)
      ensures old(Steady()) ==> Steady()
    {
      hide Backed, Tracked;
      var victim := evictQ[0];
      DropTracked(residentBudget, index, evictQ, residentN, leaked, pinned);
      if victim in index && index[victim].rec.Some? && !index[victim].tomb {
        DropBacked(file, crc, index, truth, victim);
        NotPinned(residentBudget, index, evictQ, residentN, leaked, pinned);
        truth := AfterDrop(truth, victim);
        index := Drop(index, victim);
        residentN := residentN - 1;
      } else {
        Bodiless(file, crc, index, truth, victim);
      }
      evictQ := evictQ[1..];
    }

    // PutURL
    method PutURL(key: URLKey, val: Value) returns (lsn: nat)
      requires Valid() && nextLSN < TWO_64
      modifies this
      ensures Valid() && lsn == old(nextLSN) && nextLSN == lsn + 1 && leaked == old(leaked) && pinned == old(pinned)
      ensures truth.live == old(truth.live)[key := val] && truth.recent == old(truth.recent) + {key}
      ensures truth.stale <= (old(truth.stale) - {key}) + (Out(index) - truth.recent)
      ensures |old(file)| <= |file| && ReadValue(file, crc, |old(file)|) == Some(val)
      ensures
        var put := old(index)[key := Loc(|old(file)|, lsn, Some(val), false)];
        (index, evictQ, residentN) ==
          if key in old(Residents(index)) then (put, old(evictQ), old(residentN))
          else Track(residentBudget, put, old(evictQ), old(residentN), key)
      ensures residentBudget == 0 || old(residentN) < residentBudget ==> Out(index) <= old(Out(index))
      ensures old(Steady()) ==> Steady()
    {
      hide ReadAt, ReadValue, Backed, Tracked, Track, OneGeneration, Residents, Out;
      var newResident;
      lsn, newResident := Write(key, val);
      if newResident {
        TrackResident(key);
      }
    }

    // The append and the repointed entry of PutURL.
    method Write(key: URLKey, val: Value) returns (lsn: nat, newResident: bool)
      requires Valid() && nextLSN < TWO_64
      modifies `file, `nextLSN, `index, `truth
      ensures lsn == old(nextLSN) && nextLSN == lsn + 1 && newResident == (key !in old(Residents(index)))
      ensures |old(file)| <= |file| && ReadValue(file, crc, |old(file)|) == Some(val)
      ensures index == old(index)[key := Loc(|old(file)|, lsn, Some(val), false)]
      ensures truth == Truth(old(truth.live)[key := val], old(truth.recent) + {key}, old(truth.stale) - {key})
      ensures Backed(file, crc, index, truth) && key in Residents(index) && Out(index) <= old(Out(index))
      ensures if newResident then key !in pinned && Tracked(residentBudget, index, evictQ + [key], residentN + 1, leaked, pinned) else Valid()
      ensures old(Steady()) ==> Steady()
    {
      hide ReadAt, Backed, Tracked, OneGeneration;
      var off;
      off, lsn := Append(KIND_URL, key, val);
      newResident := key !in index || index[key].rec.None?;
      assert newResident <==> key !in Residents(index);
      hide Residents, Out;
      var loc := Loc(off, lsn, Some(val), false);
      Repoint(file, crc, index, truth, key, loc, val);
      BodyTracked(residentBudget, index, evictQ, residentN, leaked, pinned, key, loc);
      NewBody(index, key, loc);
      PutSteady(index, truth, pinned, key, loc, val);
      index := index[key := loc];
      truth := Truth(truth.live[key := val], truth.recent + {key}, truth.stale - {key});
    }

    // GetURL: the resident copy, or the record read back from the log, which becomes resident.
    method GetURL(key: URLKey) returns (r: Option<Value>)
      requires Valid()
      modifies `index, `evictQ, `residentN, `truth
      ensures Valid() && r == Lookup(file, crc, old(index), key)
      ensures key !in old(truth.stale) ==> r == At(truth.live, key)
      ensures truth.live == old(truth.live) && truth.recent == old(truth.recent)
      ensures truth.stale <= old(truth.stale) + (Out(index) - truth.recent)
      ensures
        (index, evictQ, residentN) ==
          if r.None? || key in old(Residents(index)) then (old(index), old(evictQ), old(residentN))
          else Track(residentBudget, old(index)[key := old(index)[key].(rec := r)], old(evictQ), old(residentN), key)
      ensures residentBudget == 0 || old(residentN) < residentBudget ==> Out(index) <= old(Out(index))
      ensures old(Steady()) ==> Steady()
    {
      hide ReadAt, Tracked, Shed, Names;
      LookupFresh(file, crc, index, truth, key);
      if key !in index || index[key].tomb {
        return None;
      }
      var loc := index[key];
      if loc.rec.Some? {
        return loc.rec;
      }
      r := ReadValue(file, crc, loc.off);
      hide Backed, ReadValue;
      if r.None? {
        return None;
      }
      Reload(file, crc, index, truth, key, r);
      BodyTracked(residentBudget, index, evictQ, residentN, leaked, pinned, key, loc.(rec := r));
      ReloadSteady(file, crc, index, truth, pinned, key, loc.(rec := r));
      index := index[key := loc.(rec := r)];
      TrackResident(key);
    }

    // DeleteURL: a tombstone. A counted body goes without the counter being told.
    method DeleteURL(key: URLKey)
      requires Valid() && nextLSN < TWO_64
      modifies this
      ensures Valid() && nextLSN == old(nextLSN) + 1
      ensures truth == Truth(old(truth.live) - {key}, old(truth.recent) - {key}, old(truth.stale) - {key})
      ensures index == old(index)[key := Loc(|old(file)|, old(nextLSN), None, true)] && pinned == old(pinned) - {key}
      ensures evictQ == old(evictQ) && residentN == old(residentN)
      ensures leaked == old(leaked) + if residentBudget > 0 && key in old(Residents(index) - pinned) then 1 else 0
      ensures Out(index) <= old(Out(index))
      ensures old(Steady()) ==> Steady()
    {
      hide ReadAt, Backed, Tracked, Residents, Out, OneGeneration;
      var off, lsn := Append(KIND_URL + TOMB_BIT, key, []);
      var loc := Loc(off, lsn, None, true);
      Entomb(file, crc, index, truth, key, loc);
      Buried(residentBudget, index, evictQ, residentN, leaked, pinned, key, loc);
      BuriedSteady(index, truth, pinned, key, loc);
      leaked := leaked + if residentBudget > 0 && key in Residents(index) - pinned then 1 else 0;
      index := index[key := loc];
      truth := Truth(truth.live - {key}, truth.recent - {key}, truth.stale - {key});
      pinned := pinned - {key};
    }

    // commit with the store's own snapshot: the log is swapped for an empty one and the index keeps
    // its offsets. The snapshot is the map exactly when the store answers like it; and a store that did
    // still does exactly when no live row is out of memory.
    method Checkpoint() returns (snap: map<URLKey, Value>)
      requires Valid()
      modifies `file, `truth
      ensures Valid() && snap == Rows(old(file), crc, index) && file == []
      ensures snap == truth.live <==> old(Agrees())
      ensures truth == Truth(old(truth.live), {}, old(truth.stale) + Out(index))
      ensures old(Agrees()) ==> (Agrees() <==> Out(index) == {})
    {
      hide ReadAt, Tracked, Names, Backed, Agree;
      snap := Rows(file, crc, index);
      RowsAgree(file, crc, index, truth.live);
      Strand(file, crc, index, truth);
      AfterSwap(file, crc, index, truth);
      file := [];
      truth := Truth(truth.live, {}, truth.stale + Out(index));
    }

    // Nothing stale: the store answers like the map.
    lemma AgreesUnlessStale()
      requires Valid() && truth.stale == {}
      ensures Agrees()
    {
      hide ReadAt, Names, Backed;
      forall k
        ensures Lookup(file, crc, index, k) == At(truth.live, k)
      {
        LookupFresh(file, crc, index, truth, k);
      }
    }

    // Exactly: the store answers like the map when every stale row happens to read back right.
    lemma AgreesExactly()
      requires Valid()
      ensures Agrees() <==> forall k <- truth.stale :: Lookup(file, crc, index, k) == At(truth.live, k)
    {
      hide ReadAt, Names, Backed, Lookup, Tracked;
      if forall k <- truth.stale :: Lookup(file, crc, index, k) == At(truth.live, k) {
        forall k
          ensures Lookup(file, crc, index, k) == At(truth.live, k)
        {
          LookupFresh(file, crc, index, truth, k);
        }
      }
    }

    // URLCount: the live records.
    ghost function URLCount(): nat
      reads this
    {
      |set k | k in index && !index[k].tomb|
    }

    lemma CountIsLive()
      requires Valid()
      ensures URLCount() == |truth.live|
    {
      hide Names, Tracked;
      var alive := set k | k in index && !index[k].tomb;
      forall k
        ensures k in alive <==> k in truth.live
      {
        assert k in index ==> LocOk(file, crc, k, index[k], truth);
      }
      assert alive == truth.live.Keys;
    }

    // Resident(), the counter, against the bodies in memory: recovered rows are missing from it and
    // deleted ones still in it. The bodies stay within the budget plus the recovered rows not deleted.
    lemma ResidentCount()
      requires Valid() && residentBudget > 0
      ensures residentN == |Residents(index)| - |pinned| + leaked
      ensures |Residents(index)| <= residentBudget + |pinned|
    {
      assert Residents(index) == (Residents(index) - pinned) + pinned;
    }
  }

  lemma LoadedBacked(file: bytes, crc: Checksum, snap: map<URLKey, Value>)
    ensures Backed(file, crc, Loaded(snap), Truth(snap, {}, {})) && Out(Loaded(snap)) == {}
  {
  }

  lemma RedoNext(snap: map<URLKey, Value>, done: seq<Frame>, f: Frame, index: Index, t: Truth, off: nat)
    requires t.live == RedoAll(snap, done) && t.stale == {} && Out(index) == {}
    ensures RedoTruth(t, f).live == RedoAll(snap, done + [f]) && RedoTruth(t, f).stale == {} && Out(RedoIndex(index, f, off)) == {}
  {
    assert (done + [f])[..|done|] == done;
  }

  lemma AllResident(file: bytes, crc: Checksum, index: Index, t: Truth)
    requires Backed(file, crc, index, t) && Out(index) == {}
    ensures Residents(index) == t.live.Keys
  {
    hide Names;
    forall k
      ensures k in Residents(index) <==> k in t.live
    {
      assert k in index ==> LocOk(file, crc, k, index[k], t);
      assert k in index ==> k !in Out(index);
    }
  }

  lemma NoneCounted(budget: nat, index: Index, pinned: set<URLKey>)
    requires pinned == Residents(index)
    ensures Tracked(budget, index, [], 0, 0, pinned) && Residents(index) - pinned == {}
  {
  }

  lemma AppendKeeps(file: bytes, more: bytes, crc: Checksum, index: Index, t: Truth)
    requires Backed(file, crc, index, t)
    ensures Backed(file + more, crc, index, t)
  {
    hide ReadAt;
    forall k <- index
      ensures LocOk(file + more, crc, k, index[k], t)
    {
      assert LocOk(file, crc, k, index[k], t);
      if k in t.recent && !index[k].tomb {
        ReadAtExtends(file, more, index[k].off, crc);
      }
    }
  }

  lemma Repoint(file: bytes, crc: Checksum, index: Index, t: Truth, k: URLKey, loc: Loc, val: Value)
    requires Backed(file, crc, index, t) && !loc.tomb
    requires loc.rec == Some(val) && Names(file, crc, loc.off, k, val)
    ensures Backed(file, crc, index[k := loc], Truth(t.live[k := val], t.recent + {k}, t.stale - {k}))
  {
    hide Names;
  }

  lemma Entomb(file: bytes, crc: Checksum, index: Index, t: Truth, k: URLKey, loc: Loc)
    requires Backed(file, crc, index, t) && loc.tomb && loc.rec.None?
    ensures Backed(file, crc, index[k := loc], Truth(t.live - {k}, t.recent - {k}, t.stale - {k}))
  {
    hide Names;
  }

  // A row read back is its own unless it is stale.
  lemma Reload(file: bytes, crc: Checksum, index: Index, t: Truth, k: URLKey, r: Option<Value>)
    requires Backed(file, crc, index, t) && k in index && !index[k].tomb && r.Some? && (k !in t.stale ==> r == At(t.live, k))
    ensures Backed(file, crc, index[k := index[k].(rec := r)], t)
  {
    hide Names;
    assert LocOk(file, crc, k, index[k], t);
  }

  lemma ReloadSteady(file: bytes, crc: Checksum, index: Index, t: Truth, pinned: set<URLKey>, k: URLKey, loc: Loc)
    requires Backed(file, crc, index, t) && k in index && !index[k].tomb && index[k].rec.None?
    ensures OneGeneration(index, t, pinned) ==> OneGeneration(index[k := loc], t, pinned)
  {
    hide Names;
    assert LocOk(file, crc, k, index[k], t);
  }

  lemma BuriedSteady(index: Index, t: Truth, pinned: set<URLKey>, k: URLKey, loc: Loc)
    requires loc.tomb && loc.rec.None?
    ensures Out(index[k := loc]) <= Out(index)
    ensures OneGeneration(index, t, pinned) ==>
      OneGeneration(index[k := loc], Truth(t.live - {k}, t.recent - {k}, t.stale - {k}), pinned - {k})
  {
    assert Residents(index[k := loc]) == Residents(index) - {k};
  }

  lemma LookupFresh(file: bytes, crc: Checksum, index: Index, t: Truth, k: URLKey)
    requires Backed(file, crc, index, t)
    ensures k !in t.stale ==> Lookup(file, crc, index, k) == At(t.live, k)
  {
    hide ReadAt;
    assert k in index ==> LocOk(file, crc, k, index[k], t);
  }

  lemma BodyTracked(budget: nat, index: Index, q: seq<URLKey>, n: int, leaked: nat, pinned: set<URLKey>, k: URLKey, loc: Loc)
    requires Tracked(budget, index, q, n, leaked, pinned) && loc.rec.Some?
    ensures if k in Residents(index) then Residents(index[k := loc]) == Residents(index) && Tracked(budget, index[k := loc], q, n, leaked, pinned)
            else k !in pinned && Residents(index[k := loc]) == Residents(index) + {k}
                 && Tracked(budget, index[k := loc], q + [k], n + 1, leaked, pinned)
  {
    NewBody(index, k, loc);
    hide Residents;
    if k in Residents(index) {
      assert Residents(index[k := loc]) == Residents(index);
    } else {
      CountMore(budget, Residents(index), q, n, leaked, pinned, k);
    }
  }

  lemma CountMore(budget: nat, bodies: set<URLKey>, q: seq<URLKey>, n: int, leaked: nat, pinned: set<URLKey>, k: URLKey)
    requires Counted(budget, bodies, q, n, leaked, pinned) && k !in bodies
    ensures k !in pinned && Counted(budget, bodies + {k}, q + [k], n + 1, leaked, pinned)
  {
    assert (bodies + {k}) - pinned == (bodies - pinned) + {k};
  }

  lemma Buried(budget: nat, index: Index, q: seq<URLKey>, n: int, leaked: nat, pinned: set<URLKey>, k: URLKey, loc: Loc)
    requires Tracked(budget, index, q, n, leaked, pinned) && loc.rec.None?
    ensures Residents(index[k := loc]) == Residents(index) - {k}
    ensures Tracked(budget, index[k := loc], q, n, leaked + if budget > 0 && k in Residents(index) - pinned then 1 else 0, pinned - {k})
    ensures |Residents(index[k := loc]) - (pinned - {k})| <= |Residents(index) - pinned|
  {
    LostBody(index, k, loc);
    hide Residents;
    CountLess(budget, Residents(index), q, n, leaked, pinned, k);
  }

  lemma LostBody(index: Index, k: URLKey, loc: Loc)
    requires loc.rec.None?
    ensures Residents(index[k := loc]) == Residents(index) - {k}
  {
  }

  lemma NewBody(index: Index, k: URLKey, loc: Loc)
    requires loc.rec.Some?
    ensures Residents(index[k := loc]) == Residents(index) + {k} && Out(index[k := loc]) <= Out(index)
  {
  }

  lemma PutSteady(index: Index, t: Truth, pinned: set<URLKey>, k: URLKey, loc: Loc, val: Value)
    requires loc.rec.Some?
    ensures OneGeneration(index, t, pinned) ==>
      OneGeneration(index[k := loc], Truth(t.live[k := val], t.recent + {k}, t.stale - {k}), pinned)
  {
    NewBody(index, k, loc);
    hide Residents;
  }

  lemma CountLess(budget: nat, bodies: set<URLKey>, q: seq<URLKey>, n: int, leaked: nat, pinned: set<URLKey>, k: URLKey)
    requires Counted(budget, bodies, q, n, leaked, pinned)
    ensures Counted(budget, bodies - {k}, q, n, leaked + if budget > 0 && k in bodies - pinned then 1 else 0, pinned - {k})
    ensures |(bodies - {k}) - (pinned - {k})| <= |bodies - pinned|
  {
    assert (bodies - {k}) - (pinned - {k}) == (bodies - pinned) - {k};
  }

  lemma Unbudgeted(index: Index, q: seq<URLKey>, q': seq<URLKey>, n: int, n': int, leaked: nat, pinned: set<URLKey>)
    requires Tracked(0, index, q', n', leaked, pinned)
    ensures Tracked(0, index, q, n, leaked, pinned)
  {
  }

  lemma OverOnlyWhenEmpty(budget: nat, index: Index, q: seq<URLKey>, n: int, leaked: nat, pinned: set<URLKey>)
    requires Tracked(budget, index, q, n, leaked, pinned) && budget > 0 && (n <= budget || q == [])
    ensures |Residents(index) - pinned| <= budget
  {
    if q == [] {
      assert Residents(index) - pinned == {};
    }
  }

  lemma NotPinned(budget: nat, index: Index, q: seq<URLKey>, n: int, leaked: nat, pinned: set<URLKey>)
    requires Tracked(budget, index, q, n, leaked, pinned) && budget > 0 && q != []
    ensures q[0] !in pinned
  {
    assert q[0] in q;
  }

  lemma Bodiless(file: bytes, crc: Checksum, index: Index, t: Truth, k: URLKey)
    requires Backed(file, crc, index, t) && !(k in index && index[k].rec.Some? && !index[k].tomb)
    ensures !(k in index && index[k].rec.Some?)
  {
    hide Names;
    assert k in index ==> LocOk(file, crc, k, index[k], t);
  }

  // The log swap makes every row that is out of memory stale.
  lemma Strand(file: bytes, crc: Checksum, index: Index, t: Truth)
    requires Backed(file, crc, index, t)
    ensures Backed([], crc, index, Truth(t.live, {}, t.stale + Out(index)))
  {
    hide ReadAt, Names;
    var after := Truth(t.live, {}, t.stale + Out(index));
    forall k <- index
      ensures LocOk([], crc, k, index[k], after)
    {
      assert LocOk(file, crc, k, index[k], t);
    }
  }

  // Over an empty log a row out of memory is not found, and one in memory still is.
  lemma AfterSwap(file: bytes, crc: Checksum, index: Index, t: Truth)
    requires Backed(file, crc, index, t)
    ensures Agree(file, crc, index, t.live) ==> (Agree([], crc, index, t.live) <==> Out(index) == {})
  {
    hide Names;
    assert forall off :: ReadValue([], crc, off) == None;
    hide ReadAt, ReadValue;
    if Agree(file, crc, index, t.live) {
      forall k
        ensures k in Out(index) <==> Lookup([], crc, index, k) != At(t.live, k)
      {
        assert Lookup(file, crc, index, k) == At(t.live, k);
        assert k in index ==> LocOk(file, crc, k, index[k], t);
      }
      if Out(index) != {} {
        var k :| k in Out(index);
        assert Lookup([], crc, index, k) != At(t.live, k);
      }
    }
  }

  // ---- whole runs ----

  datatype Command = Put(key: URLKey, val: Value) | Get(key: URLKey) | Delete(key: URLKey) | Checkpoint

  // What a caller sees of a command: the sequence number, the row, or the snapshot that was written.
  datatype Reply = Written(lsn: nat) | Row(r: Option<Value>) | Deleted | Saved(rows: map<URLKey, Value>)

  // A plain map under a command, with its next sequence number.
  function Do(live: map<URLKey, Value>, cmd: Command): map<URLKey, Value> {
    match cmd
    case Put(key, val) => live[key := val]
    case Delete(key) => live - {key}
    case _ => live
  }

  function NextLSN(n: nat, cmd: Command): nat {
    if cmd.Put? || cmd.Delete? then n + 1 else n
  }

  function Answer(live: map<URLKey, Value>, n: nat, cmd: Command): Reply {
    match cmd
    case Put(_, _) => Written(n)
    case Get(key) => Row(At(live, key))
    case Delete(_) => Deleted
    case Checkpoint => Saved(live)
  }

  // The map after a run of commands, and its answers.
  function After(live: map<URLKey, Value>, cmds: seq<Command>): map<URLKey, Value>
    decreases |cmds|
  {
    if cmds == [] then live else After(Do(live, cmds[0]), cmds[1..])
  }

  function Answers(live: map<URLKey, Value>, n: nat, cmds: seq<Command>): seq<Reply>
    decreases |cmds|
  {
    if cmds == [] then [] else [Answer(live, n, cmds[0])] + Answers(Do(live, cmds[0]), NextLSN(n, cmds[0]), cmds[1..])
  }

  // How many puts of a run find no row: the bodies that the resident counter counts.
  function NewRows(live: map<URLKey, Value>, cmds: seq<Command>): nat
    decreases |cmds|
  {
    if cmds == [] then 0 else NewRow(live, cmds[0]) + NewRows(Do(live, cmds[0]), cmds[1..])
  }

  function NewRow(live: map<URLKey, Value>, cmd: Command): nat {
    if cmd.Put? && cmd.key !in live then 1 else 0
  }

  // One command against a store in which nothing is stale.
  method Perform(s: Store, cmd: Command) returns (reply: Reply)
    requires s.Valid() && s.truth.stale == {} && s.nextLSN < TWO_64
    modifies s
    ensures s.Valid() && reply == Answer(old(s.truth.live), old(s.nextLSN), cmd)
    ensures s.truth.live == Do(old(s.truth.live), cmd) && s.nextLSN == NextLSN(old(s.nextLSN), cmd)
    ensures old(s.Steady()) && !cmd.Checkpoint? ==> s.Steady()
    ensures old(Out(s.index)) == {} && (s.residentBudget == 0 || old(s.residentN) + NewRow(old(s.truth.live), cmd) <= s.residentBudget) ==>
      && Out(s.index) == {} && s.truth.stale == {}
      && (s.residentBudget > 0 ==> s.residentN == old(s.residentN) + NewRow(old(s.truth.live), cmd))
  {
    hide Store.Valid, Store.Steady, Store.Agrees, Out;
    match cmd {
      case Put(key, val) =>
        var lsn := PerformPut(s, key, val);
        reply := Written(lsn);
      case Get(key) =>
        var r := PerformGet(s, key);
        reply := Row(r);
      case Delete(key) =>
        s.DeleteURL(key);
        reply := Deleted;
      case Checkpoint =>
        s.AgreesUnlessStale();
        var snap := s.Checkpoint();
        reply := Saved(snap);
    }
  }

  method PerformPut(s: Store, key: URLKey, val: Value) returns (lsn: nat)
    requires s.Valid() && s.truth.stale == {} && s.nextLSN < TWO_64
    modifies s
    ensures s.Valid() && lsn == old(s.nextLSN) && s.nextLSN == lsn + 1 && s.truth.live == old(s.truth.live)[key := val]
    ensures old(s.Steady()) ==> s.Steady()
    ensures old(Out(s.index)) == {} && (s.residentBudget == 0 || old(s.residentN) + NewRow(old(s.truth.live), Put(key, val)) <= s.residentBudget) ==>
      && Out(s.index) == {} && s.truth.stale == {}
      && (s.residentBudget > 0 ==> s.residentN == old(s.residentN) + NewRow(old(s.truth.live), Put(key, val)))
  {
    hide Store.Valid, Store.Steady, Lookup, Out, Residents, ReadAt, ReadValue, Track;
    if Out(s.index) == {} {
      AllAreResident(s);
    }
    ghost var put := s.index[key := Loc(|s.file|, s.nextLSN, Some(val), false)];
    PutStaysIn(s.index, key, Loc(|s.file|, s.nextLSN, Some(val), false));
    TrackWithRoom(s.residentBudget, put, s.evictQ, s.residentN, key);
    lsn := s.PutURL(key, val);
  }

  method PerformGet(s: Store, key: URLKey) returns (r: Option<Value>)
    requires s.Valid() && s.truth.stale == {}
    modifies s
    ensures s.Valid() && r == At(s.truth.live, key) && s.truth.live == old(s.truth.live) && s.nextLSN == old(s.nextLSN)
    ensures old(s.Steady()) ==> s.Steady()
    ensures old(Out(s.index)) == {} ==> Out(s.index) == {} && s.truth.stale == {} && s.residentN == old(s.residentN)
  {
    hide Store.Valid, Store.Steady, Lookup, Out, Residents, ReadAt, ReadValue, Track;
    if Out(s.index) == {} {
      AllAreResident(s);
    }
    r := s.GetURL(key);
  }

  // With no row out of memory, the rows are the bodies.
  lemma AllAreResident(s: Store)
    requires s.Valid() && Out(s.index) == {}
    ensures Residents(s.index) == s.truth.live.Keys
  {
    hide Names, Tracked;
    forall k
      ensures k in Residents(s.index) <==> k in s.truth.live
    {
      if k in s.index {
        assert LocOk(s.file, s.crc, k, s.index[k], s.truth);
        assert k !in Out(s.index);
      }
    }
  }

  lemma PutStaysIn(index: Index, k: URLKey, loc: Loc)
    requires loc.rec.Some?
    ensures Out(index[k := loc]) <= Out(index)
  {
  }

  // Below the budget a new body evicts nothing.
  lemma TrackWithRoom(budget: nat, index: Index, q: seq<URLKey>, n: int, k: URLKey)
    ensures 0 < budget && n < budget ==> Track(budget, index, q, n, k) == (index, q + [k], n + 1)
  {
  }

  // Within one log generation, of a store opened empty or recovered, every answer is the plain map's,
  // whatever is evicted.
  method RunGeneration(s: Store, cmds: seq<Command>) returns (replies: seq<Reply>)
    requires s.Valid() && s.Steady() && s.nextLSN + |cmds| <= TWO_64 && Checkpoint !in cmds
    modifies s
    ensures replies == Answers(old(s.truth.live), old(s.nextLSN), cmds) && s.truth.live == After(old(s.truth.live), cmds)
    ensures s.Valid() && s.Steady() && s.Agrees()
  {
    hide Backed, Tracked, Agree, OneGeneration, Out, Do, Answer, NextLSN, After, Answers, NewRow;
    replies := [];
    ghost var wanted, last := Answers(s.truth.live, s.nextLSN, cmds), After(s.truth.live, cmds);
    assert cmds[0..] == cmds;
    for i := 0 to |cmds|
      invariant s.Valid() && s.Steady() && s.nextLSN + (|cmds| - i) <= TWO_64
      invariant replies + Answers(s.truth.live, s.nextLSN, cmds[i..]) == wanted && After(s.truth.live, cmds[i..]) == last
    {
      SteadyIsFresh(s.index, s.truth, s.pinned);
      RunNext(s.truth.live, s.nextLSN, cmds, i);
      LsnStep(s.nextLSN, cmds[i]);
      var reply := Perform(s, cmds[i]);
      replies := replies + [reply];
    }
    RunEnds(s.truth.live, s.nextLSN, cmds[|cmds|..]);
    SteadyIsFresh(s.index, s.truth, s.pinned);
    s.AgreesUnlessStale();
  }

  lemma RunNext(live: map<URLKey, Value>, n: nat, cmds: seq<Command>, i: nat)
    requires i < |cmds|
    ensures Answers(live, n, cmds[i..]) == [Answer(live, n, cmds[i])] + Answers(Do(live, cmds[i]), NextLSN(n, cmds[i]), cmds[i + 1..])
    ensures After(live, cmds[i..]) == After(Do(live, cmds[i]), cmds[i + 1..])
    ensures NewRows(live, cmds[i..]) == NewRow(live, cmds[i]) + NewRows(Do(live, cmds[i]), cmds[i + 1..])
  {
    assert cmds[i..][1..] == cmds[i + 1..];
  }

  lemma RunEnds(live: map<URLKey, Value>, n: nat, cmds: seq<Command>)
    requires cmds == []
    ensures Answers(live, n, cmds) == [] && After(live, cmds) == live
  {
  }

  lemma LsnStep(n: nat, cmd: Command)
    ensures NextLSN(n, cmd) <= n + 1
  {
  }

  lemma SteadyIsFresh(index: Index, t: Truth, pinned: set<URLKey>)
    requires OneGeneration(index, t, pinned)
    ensures t.stale == {}
  {
  }

  // A run has room when the bodies it adds fit the budget on top of those counted. A store without a
  // budget always has it.
  predicate HasRoom(budget: nat, counted: int, live: map<URLKey, Value>, cmds: seq<Command>) {
    budget == 0 || counted + NewRows(live, cmds) <= budget
  }

  // With room, every answer and every snapshot is the plain map's over any number of checkpoints.
  method RunWithRoom(s: Store, cmds: seq<Command>) returns (replies: seq<Reply>)
    requires s.Valid() && s.truth.stale == {} && Out(s.index) == {} && s.nextLSN + |cmds| <= TWO_64
    requires HasRoom(s.residentBudget, s.residentN, s.truth.live, cmds)
    modifies s
    ensures replies == Answers(old(s.truth.live), old(s.nextLSN), cmds) && s.truth.live == After(old(s.truth.live), cmds)
    ensures s.Valid() && s.Agrees() && s.truth.stale == {} && Out(s.index) == {}
  {
    hide Backed, Tracked, Agree, OneGeneration, Out, Do, Answer, NextLSN, After, Answers, NewRow, NewRows;
    replies := [];
    ghost var wanted, last := Answers(s.truth.live, s.nextLSN, cmds), After(s.truth.live, cmds);
    assert cmds[0..] == cmds;
    for i := 0 to |cmds|
      invariant s.Valid() && s.truth.stale == {} && Out(s.index) == {} && s.nextLSN + (|cmds| - i) <= TWO_64
      invariant replies + Answers(s.truth.live, s.nextLSN, cmds[i..]) == wanted && After(s.truth.live, cmds[i..]) == last
      invariant HasRoom(s.residentBudget, s.residentN, s.truth.live, cmds[i..])
    {
      RunNext(s.truth.live, s.nextLSN, cmds, i);
      LsnStep(s.nextLSN, cmds[i]);
      var reply := Perform(s, cmds[i]);
      replies := replies + [reply];
    }
    RunEnds(s.truth.live, s.nextLSN, cmds[|cmds|..]);
    s.AgreesUnlessStale();
  }

  // A checkpoint and a reopen keep the rows exactly when the store answered like the map.
  method Reopen(s: Store) returns (t: Store)
    requires s.Valid()
    modifies s
    ensures fresh(t) && t.Valid() && t.Steady() && t.Agrees()
    ensures t.truth.live == s.truth.live == old(s.truth.live) <==> old(s.Agrees())
  {
    hide Track, ReadAt, Replay, Residents, Out, Redo, Store.Valid, Store.Steady, Store.Agrees;
    var snap := s.Checkpoint();
    NoFrames(s.crc);
    RedoNone(snap, 1);
    t := new Store.Recover(s.crc, s.residentBudget, snap, s.file, s.nextLSN);
  }

  // ---- witnesses ----

  // The store once the first of two rows has been evicted, its offset being zero.
  ghost predicate FirstIsOut(s: Store, a: URLKey, b: URLKey)
    reads s
  {
    && s.Valid() && s.residentBudget == 1 && s.residentN == 1 && s.evictQ == [b] && s.nextLSN == 3
    && s.index.Keys == {a, b} && s.index[a] == Loc(0, 1, None, false)
    && s.index[b].rec.Some? && !s.index[b].tomb
  }

  method PutFirst(crc: Checksum, a: URLKey, va: Value) returns (s: Store)
    ensures fresh(s) && s.crc == crc && s.Valid() && s.residentBudget == 1 && s.residentN == 1 && s.evictQ == [a] && s.nextLSN == 2
    ensures s.index == map[a := Loc(0, 1, Some(va), false)]
  {
    hide Track, Residents, ReadAt, ReadValue, Lookup, Out, Store.Valid, Store.Steady, Store.Agrees;
    s := new Store(crc, 1);
    FirstTrack(s.index, a, Loc(0, 1, Some(va), false));
    var lsn := s.PutURL(a, va);
  }

  method EvictFirst(crc: Checksum, a: URLKey, b: URLKey, va: Value, vb: Value) returns (s: Store)
    requires a != b
    ensures fresh(s) && s.crc == crc && FirstIsOut(s, a, b)
  {
    hide Track, Residents, ReadAt, ReadValue, Lookup, Out, Store.Valid, Store.Steady, Store.Agrees;
    s := PutFirst(crc, a, va);
    SecondTrack(s.index, a, b, Loc(|s.file|, 2, Some(vb), false));
    var lsn := s.PutURL(b, vb);
  }

  lemma FirstTrack(index: Index, a: URLKey, loc: Loc)
    requires index == map[]
    ensures a !in Residents(index) && Track(1, index[a := loc], [], 0, a) == (map[a := loc], [a], 1)
  {
    assert index[a := loc] == map[a := loc] && [] + [a] == [a];
  }

  lemma SecondTrack(index: Index, a: URLKey, b: URLKey, loc: Loc)
    requires index.Keys == {a} && a != b && index[a].rec.Some? && !index[a].tomb
    ensures b !in Residents(index)
    ensures Track(1, index[b := loc], [a], 1, b) == (index[b := loc][a := index[a].(rec := None)], [b], 1)
  {
    ShedFirst(index[b := loc], a, b);
  }

  // A budget of one row. The first row is evicted by the second; after a checkpoint it is absent
  // though nobody deleted it. Once another row is written, its body is served under the first row's
  // key, becomes resident there, and goes into the next snapshot.
  method EvictedAcrossCheckpoint(crc: Checksum, a: URLKey, b: URLKey, c: URLKey, va: Value, vb: Value, vc: Value)
    returns (absent: Option<Value>, wrong: Option<Value>, second: map<URLKey, Value>)
    requires a != b && b != c && c != a && va != vc
    ensures absent == None && wrong == Some(vc) != Some(va)
    ensures a in second && second[a] == vc
  {
    hide Shed, ReadAt, ReadValue, Rows, Out, Store.Valid, Store.Steady, Store.Agrees;
    var s := EvictFirst(crc, a, b, va, vb);
    var first := s.Checkpoint();
    EmptyLog(crc);
    absent := s.GetURL(a);
    wrong := Misread(s, a, b, c, vc);
    RowIsIn(s.file, crc, s.index, a, vc);
    second := s.Checkpoint();
  }

  method Misread(s: Store, a: URLKey, b: URLKey, c: URLKey, vc: Value) returns (wrong: Option<Value>)
    requires a != b && b != c && c != a && FirstIsOut(s, a, b) && s.file == []
    modifies s
    ensures s.Valid() && wrong == Some(vc) && a in s.index && s.index[a].rec == wrong && !s.index[a].tomb
  {
    hide Shed, ReadAt, ReadValue, Rows, Out, Store.Valid, Store.Steady, Store.Agrees;
    ghost var i2 := s.index;
    var l3 := s.PutURL(c, vc);
    ShedFirst(i2[c := Loc(0, l3, Some(vc), false)], b, c);
    ghost var i3 := s.index;
    assert i3 == Drop(i2[c := Loc(0, l3, Some(vc), false)], b) && s.evictQ == [c] && s.residentN == 1;
    wrong := s.GetURL(a);
    ShedFirst(i3[a := Loc(0, 1, wrong, false)], c, a);
  }

  lemma RowIsIn(file: bytes, crc: Checksum, index: Index, k: URLKey, val: Value)
    requires k in index && index[k].rec == Some(val) && !index[k].tomb
    ensures k in Rows(file, crc, index) && Rows(file, crc, index)[k] == val
  {
  }

  // Recovered rows are not counted: two of them outnumber a budget of one, no operation on them
  // changes that, and rewriting one does not queue it.
  method RecoveredOverBudget(crc: Checksum, a: URLKey, b: URLKey, va: Value, vb: Value) returns (s: Store)
    requires a != b
    ensures fresh(s) && s.Valid() && s.residentBudget == 1 && s.residentN == 0 && s.evictQ == []
    ensures Residents(s.index) == {a, b} && |Residents(s.index)| > s.residentBudget
  {
    hide Track, ReadAt, Replay, Residents, Redo, Out, Store.Valid, Store.Steady, Store.Agrees;
    var snap := map[a := va, b := vb];
    s := new Store.Recover(crc, 1, snap, [], 1);
    NoFrames(crc);
    RedoNone(snap, 1);
    assert snap.Keys == {a, b} && Residents(s.index) == {a, b};
    NewBody(s.index, a, Loc(0, 1, Some(vb), false));
    var lsn := s.PutURL(a, vb);
    assert {a, b} + {a} == {a, b};
    assert |{a, b}| == 2;
  }

  lemma NoFrames(crc: Checksum)
    ensures Replay([], 0, crc) == []
  {
  }

  lemma ShedNone(index: Index, q: seq<URLKey>)
    ensures Shed(1, index, q, 1) == (index, q, 1)
  {
  }

  lemma ShedFirst(index: Index, x: URLKey, y: URLKey)
    requires x in index && index[x].rec.Some? && !index[x].tomb
    ensures Shed(1, index, [x] + [y], 2) == (Drop(index, x), [y], 1)
  {
    assert ([x] + [y])[1..] == [y];
    ShedNone(Drop(index, x), [y]);
  }

  lemma EmptyLog(crc: Checksum)
    ensures forall off :: ReadValue([], crc, off) == None
  {
  }
}
