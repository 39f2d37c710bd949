// Model of distribute/handoff.go: the ship-then-delete protocol that moves hosts to their new
// owners. The transport is arbitrary: it may fail, refuse, or answer for another move.
module Handoff {
  import opened Wrappers
  import opened Bytes
  import opened Keys
  import opened PartitionOps

  type PartitionID = nat

  datatype MoveAck = MoveAck(dest: PartitionID, epoch: nat, checksum: nat, committed: bool)

  // Everything outside the source: the map's owner lookup, the encoder and its checksum, and the
  // transport's answer to the n-th slice shipped in the round, None for a transport error.
  datatype Round = Round(owner: nat -> PartitionID, epoch: nat, encode: Partition -> Option<bytes>,
                         checksum: bytes -> nat, ship: (nat, PartitionID, bytes) -> Option<MoveAck>)

  // One destination's turn: its slice, the bytes unless the slice cannot be encoded, and the answer.
  datatype Attempt = Attempt(dest: PartitionID, slice: Partition, blob: Option<bytes>, answer: Option<MoveAck>)

  // The n-th turn of a round went this way.
  ghost predicate Tried(r: Round, n: nat, a: Attempt) {
    && a.slice.id == a.dest && a.blob == r.encode(a.slice)
    && a.answer == match a.blob case None => None case Some(b) => r.ship(n, a.dest, b)
  }

  ghost predicate Recorded(r: Round, log: seq<Attempt>) {
    forall n :: 0 <= n < |log| ==> Tried(r, n, log[n])
  }

  // The acknowledgement that lets the source delete: committed, for this destination and epoch, and
  // of these bytes.
  predicate Acknowledged(r: Round, a: Attempt) {
    a.blob.Some? && a.answer == Some(MoveAck(a.dest, r.epoch, r.checksum(a.blob.value), true))
  }

  // The turns of a round that were acknowledged.
  function Confirmed(r: Round, log: seq<Attempt>): (ds: seq<Attempt>)
    ensures forall d :: d in ds <==> d in log && Acknowledged(r, d)
  {
    if log == [] then []
    else
      var n := |log| - 1;
      assert log == log[..n] + [log[n]];
      Confirmed(r, log[..n]) + if Acknowledged(r, log[n]) then [log[n]] else []
  }

  function Dests(log: seq<Attempt>): (ds: seq<PartitionID>)
    ensures |ds| == |log| && forall i :: 0 <= i < |log| ==> ds[i] == log[i].dest
  {
    seq(|log|, i requires 0 <= i < |log| => log[i].dest)
  }

  function Moving(r: Round, self: PartitionID, hosts: seq<HostRow>, dest: PartitionID): set<nat> {
    set h | h in hosts && r.owner(h.host) == dest && dest != self :: h.host
  }

  function Owners(r: Round, self: PartitionID, src: Partition): set<PartitionID> {
    set h | h in src.hosts && r.owner(h.host) != self :: r.owner(h.host)
  }

  // The slice holds exactly the rows of the hosts that the destination now owns.
  ghost predicate SliceOf(r: Round, self: PartitionID, src: Partition, dest: PartitionID, slice: Partition) {
    && UrlViews(slice.strings, slice.urls) == Keep(UrlViews(src.strings, src.urls), HostIn(Moving(r, self, src.hosts, dest)))
    && HostViews(slice.strings, slice.hosts) == Keep(HostViews(src.strings, src.hosts), HostRowIn(Moving(r, self, src.hosts, dest)))
  }

  // The rows of the deliveries, as multisets of what they mean.
  ghost function UrlsDelivered(ds: seq<Attempt>): multiset<UrlView> {
    if ds == [] then multiset{}
    else UrlsDelivered(ds[..|ds| - 1]) + multiset(UrlViews(ds[|ds| - 1].slice.strings, ds[|ds| - 1].slice.urls))
  }

  ghost function HostsDelivered(ds: seq<Attempt>): multiset<HostView> {
    if ds == [] then multiset{}
    else HostsDelivered(ds[..|ds| - 1]) + multiset(HostViews(ds[|ds| - 1].slice.strings, ds[|ds| - 1].slice.hosts))
  }

  // Every row of src is in keep or in exactly one delivered slice.
  ghost predicate Conserved(src: Partition, keep: Partition, ds: seq<Attempt>) {
    && multiset(UrlViews(src.strings, src.urls)) == multiset(UrlViews(keep.strings, keep.urls)) + UrlsDelivered(ds)
    && multiset(HostViews(src.strings, src.hosts)) == multiset(HostViews(keep.strings, keep.hosts)) + HostsDelivered(ds)
  }

  // slices.Sort over the keys of a map.
  method SortSet(s: set<nat>) returns (q: seq<nat>)
    ensures Ascending(q)
    ensures forall x :: x in q <==> x in s
  {
    q := [];
    var rest := s;
    while rest != {}
      invariant forall i, j :: 0 <= i < j < |q| ==> q[i] < q[j]
      invariant forall x :: x in s <==> x in q || x in rest
      invariant forall i, y :: 0 <= i < |q| && y in rest ==> q[i] < y
      decreases |rest|
    {
      ghost var least := MinOf(rest);
      var x :| x in rest && forall y :: y in rest ==> x <= y;
      q := q + [x];
      rest := rest - {x};
    }
  }

  lemma {:induction false} MinOf(s: set<nat>) returns (m: nat)
    requires s != {}
    ensures m in s && forall y :: y in s ==> m <= y
    decreases |s|
  {
    var x :| x in s;
    var t := s - {x};
    assert s == t + {x};
    m := x;
    if t != {} {
      var m' := MinOf(t);
      m := if m' <= x then m' else x;
    }
  }

  // ---- one round ----

  // A host of the source that some acknowledged destination of the round now owns.
  ghost predicate Left(r: Round, self: PartitionID, moved: seq<PartitionID>, host: nat) {
    r.owner(host) != self && r.owner(host) in moved
  }

  ghost function StaysHost(r: Round, self: PartitionID, moved: seq<PartitionID>, hosts: set<nat>): HostView -> bool {
    (v: HostView) => !(v.host in hosts && Left(r, self, moved, v.host))
  }

  ghost function StaysUrl(r: Round, self: PartitionID, moved: seq<PartitionID>, hosts: set<nat>): UrlView -> bool {
    (v: UrlView) => !(v.key.host in hosts && Left(r, self, moved, v.key.host))
  }

  ghost function HostSet(hosts: seq<HostRow>): set<nat> {
    set h | h in hosts :: h.host
  }

  // What the source keeps: the rows of every host but those whose new owner acknowledged.
  ghost predicate Kept(r: Round, self: PartitionID, src: Partition, moved: seq<PartitionID>, keep: Partition) {
    && UrlViews(keep.strings, keep.urls) == Keep(UrlViews(src.strings, src.urls), StaysUrl(r, self, moved, HostSet(src.hosts)))
    && HostViews(keep.strings, keep.hosts) == Keep(HostViews(src.strings, src.hosts), StaysHost(r, self, moved, HostSet(src.hosts)))
  }

  // A transport that delivers every slice and says so.
  ghost predicate Faithful(r: Round) {
    forall n, dest, blob :: r.ship(n, dest, blob) == Some(MoveAck(dest, r.epoch, r.checksum(blob), true))
  }

  ghost predicate Ascending(s: seq<nat>) {
    forall i, j :: 0 <= i < j < |s| ==> s[i] < s[j]
  }

  // How far a round has got: every delivery so far is acknowledged and holds its owner's hosts, and
  // the source keeps the rest.
  ghost predicate Progress(r: Round, self: PartitionID, src: Partition, keep: Partition,
                           moved: seq<PartitionID>, ds: seq<Attempt>) {
    && (forall d :: d in ds ==> Acknowledged(r, d) && d.dest != self)
    && (forall d, h :: d in ds && h in d.slice.hosts ==> r.owner(h.host) == d.dest)
    && Conserved(src, keep, ds) && Kept(r, self, src, moved, keep) && moved == Dests(ds)
  }

  // The encoder's one refusal is rows out of order.
  ghost predicate Encodes(r: Round) {
    forall p :: r.encode(p).Some? <==> InOrder(p)
  }

  predicate InOrder(p: Partition) {
    SortedUrls(p.urls) && SortedHosts(p.hosts)
  }

  ghost predicate UrlViewsInOrder(us: seq<UrlView>) {
    forall i, j :: 0 <= i < j < |us| ==> !us[j].key.Less(us[i].key)
  }

  ghost predicate HostViewsInOrder(hs: seq<HostView>) {
    forall i, j :: 0 <= i < j < |hs| ==> hs[i].host <= hs[j].host
  }

  // The source's own rows of one destination are in order.
  ghost predicate DestInOrder(r: Round, self: PartitionID, src: Partition, dest: PartitionID) {
    && UrlViewsInOrder(Keep(UrlViews(src.strings, src.urls), HostIn(Moving(r, self, src.hosts, dest))))
    && HostViewsInOrder(Keep(HostViews(src.strings, src.hosts), HostRowIn(Moving(r, self, src.hosts, dest))))
  }

  // Ship one destination's slice. Extract copies, so a slice that is not acknowledged is dropped, and
  // one that is leaves the source.
  method ShipTo(src: Partition, self: PartitionID, r: Round, keep: Partition, n: nat, dest: PartitionID,
                ghost moved: seq<PartitionID>, ghost ds: seq<Attempt>)
    returns (a: Attempt, rest: Partition)
    requires dest != self && dest !in moved && Progress(r, self, src, keep, moved, ds)
    ensures a.dest == dest && Tried(r, n, a) && SliceOf(r, self, src, dest, a.slice)
    ensures if Acknowledged(r, a) then Progress(r, self, src, rest, moved + [dest], ds + [a]) else rest == keep
    ensures Faithful(r) && a.blob.Some? ==> Acknowledged(r, a)
  {
    hide Conserved, Kept, Keep;
    var slice;
    slice, rest := Extract(keep, Moving(r, self, src.hosts, dest));
    var out := slice.(id := dest);
    SameSlice(r, self, src, keep, moved, dest, slice, rest);
    var blob := r.encode(out);
    if blob.None? {
      return Attempt(dest, out, None, None), keep;
    }
    var ack := r.ship(n, dest, blob.value);
    a := Attempt(dest, out, blob, ack);
    if ack.None? || !ack.value.committed || ack.value.dest != dest || ack.value.epoch != r.epoch
      || ack.value.checksum != r.checksum(blob.value) {
      return a, keep;
    }
    OwnedSlice(r, self, src, keep, dest, slice, rest);
    Deliver(r, self, src, keep, ds, moved, a, rest, slice);
  }

  // The slices already delivered hold none of this destination's rows.
  lemma SameSlice(r: Round, self: PartitionID, src: Partition, keep: Partition, moved: seq<PartitionID>, dest: PartitionID,
                  out: Partition, rest: Partition)
    requires Kept(r, self, src, moved, keep) && dest !in moved && IsExtract(keep, Moving(r, self, src.hosts, dest), out, rest)
    ensures SliceOf(r, self, src, dest, out.(id := dest))
  {
    hide Keep;
    var moving, hosts := Moving(r, self, src.hosts, dest), HostSet(src.hosts);
    assert forall h :: h in moving ==> r.owner(h) == dest;
    KeepTwice(UrlViews(src.strings, src.urls), StaysUrl(r, self, moved, hosts), HostIn(moving), HostIn(moving));
    KeepTwice(HostViews(src.strings, src.hosts), StaysHost(r, self, moved, hosts), HostRowIn(moving), HostRowIn(moving));
  }

  // The round ended on a slice that could not be encoded.
  predicate Broke(log: seq<Attempt>) {
    log != [] && log[|log| - 1].blob.None?
  }

  // What a round did: every destination had its turn, in order and with its own rows, and the source
  // keeps what was not acknowledged; or an encode failed and the source is as it was.
  ghost predicate HandsOff(r: Round, self: PartitionID, src: Partition, log: seq<Attempt>, next: Partition) {
    && Recorded(r, log) && Ascending(Dests(log))
    && (forall a :: a in log ==> SliceOf(r, self, src, a.dest, a.slice) && a.dest in Owners(r, self, src))
    && if Broke(log) then next == src && Failed(r, self, src, log)
       else
         && next.id == self && Progress(r, self, src, next, Dests(Confirmed(r, log)), Confirmed(r, log))
         && forall x :: x in Owners(r, self, src) ==> x in Dests(log)
  }

  // Handoff. An unencodable slice ends the round with an error, and the caller still has the whole
  // source; what was acknowledged before stays with its destinations.
  method HandOff(src: Partition, self: PartitionID, r: Round)
    returns (kept: Option<Partition>, moved: seq<PartitionID>, log: seq<Attempt>)
    ensures HandsOff(r, self, src, log, if kept.Some? then kept.value else src) && (kept.None? <==> Broke(log))
    ensures moved == (if kept.Some? then Dests(Confirmed(r, log)) else []) && Ascending(moved)
    ensures Encodes(r) ==> (kept.Some? <==> AllInOrder(r, self, src))
    ensures kept.Some? && Faithful(r) ==>
      HostViews(kept.value.strings, kept.value.hosts) == Keep(HostViews(src.strings, src.hosts), OwnedBy(r, self))
  {
    hide Progress, OwnedBy, Keep, SliceOf, Tried, Owners, Faithful, Acknowledged, Encodes, AllInOrder, HandsOff, Broke, DestInOrder, InOrder;
    var dests := SortSet(Owners(r, self, src));
    OthersOwn(r, self, src);
    var keep := src;
    moved, log := [], [];
    KeepAll(r, self, src);
    for n := 0 to |dests|
      invariant Progress(r, self, src, keep, moved, Confirmed(r, log)) && Recorded(r, log) && Dests(log) == dests[..n]
      invariant forall a :: a in log ==> SliceOf(r, self, src, a.dest, a.slice) && a.dest in Owners(r, self, src) && a.blob.Some?
      invariant Ascending(moved) && forall x :: x in moved ==> x in dests[..n]
      invariant Faithful(r) ==> moved == dests[..n]
    {
      NextDest(dests, n, moved);
      var a, rest := ShipTo(src, self, r, keep, n, dests[n], moved, Confirmed(r, log));
      LogNext(r, log, a, n);
      log := log + [a];
      if a.blob.None? {
        Stopped(r, self, src, log, dests, n);
        return None, [], log;
      }
      if Acknowledged(r, a) {
        moved := moved + [dests[n]];
      }
      keep := rest;
    }
    assert dests[..|dests|] == dests;
    if Faithful(r) {
      AllMoved(r, self, src, moved, keep, Confirmed(r, log));
    }
    Done(r, self, src, log, moved, keep);
    kept := Some(keep.(id := self));
  }

  // Every destination below the one that could not be encoded had its turn.
  ghost predicate Failed(r: Round, self: PartitionID, src: Partition, log: seq<Attempt>) {
    && Broke(log) && (forall i :: 0 <= i < |log| - 1 ==> log[i].blob.Some?)
    && (forall x :: x in Dests(log) ==> x in Owners(r, self, src))
    && (forall x :: x in Owners(r, self, src) && x < log[|log| - 1].dest ==> x in Dests(log))
  }

  lemma MovedAre(r: Round, self: PartitionID, src: Partition, keep: Partition, moved: seq<PartitionID>, ds: seq<Attempt>)
    requires Progress(r, self, src, keep, moved, ds)
    ensures moved == Dests(ds)
  {
  }

  // A partition's own id plays no part in what it holds.
  lemma Relabelled(r: Round, self: PartitionID, src: Partition, keep: Partition, moved: seq<PartitionID>, ds: seq<Attempt>)
    requires Progress(r, self, src, keep, moved, ds)
    ensures Progress(r, self, src, keep.(id := self), moved, ds)
  {
  }

  lemma OthersOwn(r: Round, self: PartitionID, src: Partition)
    ensures self !in Owners(r, self, src)
    ensures forall h :: h in src.hosts && r.owner(h.host) != self ==> r.owner(h.host) in Owners(r, self, src)
  {
  }

  lemma NextDest(dests: seq<nat>, n: nat, moved: seq<nat>)
    requires Ascending(dests) && n < |dests| && Ascending(moved)
    requires forall x :: x in moved ==> x in dests[..n]
    ensures dests[n] in dests && dests[n] !in moved && Ascending(moved + [dests[n]])
    ensures dests[..n + 1] == dests[..n] + [dests[n]]
  {
    forall i | 0 <= i < |moved|
      ensures moved[i] < dests[n]
    {
      assert moved[i] in dests[..n];
    }
  }

  lemma LogNext(r: Round, log: seq<Attempt>, a: Attempt, n: nat)
    requires Recorded(r, log) && n == |log| && Tried(r, n, a)
    ensures Recorded(r, log + [a]) && Dests(log + [a]) == Dests(log) + [a.dest]
    ensures Confirmed(r, log + [a]) == if Acknowledged(r, a) then Confirmed(r, log) + [a] else Confirmed(r, log)
  {
    assert (log + [a])[..|log|] == log;
  }

  lemma Stopped(r: Round, self: PartitionID, src: Partition, log: seq<Attempt>, dests: seq<PartitionID>, n: nat)
    requires Ascending(dests) && n < |dests| && Dests(log) == dests[..n + 1]
    requires forall x :: x in dests <==> x in Owners(r, self, src)
    requires log[n].blob.None? && forall i :: 0 <= i < n ==> log[i].blob.Some?
    requires Recorded(r, log) && forall a :: a in log ==> SliceOf(r, self, src, a.dest, a.slice) && a.dest in Owners(r, self, src)
    ensures HandsOff(r, self, src, log, src) && Broke(log) && (Encodes(r) ==> !AllInOrder(r, self, src))
  {
    hide Owners, Tried, SliceOf, Encodes, AllInOrder;
    assert log[n].dest == Dests(log)[n] == dests[n];
    forall x | x in Owners(r, self, src) && x < dests[n]
      ensures x in Dests(log)
    {
      assert x in dests;
      var i :| 0 <= i < |dests| && dests[i] == x;
      assert i <= n && dests[..n + 1][i] == x;
    }
    assert Failed(r, self, src, log);
    if Encodes(r) {
      FailsIff(r, self, src, log, true);
    }
  }

  lemma Done(r: Round, self: PartitionID, src: Partition, log: seq<Attempt>, moved: seq<PartitionID>, keep: Partition)
    requires Progress(r, self, src, keep, moved, Confirmed(r, log)) && Recorded(r, log) && Ascending(Dests(log))
    requires forall a :: a in log ==> SliceOf(r, self, src, a.dest, a.slice) && a.dest in Owners(r, self, src) && a.blob.Some?
    requires forall x :: x in Dests(log) <==> x in Owners(r, self, src)
    ensures HandsOff(r, self, src, log, keep.(id := self)) && !Broke(log)
    ensures moved == Dests(Confirmed(r, log)) && (Encodes(r) ==> AllInOrder(r, self, src))
  {
    hide Progress, Recorded, SliceOf, Owners, Encodes, AllInOrder, Confirmed, Failed;
    Relabelled(r, self, src, keep, moved, Confirmed(r, log));
    MovedAre(r, self, src, keep, moved, Confirmed(r, log));
    if Encodes(r) {
      FailsIff(r, self, src, log, false);
    }
  }

  // ---- which rounds fail ----

  lemma OrderOfViews(p: Partition)
    ensures InOrder(p) <==> UrlViewsInOrder(UrlViews(p.strings, p.urls)) && HostViewsInOrder(HostViews(p.strings, p.hosts))
  {
    var us, hs := UrlViews(p.strings, p.urls), HostViews(p.strings, p.hosts);
    assert forall i :: 0 <= i < |us| ==> us[i].key == p.urls[i].key;
    assert forall i :: 0 <= i < |hs| ==> hs[i].host == p.hosts[i].host;
  }

  lemma {:induction false} KeepInOrder(us: seq<UrlView>, f: UrlView -> bool)
    requires UrlViewsInOrder(us)
    ensures UrlViewsInOrder(Keep(us, f)) && forall u :: u in Keep(us, f) ==> u in us
  {
    if us != [] {
      var n := |us| - 1;
      KeepInOrder(us[..n], f);
      forall i | 0 <= i < |Keep(us[..n], f)|
        ensures !us[n].key.Less(Keep(us[..n], f)[i].key)
      {
        assert Keep(us[..n], f)[i] in us[..n];
      }
    }
  }

  lemma {:induction false} KeepHostsInOrder(hs: seq<HostView>, f: HostView -> bool)
    requires HostViewsInOrder(hs)
    ensures HostViewsInOrder(Keep(hs, f)) && forall h :: h in Keep(hs, f) ==> h in hs
  {
    if hs != [] {
      var n := |hs| - 1;
      KeepHostsInOrder(hs[..n], f);
      forall i | 0 <= i < |Keep(hs[..n], f)|
        ensures Keep(hs[..n], f)[i].host <= hs[n].host
      {
        assert Keep(hs[..n], f)[i] in hs[..n];
      }
    }
  }

  ghost predicate AllInOrder(r: Round, self: PartitionID, src: Partition) {
    forall x :: x in Owners(r, self, src) ==> DestInOrder(r, self, src, x)
  }

  // A turn's slice can be encoded exactly when the source's rows of its destination are in order.
  lemma EncodedIff(r: Round, self: PartitionID, src: Partition, n: nat, a: Attempt)
    requires Encodes(r) && Tried(r, n, a) && SliceOf(r, self, src, a.dest, a.slice)
    ensures a.blob.Some? <==> DestInOrder(r, self, src, a.dest)
  {
    hide InOrder, Keep, UrlViewsInOrder, HostViewsInOrder;
    OrderOfViews(a.slice);
  }

  // With an encoder that refuses only rows out of order, a round fails exactly when some destination's
  // rows are out of order, whatever the transport does.
  lemma FailsIff(r: Round, self: PartitionID, src: Partition, log: seq<Attempt>, failed: bool)
    requires Encodes(r) && Recorded(r, log) && forall a :: a in log ==> SliceOf(r, self, src, a.dest, a.slice)
    requires if failed then Failed(r, self, src, log)
             else (forall a :: a in log ==> a.blob.Some?) && forall x :: x in Owners(r, self, src) ==> x in Dests(log)
    ensures failed <==> !AllInOrder(r, self, src)
  {
    hide Encodes, Tried, SliceOf, DestInOrder, Owners;
    forall n | 0 <= n < |log|
      ensures log[n].blob.Some? <==> DestInOrder(r, self, src, log[n].dest)
    {
      assert log[n] in log;
      EncodedIff(r, self, src, n, log[n]);
    }
    if failed {
      var a := log[|log| - 1];
      assert Dests(log)[|log| - 1] == a.dest;
      assert a.dest in Owners(r, self, src) && !DestInOrder(r, self, src, a.dest);
    } else {
      forall x | x in Owners(r, self, src)
        ensures DestInOrder(r, self, src, x)
      {
        var n :| 0 <= n < |log| && Dests(log)[n] == x;
        assert log[n] in log;
      }
    }
  }

  // A source in order has nothing out of order to ship.
  lemma OrderedSource(r: Round, self: PartitionID, src: Partition)
    requires InOrder(src)
    ensures AllInOrder(r, self, src)
  {
    hide InOrder, UrlViewsInOrder, HostViewsInOrder, Owners, Keep;
    OrderOfViews(src);
    forall x | x in Owners(r, self, src)
      ensures DestInOrder(r, self, src, x)
    {
      KeepInOrder(UrlViews(src.strings, src.urls), HostIn(Moving(r, self, src.hosts, x)));
      KeepHostsInOrder(HostViews(src.strings, src.hosts), HostRowIn(Moving(r, self, src.hosts, x)));
    }
  }

  lemma KeptInOrder(r: Round, self: PartitionID, src: Partition, moved: seq<PartitionID>, keep: Partition)
    requires InOrder(src) && Kept(r, self, src, moved, keep)
    ensures InOrder(keep)
  {
    hide InOrder, UrlViewsInOrder, HostViewsInOrder, Keep;
    OrderOfViews(src);
    OrderOfViews(keep);
    KeepInOrder(UrlViews(src.strings, src.urls), StaysUrl(r, self, moved, HostSet(src.hosts)));
    KeepHostsInOrder(HostViews(src.strings, src.hosts), StaysHost(r, self, moved, HostSet(src.hosts)));
  }

  lemma {:induction false} KeepTrue<T>(s: seq<T>, f: T -> bool)
    requires forall x :: x in s ==> f(x)
    ensures Keep(s, f) == s
  {
    hide Keep;
    if s != [] {
      var n := |s| - 1;
      KeepTrue(s[..n], f);
      KeepSnoc(s, n, f);
      assert s[..n + 1] == s && s[n] in s;
    } else {
      KeepNone(f);
    }
  }

  lemma KeepNone<T>(f: T -> bool)
    ensures Keep([], f) == []
  {
  }

  lemma {:induction false} KeepTwice<T>(s: seq<T>, f: T -> bool, g: T -> bool, both: T -> bool)
    requires forall x :: both(x) <==> f(x) && g(x)
    ensures Keep(Keep(s, f), g) == Keep(s, both)
  {
    if s != [] {
      var n := |s| - 1;
      KeepTwice(s[..n], f, g, both);
      if f(s[n]) {
        assert Keep(s, f) == Keep(s[..n], f) + [s[n]];
        assert Keep(s, f)[..|Keep(s, f)| - 1] == Keep(s[..n], f);
      } else {
        assert Keep(s, f) == Keep(s[..n], f);
      }
    }
  }

  lemma {:induction false} KeepSame<T>(s: seq<T>, f: T -> bool, g: T -> bool)
    requires forall x :: x in s ==> f(x) == g(x)
    ensures Keep(s, f) == Keep(s, g)
  {
    if s != [] {
      KeepSame(s[..|s| - 1], f, g);
    }
  }

  lemma KeepAll(r: Round, self: PartitionID, src: Partition)
    ensures Progress(r, self, src, src, [], [])
  {
    hide Keep;
    KeepTrue(UrlViews(src.strings, src.urls), StaysUrl(r, self, [], HostSet(src.hosts)));
    KeepTrue(HostViews(src.strings, src.hosts), StaysHost(r, self, [], HostSet(src.hosts)));
  }

  ghost function OwnedBy(r: Round, self: PartitionID): HostView -> bool {
    (v: HostView) => r.owner(v.host) == self
  }

  lemma OwnedSlice(r: Round, self: PartitionID, src: Partition, keep: Partition, dest: PartitionID, out: Partition, rest: Partition)
    requires IsExtract(keep, Moving(r, self, src.hosts, dest), out, rest)
    ensures forall h :: h in out.hosts ==> r.owner(h.host) == dest
  {
    var moving := Moving(r, self, src.hosts, dest);
    forall h | h in out.hosts
      ensures r.owner(h.host) == dest
    {
      var i :| 0 <= i < |out.hosts| && out.hosts[i] == h;
      assert HostViews(out.strings, out.hosts)[i] in Keep(HostViews(keep.strings, keep.hosts), HostRowIn(moving));
    }
  }

  // Dropping an acknowledged slice keeps both halves of the invariant.
  lemma Deliver(r: Round, self: PartitionID, src: Partition, keep: Partition, ds: seq<Attempt>,
                moved: seq<PartitionID>, d: Attempt, rest: Partition, out: Partition)
    requires Conserved(src, keep, ds) && Kept(r, self, src, moved, keep) && d.dest != self
    requires IsExtract(keep, Moving(r, self, src.hosts, d.dest), out, rest)
    requires d.slice == out.(id := d.dest)
    ensures Conserved(src, rest, ds + [d]) && Kept(r, self, src, moved + [d.dest], rest)
  {
    hide Keep;
    var moving := Moving(r, self, src.hosts, d.dest);
    ExtractConserves(keep, moving, out, rest);
    assert (ds + [d])[..|ds|] == ds;
    var hosts := HostSet(src.hosts);
    assert forall h :: h in moving <==> h in hosts && r.owner(h) == d.dest;
    KeepTwice(UrlViews(src.strings, src.urls), StaysUrl(r, self, moved, hosts), HostOut(moving),
              StaysUrl(r, self, moved + [d.dest], hosts));
    KeepTwice(HostViews(src.strings, src.hosts), StaysHost(r, self, moved, hosts), HostRowOut(moving),
              StaysHost(r, self, moved + [d.dest], hosts));
  }

  lemma AllMoved(r: Round, self: PartitionID, src: Partition, moved: seq<PartitionID>, keep: Partition, ds: seq<Attempt>)
    requires Progress(r, self, src, keep, moved, ds)
    requires forall h :: h in src.hosts && r.owner(h.host) != self ==> r.owner(h.host) in moved
    ensures HostViews(keep.strings, keep.hosts) == Keep(HostViews(src.strings, src.hosts), OwnedBy(r, self))
  {
    var vs := HostViews(src.strings, src.hosts);
    forall v | v in vs
      ensures StaysHost(r, self, moved, HostSet(src.hosts))(v) == OwnedBy(r, self)(v)
    {
      var i :| 0 <= i < |vs| && vs[i] == v;
      assert src.hosts[i].host == v.host && src.hosts[i] in src.hosts;
    }
    KeepSame(vs, StaysHost(r, self, moved, HostSet(src.hosts)), OwnedBy(r, self));
  }

  // ---- any number of rounds ----

  // The acknowledged turns of every round.
  ghost function Delivered(rounds: seq<Round>, logs: seq<seq<Attempt>>): seq<Attempt>
    requires |rounds| == |logs|
  {
    if logs == [] then []
    else
      var n := |logs| - 1;
      Delivered(rounds[..n], logs[..n]) + Confirmed(rounds[n], logs[n])
  }

  // Those of the rounds that failed, whose rows the source has kept all the same.
  ghost function Doubled(rounds: seq<Round>, logs: seq<seq<Attempt>>): seq<Attempt>
    requires |rounds| == |logs|
  {
    if logs == [] then []
    else
      var n := |logs| - 1;
      Doubled(rounds[..n], logs[..n]) + if Broke(logs[n]) then Confirmed(rounds[n], logs[n]) else []
  }

  // An encode failed after a destination had acknowledged.
  predicate FailsLate(r: Round, log: seq<Attempt>) {
    Broke(log) && Confirmed(r, log) != []
  }

  // What was there at first and what is doubled is what is kept and what is delivered.
  ghost predicate Balanced(src: Partition, keep: Partition, ds: seq<Attempt>, twice: seq<Attempt>) {
    && multiset(UrlViews(src.strings, src.urls)) + UrlsDelivered(twice) == multiset(UrlViews(keep.strings, keep.urls)) + UrlsDelivered(ds)
    && multiset(HostViews(src.strings, src.hosts)) + HostsDelivered(twice) == multiset(HostViews(keep.strings, keep.hosts)) + HostsDelivered(ds)
  }

  // The source retries each round with what it still has, and a round whose slice cannot be encoded
  // leaves it as it was. Whatever the transports do no row is lost, and the rows doubled are those of
  // the destinations that acknowledged before an encode failed. So every row is kept, or is in exactly
  // one slice of all those acknowledged, exactly when no encode failed after an acknowledgement; with a
  // source in order none fails. sources holds the source before and after every round.
  method Rebalance(src: Partition, self: PartitionID, rounds: seq<Round>)
    returns (sources: seq<Partition>, logs: seq<seq<Attempt>>)
    ensures |sources| == |rounds| + 1 && |logs| == |rounds| && sources[0] == src
    ensures forall i :: 0 <= i < |rounds| ==> HandsOff(rounds[i], self, sources[i], logs[i], sources[i + 1])
    ensures Balanced(src, sources[|rounds|], Delivered(rounds, logs), Doubled(rounds, logs))
    ensures Conserved(src, sources[|rounds|], Delivered(rounds, logs)) <==> forall i :: 0 <= i < |rounds| ==> !FailsLate(rounds[i], logs[i])
    ensures InOrder(src) && (forall r :: r in rounds ==> Encodes(r)) ==> Conserved(src, sources[|rounds|], Delivered(rounds, logs))
  {
    hide Conserved, Balanced, HandsOff, InOrder, Encodes, Delivered, Doubled, Broke, FailsLate, AllNonempty;
    sources, logs := [src], [];
    NoneDelivered(src, rounds);
    for n := 0 to |rounds|
      invariant |sources| == n + 1 && |logs| == n && sources[0] == src
      invariant forall i :: 0 <= i < n ==> HandsOff(rounds[i], self, sources[i], logs[i], sources[i + 1])
      invariant Balanced(src, sources[n], Delivered(rounds[..n], logs), Doubled(rounds[..n], logs))
      invariant AllNonempty(Doubled(rounds[..n], logs))
      invariant InOrder(src) && (forall r :: r in rounds ==> Encodes(r)) ==> InOrder(sources[n]) && Doubled(rounds[..n], logs) == []
    {
      var k, moved, log := HandOff(sources[n], self, rounds[n]);
      assert rounds[n] in rounds;
      var next := if k.Some? then k.value else sources[n];
      RoundBalances(src, sources[n], self, rounds, logs, n, next, log);
      RoundInOrder(sources[n], self, rounds, logs, n, next, log);
      sources, logs := sources + [next], logs + [log];
    }
    assert rounds[..|rounds|] == rounds;
    ConservedIff(src, sources[|rounds|], Delivered(rounds, logs), Doubled(rounds, logs));
    NoneDoubled(rounds, logs);
  }

  // Host 1 moves to destination 1 and host 2, whose two rows are out of order, to destination 2.
  const OUT_OF_ORDER: Partition := Partition(0, 1, 2, 0, 0,
    [UrlRow(URLKey(1, 1), Live, 0, 0, 0, 10), UrlRow(URLKey(2, 5), Live, 0, 0, 0, 20), UrlRow(URLKey(2, 4), Live, 0, 0, 0, 30)],
    [HostRow(1, 0, 0, 0, 0), HostRow(2, 0, 0, 0, 0)], [], map[])

  function ToEach(): Round {
    Round(h => h, 1, p => if InOrder(p) then Some([]) else None, b => 0,
          (n: nat, dest: PartitionID, b: bytes) => Some(MoveAck(dest, 1, 0, true)))
  }

  // Host 1 is shipped and acknowledged, then host 2 cannot be encoded: the caller keeps the source,
  // host 1 included.
  method DoubledRow() returns (kept: Option<Partition>, log: seq<Attempt>)
    ensures kept == None && Recorded(ToEach(), log) && FailsLate(ToEach(), log)
    ensures !Conserved(OUT_OF_ORDER, OUT_OF_ORDER, Confirmed(ToEach(), log))
  {
    hide Recorded, Failed, Progress, AllInOrder, Conserved, Confirmed, Tried, SliceOf, InOrder;
    var r := ToEach();
    OnlySecondFails();
    var moved;
    kept, moved, log := HandOff(OUT_OF_ORDER, 0, r);
    FirstShips(log);
    forall a | a in log
      ensures a.slice.hosts != []
    {
      NonemptySlice(r, 0, OUT_OF_ORDER, a.dest, a.slice);
    }
    ConservedIff(OUT_OF_ORDER, OUT_OF_ORDER, Confirmed(r, log), Confirmed(r, log));
  }

  lemma OnlySecondFails()
    ensures var r, src := ToEach(), OUT_OF_ORDER;
      && Encodes(r) && Owners(r, 0, src) == {1, 2} && DestInOrder(r, 0, src, 1) && !DestInOrder(r, 0, src, 2)
      && !AllInOrder(r, 0, src)
  {
    var r, src := ToEach(), OUT_OF_ORDER;
    assert src.hosts[0].host == 1 && src.hosts[1].host == 2;
    assert Owners(r, 0, src) == {1, 2};
    assert Moving(r, 0, src.hosts, 1) == {1} && Moving(r, 0, src.hosts, 2) == {2};
    var us, hs := UrlViews(src.strings, src.urls), HostViews(src.strings, src.hosts);
    assert us == [us[0], us[1], us[2]] && hs == [hs[0], hs[1]];
    hide InOrder, Owners, Keep;
    KeepOfThree(us[0], us[1], us[2], HostIn({1}));
    KeepOfThree(us[0], us[1], us[2], HostIn({2}));
    KeepOfTwo(hs[0], hs[1], HostRowIn({1}));
    var bad := Keep(us, HostIn({2}));
    assert bad == [us[1], us[2]] && bad[1].key.Less(bad[0].key);
  }

  lemma KeepOfTwo<T>(a: T, b: T, f: T -> bool)
    ensures Keep([a, b], f) == (if f(a) then [a] else []) + (if f(b) then [b] else [])
  {
    assert [a, b][..1] == [a] && [a][..0] == [];
    assert Keep([], f) == [];
    assert Keep([a], f) == if f(a) then [a] else [];
  }

  lemma KeepOfThree<T>(a: T, b: T, c: T, f: T -> bool)
    ensures Keep([a, b, c], f) == (if f(a) then [a] else []) + (if f(b) then [b] else []) + (if f(c) then [c] else [])
  {
    assert [a, b, c][..2] == [a, b];
    KeepOfTwo(a, b, f);
  }

  lemma FirstShips(log: seq<Attempt>)
    requires Recorded(ToEach(), log) && Failed(ToEach(), 0, OUT_OF_ORDER, log)
    requires forall a :: a in log ==> SliceOf(ToEach(), 0, OUT_OF_ORDER, a.dest, a.slice)
    ensures FailsLate(ToEach(), log)
  {
    hide SliceOf, DestInOrder, Encodes, InOrder, Owners;
    var r, src, n := ToEach(), OUT_OF_ORDER, |log| - 1;
    OnlySecondFails();
    assert log[n] in log;
    EncodedIff(r, 0, src, n, log[n]);
    assert Dests(log)[n] == log[n].dest && log[n].dest in Dests(log) && log[n].dest in Owners(r, 0, src);
    assert log[n].dest == 2;
    var i :| 0 <= i < |log| && Dests(log)[i] == 1;
    assert log[i] in log && log[i].blob.Some?;
    assert Acknowledged(r, log[i]);
  }

  ghost predicate AllNonempty(ds: seq<Attempt>) {
    forall d :: d in ds ==> d.slice.hosts != []
  }

  lemma NoneDelivered(src: Partition, rounds: seq<Round>)
    ensures rounds[..0] == [] && Delivered([], []) == [] && Doubled([], []) == []
    ensures Balanced(src, src, [], []) && AllNonempty([])
  {
  }

  lemma RoundBalances(src: Partition, kept: Partition, self: PartitionID, rounds: seq<Round>, logs: seq<seq<Attempt>>, n: nat,
                      next: Partition, log: seq<Attempt>)
    requires n < |rounds| && |logs| == n && HandsOff(rounds[n], self, kept, log, next)
    requires Balanced(src, kept, Delivered(rounds[..n], logs), Doubled(rounds[..n], logs)) && AllNonempty(Doubled(rounds[..n], logs))
    ensures Balanced(src, next, Delivered(rounds[..n + 1], logs + [log]), Doubled(rounds[..n + 1], logs + [log]))
    ensures AllNonempty(Doubled(rounds[..n + 1], logs + [log]))
  {
    hide Progress, SliceOf, Owners, UrlsDelivered, HostsDelivered, Delivered, Doubled, Broke, Balanced, Conserved, Failed, Tried;
    var r := rounds[n];
    OneMoreRound(rounds, logs, n, log);
    var ds, twice := Delivered(rounds[..n], logs), Doubled(rounds[..n], logs);
    var more := Confirmed(r, log);
    DeliveredConcat(ds, more);
    DeliveredConcat(twice, more);
    assert twice + [] == twice;
    hide Confirmed;
    if !Broke(log) {
      RoundConserves(r, self, kept, next, Dests(more), more);
      BalanceMoves(src, kept, next, ds, twice, more);
    } else {
      BalanceDoubles(src, kept, ds, twice, more);
    }
    forall a | a in log
      ensures a.slice.hosts != []
    {
      NonemptySlice(r, self, kept, a.dest, a.slice);
    }
  }

  lemma BalanceMoves(src: Partition, keep: Partition, rest: Partition, ds: seq<Attempt>, twice: seq<Attempt>, more: seq<Attempt>)
    requires Balanced(src, keep, ds, twice) && Conserved(keep, rest, more)
    ensures Balanced(src, rest, ds + more, twice)
  {
    hide UrlsDelivered, HostsDelivered, UrlViews, HostViews;
    DeliveredConcat(ds, more);
  }

  lemma BalanceDoubles(src: Partition, keep: Partition, ds: seq<Attempt>, twice: seq<Attempt>, more: seq<Attempt>)
    requires Balanced(src, keep, ds, twice)
    ensures Balanced(src, keep, ds + more, twice + more)
  {
    hide UrlsDelivered, HostsDelivered, UrlViews, HostViews;
    DeliveredConcat(ds, more);
    DeliveredConcat(twice, more);
    AddBoth(multiset(UrlViews(src.strings, src.urls)), UrlsDelivered(twice), multiset(UrlViews(keep.strings, keep.urls)),
            UrlsDelivered(ds), UrlsDelivered(more));
    AddBoth(multiset(HostViews(src.strings, src.hosts)), HostsDelivered(twice), multiset(HostViews(keep.strings, keep.hosts)),
            HostsDelivered(ds), HostsDelivered(more));
  }

  lemma AddBoth<T>(s: multiset<T>, t: multiset<T>, k: multiset<T>, d: multiset<T>, m: multiset<T>)
    requires s + t == k + d
    ensures s + (t + m) == k + (d + m)
  {
    assert s + (t + m) == (s + t) + m && k + (d + m) == (k + d) + m;
  }

  lemma OneMoreRound(rounds: seq<Round>, logs: seq<seq<Attempt>>, n: nat, log: seq<Attempt>)
    requires n < |rounds| && |logs| == n
    ensures Delivered(rounds[..n + 1], logs + [log]) == Delivered(rounds[..n], logs) + Confirmed(rounds[n], log)
    ensures Doubled(rounds[..n + 1], logs + [log]) == Doubled(rounds[..n], logs) + if Broke(log) then Confirmed(rounds[n], log) else []
  {
    assert rounds[..n + 1][..n] == rounds[..n] && (logs + [log])[..n] == logs;
  }

  lemma RoundConserves(r: Round, self: PartitionID, src: Partition, keep: Partition, moved: seq<PartitionID>, ds: seq<Attempt>)
    requires Progress(r, self, src, keep, moved, ds)
    ensures Conserved(src, keep, ds)
  {
  }

  lemma NonemptySlice(r: Round, self: PartitionID, src: Partition, dest: PartitionID, slice: Partition)
    requires SliceOf(r, self, src, dest, slice) && dest in Owners(r, self, src)
    ensures slice.hosts != []
  {
    var h :| h in src.hosts && r.owner(h.host) != self && r.owner(h.host) == dest;
    var i :| 0 <= i < |src.hosts| && src.hosts[i] == h;
    var moving := Moving(r, self, src.hosts, dest);
    assert h.host in moving;
    var v := HostViews(src.strings, src.hosts)[i];
    hide Keep;
    KeepHolds(HostViews(src.strings, src.hosts), HostRowIn(moving), v);
  }

  lemma {:induction false} KeepHolds<T>(s: seq<T>, f: T -> bool, x: T)
    requires x in s && f(x)
    ensures x in Keep(s, f)
  {
    if s[|s| - 1] != x {
      assert s == s[..|s| - 1] + [s[|s| - 1]];
      KeepHolds(s[..|s| - 1], f, x);
    }
  }

  lemma RoundInOrder(kept: Partition, self: PartitionID, rounds: seq<Round>, logs: seq<seq<Attempt>>, n: nat,
                     next: Partition, log: seq<Attempt>)
    requires n < |rounds| && |logs| == n && HandsOff(rounds[n], self, kept, log, next)
    requires Encodes(rounds[n]) ==> (!Broke(log) <==> AllInOrder(rounds[n], self, kept))
    ensures Encodes(rounds[n]) && InOrder(kept) && Doubled(rounds[..n], logs) == [] ==>
      InOrder(next) && Doubled(rounds[..n + 1], logs + [log]) == []
  {
    hide SliceOf, Owners, InOrder, Encodes, AllInOrder, Doubled, Conserved, Failed, Broke;
    OneMoreRound(rounds, logs, n, log);
    if Encodes(rounds[n]) && InOrder(kept) {
      OrderedSource(rounds[n], self, kept);
      KeptInOrder(rounds[n], self, kept, Dests(Confirmed(rounds[n], log)), next);
    }
  }

  // Rows are conserved exactly when none is doubled.
  lemma ConservedIff(src: Partition, keep: Partition, ds: seq<Attempt>, twice: seq<Attempt>)
    requires Balanced(src, keep, ds, twice) && AllNonempty(twice)
    ensures Conserved(src, keep, ds) <==> twice == []
  {
    Cancels(multiset(UrlViews(src.strings, src.urls)), UrlsDelivered(twice), multiset(UrlViews(keep.strings, keep.urls)) + UrlsDelivered(ds));
    Cancels(multiset(HostViews(src.strings, src.hosts)), HostsDelivered(twice), multiset(HostViews(keep.strings, keep.hosts)) + HostsDelivered(ds));
    if twice != [] {
      SomeDelivered(twice);
    }
  }

  lemma Cancels<T>(s: multiset<T>, t: multiset<T>, all: multiset<T>)
    requires s + t == all
    ensures s == all <==> t == multiset{}
  {
    assert |all| == |s| + |t|;
  }

  lemma SomeDelivered(ds: seq<Attempt>)
    requires ds != [] && AllNonempty(ds)
    ensures HostsDelivered(ds) != multiset{}
  {
    var d := ds[|ds| - 1];
    assert d in ds;
    assert |multiset(HostViews(d.slice.strings, d.slice.hosts))| == |d.slice.hosts|;
  }

  lemma {:induction false} NoneDoubled(rounds: seq<Round>, logs: seq<seq<Attempt>>)
    requires |rounds| == |logs|
    ensures Doubled(rounds, logs) == [] <==> forall i :: 0 <= i < |logs| ==> !FailsLate(rounds[i], logs[i])
  {
    if logs != [] {
      NoneDoubled(rounds[..|logs| - 1], logs[..|logs| - 1]);
    }
  }

  lemma {:induction false} DeliveredConcat(a: seq<Attempt>, b: seq<Attempt>)
    ensures UrlsDelivered(a + b) == UrlsDelivered(a) + UrlsDelivered(b)
    ensures HostsDelivered(a + b) == HostsDelivered(a) + HostsDelivered(b)
  {
    if b == [] {
      assert a + b == a;
    } else {
      LastOfConcat(a, b);
      DeliveredConcat(a, b[..|b| - 1]);
    }
  }
}
