// Model of frontier/frontier.go, with the politeness hooks of frontier/m3.go, the outcome
// transitions of frontier/state.go and the per-IP table of politeness/iptable.go.
//
// The class holds the fields the source updates in place. Its ghost fields say where every host and
// every URL is (spot, loc), which hosts robots rules left in no pool (stranded), what went out and
// came back (trace, sent) and the latest clock seen. Structs ties the queues and pools to spot and
// loc; the view V() forgets the queues, and Inv of FrontierSteps is about the view. A method moves
// the structures and calls the step lemma for the view it leaves behind; the predicates not needed
// for that are hidden.
module Scheduler {
  import opened Wrappers
  import opened Bytes
  import opened Keys
  import opened Rings
  import MinHeap
  import opened FrontierState
  import opened FrontierSteps

  const FRONT_REFILL_BATCH: nat := 32
  const FRONT_AGE_HOURS: nat := 168
  const ROBOTS_TTL_HOURS: nat := 24
  const IP_TTL_HOURS: nat := 1
  const DECISECOND: nat := 100_000_000
  const DEFAULT_FLOOR: nat := SECOND
  const TOP_LEVEL: Level := LEVELS - 1

  // durToDeci and deciToDur: a delay in whole deciseconds, as many as 16 bits hold.
  function Deci(d: nat): nat {
    (if d / DECISECOND < 65535 then d / DECISECOND else 65535) * DECISECOND
  }

  datatype Request = Request(key: URLKey, ip: nat, robots: bool)

  // What the fetcher brings back. adapted is the interval the AIMD step asks for before clamping;
  // soft404 the soft-404 detector's answer; rules and crawlFloor what a robots.txt body parses to.
  datatype Outcome = Outcome(key: URLKey, status: nat, notModified: bool, retryable: bool,
                             redirected: bool, target: Option<URLKey>, targetAdmitted: bool,
                             soft404: bool, adapted: nat,
                             rules: set<URLKey>, robotsDelay: nat)

  // Between two views nothing went out or came back, no window moved and no host left a pool.
  ghost predicate Quiet(v: View, v': View) {
    && v'.trace == v.trace && v'.sent == v.sent && v'.ips == v.ips && v'.stranded == v.stranded
    && v.hosts.Keys <= v'.hosts.Keys && v.spot.Keys <= v'.spot.Keys
    && (forall hk <- v.hosts :: SamePace(v.hosts[hk], v'.hosts[hk]))
    && (forall hk <- v'.hosts :: v'.hosts[hk].inFlight <==> Out(v, hk))
    && KeepsTrapped(v, v')
  }

  // The host's window, rate and floor are as they were.
  predicate SamePace(h: Host, h': Host) {
    h'.hostNext == h.hostNext && h'.effective == h.effective && h'.crawlFloor == h.crawlFloor
  }

  ghost function HostsOf(ks: set<URLKey>): set<uint64> {
    set k | k in ks :: k.host
  }

  // Entries are made only for hosts with a known URL, no rules became known, and a queued URL stays
  // queued unless known rules can refuse it.
  ghost predicate KeepsQueued(v: View, v': View) {
    && v'.records.Keys == v.records.Keys && v'.hosts.Keys <= v.hosts.Keys + HostsOf(v.records.Keys)
    && (forall hk <- v'.hosts :: v'.hosts[hk].rules == RulesReady ==> Ruled(v, hk))
    && (forall k <- v.loc :: v.loc[k] != AtWheel && !Ruled(v, k.host) ==> k in v'.loc && v'.loc[k] != AtWheel)
  }

  ghost predicate Ruled(v: View, hk: uint64) {
    hk in v.hosts && v.hosts[hk].rules == RulesReady
  }

  // No known host's address changed, new hosts have none, and the queues are kept.
  ghost predicate SameAddresses(v: View, v': View) {
    && v.hosts.Keys <= v'.hosts.Keys && KeepsQueued(v, v')
    && forall hk <- v'.hosts :: v'.hosts[hk].ip == if hk in v.hosts then v.hosts[hk].ip else 0
  }

  // An address that changed is what the resolver answered, and the queues are kept.
  ghost predicate Addressed(v: View, v': View, lookup: uint64 -> Option<nat>) {
    && v.hosts.Keys <= v'.hosts.Keys && KeepsQueued(v, v')
    && forall hk <- v'.hosts :: v'.hosts[hk].ip == (if hk in v.hosts then v.hosts[hk].ip else 0) || lookup(hk) == Some(v'.hosts[hk].ip)
  }

  lemma SameAddressesTrans(a: View, b: View, d: View)
    requires SameAddresses(a, b) && SameAddresses(b, d)
    ensures SameAddresses(a, d)
  {
  }

  lemma AddressedTrans(a: View, b: View, d: View, lookup: uint64 -> Option<nat>)
    requires Addressed(a, b, lookup) && Addressed(b, d, lookup)
    ensures Addressed(a, d, lookup)
  {
  }

  lemma SelfAddressed(v: View, lookup: uint64 -> Option<nat>)
    ensures Addressed(v, v, lookup)
  {
  }

  lemma SameIsAddressed(a: View, b: View, lookup: uint64 -> Option<nat>)
    requires SameAddresses(a, b)
    ensures Addressed(a, b, lookup)
  {
  }

  // The resolver has an answer that the host, asked for, cannot be without.
  predicate Answers(lookup: uint64 -> Option<nat>, hk: uint64) {
    lookup(hk).Some? && lookup(hk).value != 0
  }

  ghost predicate Out(v: View, hk: uint64) {
    hk in v.hosts && v.hosts[hk].inFlight
  }

  ghost predicate KeepsTrapped(v: View, v': View) {
    && v.records.Keys == v'.records.Keys
    && (forall k <- v.records :: v.records[k].status == Trapped <==> v'.records[k].status == Trapped)
  }

  lemma ReadyAdd(items: multiset<nat>, spot: map<uint64, Spot>, hk: uint64)
    requires ReadyHolds(items, spot) && hk !in spot
    ensures ReadyHolds(items + multiset{hk as nat}, spot[hk := InReady])
  {
  }

  lemma WaitAdd(items: multiset<WaitItem>, spot: map<uint64, Spot>, hk: uint64, e: nat)
    requires WaitHolds(items, spot) && hk !in spot
    ensures WaitHolds(items + multiset{WaitItem(hk, e)}, spot[hk := Parked(e)])
  {
  }

  // A host that joins or leaves the other pool.
  lemma ReadyElse(items: multiset<nat>, spot: map<uint64, Spot>, spot': map<uint64, Spot>, hk: uint64)
    requires ReadyHolds(items, spot)
    requires hk in spot ==> spot[hk].Parked?
    requires hk in spot' ==> spot'[hk].Parked?
    requires spot' - {hk} == spot - {hk}
    ensures ReadyHolds(items, spot')
  {
    forall x: uint64
      ensures items[x] == if x in spot' && spot'[x] == InReady then 1 else 0
    {
      assert x != hk ==> (x in spot' <==> x in spot' - {hk}) && (x in spot <==> x in spot - {hk});
      assert x != hk && x in spot' ==> spot'[x] == (spot' - {hk})[x];
    }
  }

  lemma WaitElse(items: multiset<WaitItem>, spot: map<uint64, Spot>, spot': map<uint64, Spot>, hk: uint64)
    requires WaitHolds(items, spot)
    requires hk in spot ==> spot[hk] == InReady
    requires hk in spot' ==> spot'[hk] == InReady
    requires spot' - {hk} == spot - {hk}
    ensures WaitHolds(items, spot')
  {
    forall it
      ensures items[it] == if it.hostKey in spot' && spot'[it.hostKey] == Parked(it.eligible) then 1 else 0
    {
      var x := it.hostKey;
      assert x != hk ==> (x in spot' <==> x in spot' - {hk}) && (x in spot <==> x in spot - {hk});
      assert x != hk && x in spot' ==> spot'[x] == (spot' - {hk})[x];
    }
  }

  lemma ReadyTake(rest: multiset<nat>, spot: map<uint64, Spot>, hk: uint64)
    requires ReadyHolds(rest + multiset{hk as nat}, spot)
    ensures hk in spot && spot[hk] == InReady && ReadyHolds(rest, spot - {hk})
  {
    var items := rest + multiset{hk as nat};
    assert items[hk] == if hk in spot && spot[hk] == InReady then 1 else 0;
    forall x: uint64
      ensures rest[x] == if x in spot - {hk} && (spot - {hk})[x] == InReady then 1 else 0
    {
      assert items[x] == if x in spot && spot[x] == InReady then 1 else 0;
    }
    forall x: nat | x in rest
      ensures x < TWO_64
    {
      assert x in items;
    }
  }

  lemma WaitTake(rest: multiset<WaitItem>, spot: map<uint64, Spot>, it: WaitItem)
    requires WaitHolds(rest + multiset{it}, spot)
    ensures it.hostKey in spot && spot[it.hostKey] == Parked(it.eligible) && WaitHolds(rest, spot - {it.hostKey})
  {
    var items := rest + multiset{it};
    assert items[it] == if it.hostKey in spot && spot[it.hostKey] == Parked(it.eligible) then 1 else 0;
    forall x
      ensures rest[x] == if x.hostKey in spot - {it.hostKey} && (spot - {it.hostKey})[x.hostKey] == Parked(x.eligible) then 1 else 0
    {
      assert items[x] == if x.hostKey in spot && spot[x.hostKey] == Parked(x.eligible) then 1 else 0;
    }
  }

  lemma EmptyPools(ready: seq<Ring<nat>>)
    requires ready != [] && forall i :: 0 <= i < |ready| ==> ready[i] == EmptyRing<nat>()
    ensures Pools(ready, [], map[])
  {
    hide EmptyRing, Buckets;
    EmptyRingValid<nat>();
    EmptyBank(ready);
    assert ValidBank(ready);
    hide ValidBank, BankItems;
  }

  lemma EmptyInv(c: Config, v: View)
    requires v == View(map[], map[], map[], 0, map[], {}, map[], [], multiset{}, 0)
    ensures Inv(c, v, {})
  {
    assert Actives(v.hosts) == {};
  }

  function SpotFor(h: Host, ips: map<nat, nat>, now: nat): Spot {
    if Eligible(h, ips) <= now then InReady else Parked(Eligible(h, ips))
  }

  ghost predicate NoneDue(spot: map<uint64, Spot>, now: nat) {
    forall hk <- spot :: spot[hk].Parked? ==> spot[hk].until > now
  }

  // Hosts parked for an instant that has come.
  ghost function DueParked(spot: map<uint64, Spot>, now: nat): set<uint64> {
    set hk | hk in spot && spot[hk].Parked? && spot[hk].until <= now
  }

  class Frontier {
    const c: Config
    const robotsPath: uint64
    var records: map<URLKey, Record>
    var hosts: map<uint64, Host>
    var ips: map<nat, nat>
    var active: int
    var seen: set<URLKey>
    var urlFront: Ring<URLKey>
    var ready: seq<Ring<nat>>
    var wait: seq<WaitItem>
    var frontAge: seq<(URLKey, nat)>
    var sinceSweep: nat
    var wheel: multiset<URLKey>

    // Where every host and every URL is, what went out and came back, and the latest clock seen.
    ghost var spot: map<uint64, Spot>
    ghost var stranded: set<uint64>
    ghost var loc: map<URLKey, Place>
    ghost var trace: seq<Event>
    ghost var sent: multiset<URLKey>
    ghost var clock: nat

    ghost function V(): View
      reads this
    {
      View(records, hosts, ips, active, spot, stranded, loc, trace, sent, clock)
    }

    // The queues and pools hold what the ghost maps say.
    ghost predicate Structs()
      reads this
    {
      && Pools(ready, wait, spot)
      && urlFront.Valid() && Holds(urlFront.Items(), loc, AtFront)
      && Holds(wheel, loc, AtWheel) && (!c.wheelOn ==> wheel == multiset{})
      && seen == records.Keys
    }

    ghost predicate ValidBut(but: set<uint64>)
      reads this
    {
      Structs() && Inv(c, V(), but)
    }

    ghost predicate Valid()
      reads this
    {
      ValidBut({})
    }

    constructor (c: Config, shards: nat, robotsPath: uint64)
      ensures Valid() && this.c == c && this.robotsPath == robotsPath
      ensures V() == View(map[], map[], map[], 0, map[], {}, map[], [], multiset{}, 0)
    {
      this.c, this.robotsPath := c, robotsPath;
      records, hosts, ips, active, seen := map[], map[], map[], 0, {};
      urlFront := EmptyRing();
      var w := if shards < 1 then 1 else shards;
      ready := seq(w, _ => EmptyRing());
      wait, frontAge, sinceSweep, wheel := [], [], 0, multiset{};
      spot, stranded, loc, trace, sent, clock := map[], {}, map[], [], multiset{}, 0;
      new;
      hide Pools, Inv;
      EmptyRingValid<URLKey>();
      EmptyPools(ready);
      EmptyInv(c, V());
    }

    // ---- pools ----

    method PushReady(hk: uint64, level: Level)
      requires Pools(ready, wait, spot) && hk !in spot
      modifies `ready, `spot
      ensures Pools(ready, wait, spot) && spot == old(spot)[hk := InReady]
    {
      hide ReadyHolds, WaitHolds, ValidBank, MinHeap.IsHeap, BankItems;
      ReadyAdd(BankItems(ready), spot, hk);
      WaitElse(multiset(wait), spot, spot[hk := InReady], hk);
      ready := PushBank(ready, hk, level);
      spot := spot[hk := InReady];
    }

    method Park(hk: uint64, eligible: nat)
      requires Pools(ready, wait, spot) && hk !in spot
      modifies `wait, `spot
      ensures Pools(ready, wait, spot) && spot == old(spot)[hk := Parked(eligible)]
    {
      hide ReadyHolds, WaitHolds, ValidBank, MinHeap.IsHeap, BankItems;
      WaitAdd(multiset(wait), spot, hk, eligible);
      ReadyElse(BankItems(ready), spot, spot[hk := Parked(eligible)], hk);
      wait := MinHeap.Push(wait, WaitItem(hk, eligible), Rank);
      spot := spot[hk := Parked(eligible)];
    }

    method PopReady(shard: nat) returns (hk: Option<uint64>)
      requires Pools(ready, wait, spot)
      modifies `ready, `spot
      ensures Pools(ready, wait, spot)
      ensures hk.None? ==> spot == old(spot) && forall h <- spot :: spot[h] != InReady
      ensures hk.Some? ==> hk.value in old(spot) && old(spot)[hk.value] == InReady && spot == old(spot) - {hk.value}
    {
      hide WaitHolds, ValidBank, MinHeap.IsHeap, BankItems;
      ghost var items := BankItems(ready);
      assert forall h: uint64 :: items[h] == if h in spot && spot[h] == InReady then 1 else 0;
      var top, rest := PopShard(ready, shard);
      if top.None? {
        return None;
      }
      assert top.value in items;
      hide ReadyHolds;
      ReadyTake(BankItems(rest), spot, top.value);
      WaitElse(multiset(wait), spot, spot - {top.value}, top.value);
      ready := rest;
      spot := spot - {top.value};
      return Some(top.value);
    }

    method PopWait() returns (it: WaitItem)
      requires Pools(ready, wait, spot) && wait != []
      modifies `wait, `spot
      ensures Pools(ready, wait, spot) && it == old(wait[0])
      ensures it.hostKey in old(spot) && old(spot)[it.hostKey] == Parked(it.eligible) && spot == old(spot) - {it.hostKey}
    {
      hide ReadyHolds, WaitHolds, ValidBank, MinHeap.IsHeap, BankItems;
      var rest;
      it, rest := MinHeap.Pop(wait, Rank);
      WaitTake(multiset(rest), spot, it);
      ReadyElse(BankItems(ready), spot, spot - {it.hostKey}, it.hostKey);
      wait := rest;
      spot := spot - {it.hostKey};
    }

    // place: an idle active host with work goes to the ready bank when its window is open, else to
    // the wait heap.
    method PlaceHost(hk: uint64, now: nat)
      requires ValidBut({hk}) && hk in hosts && hk !in spot && hk !in stranded && now == clock
      requires hosts[hk].active <==> hosts[hk].back != []
      modifies `ready, `wait, `spot
      ensures Valid()
      ensures spot == if hosts[hk].active && !hosts[hk].inFlight then old(spot)[hk := SpotFor(hosts[hk], ips, now)] else old(spot)
    {
      hide Inv, Pools, Holds, Ring.Valid, Ring.Items, Buckets;
      var h := hosts[hk];
      IdleHead(hk);
      if h.back == [] || h.inFlight {
        return;
      }
      var e := Eligible(h, ips);
      EnterPool(c, V(), hk, SpotFor(h, ips, now));
      if e <= now {
        PushReady(hk, records[h.back[0]].level);
        return;
      }
      Park(hk, e);
    }

    // What PlaceHost needs to know of the host in its hands.
    lemma IdleHead(hk: uint64)
      requires Inv(c, V(), {hk}) && hk in hosts && hk !in spot && hk !in stranded
      ensures !hosts[hk].active || hosts[hk].inFlight ==> Inv(c, V(), {})
      ensures hosts[hk].back != [] && !hosts[hk].inFlight ==> hosts[hk].back[0] in records
      ensures !c.resolverOn ==> Eligible(hosts[hk], ips) == hosts[hk].hostNext
    {
      hide TracePart, Counted, Flight, Parks;
      if hosts[hk].back != [] {
        InBack(V(), hk, hosts[hk].back[0]);
      }
    }

    // ---- intake ----

    // frontPush's bookkeeping for a bounded frontier.
    function Aged(key: URLKey, enqueued: nat): seq<(URLKey, nat)>
      reads this
    {
      if c.bounded then frontAge + [(key, enqueued)] else frontAge
    }

    // A URL known to nobody gets its record, its host entry if there is none, and its place.
    method NewUrl(key: URLKey, level: Level, place: Option<Place>, crawlFloor: nat, enqueued: nat)
      requires Structs() && key !in records && key !in loc && place != Some(AtBack)
      requires place == Some(AtWheel) ==> c.wheelOn
      modifies `records, `hosts, `seen, `urlFront, `frontAge, `wheel, `loc
      ensures Structs()
      ensures records == old(records)[key := Record(if place.None? then Trapped else Scheduled, level, 0)]
      ensures hosts == WithHost(old(hosts), key.host, FreshHost(c.pol, crawlFloor))
      ensures loc == NewLoc(old(loc), key, place) && (place != Some(AtWheel) ==> wheel == old(wheel))
    {
      hide Pools, Holds, FreshHost, WithHost, NewLoc, Ring.Valid, Ring.Items, Buckets;
      File(key, level, place, enqueued);
      hosts := WithHost(hosts, key.host, FreshHost(c.pol, crawlFloor));
      seen, records := seen + {key}, records[key := Record(if place.None? then Trapped else Scheduled, level, 0)];
    }

    // A URL in no queue goes to its place.
    method File(key: URLKey, level: Level, place: Option<Place>, enqueued: nat)
      requires Structs() && key !in loc && place != Some(AtBack)
      requires place == Some(AtWheel) ==> c.wheelOn
      modifies `urlFront, `frontAge, `wheel, `loc
      ensures Structs() && loc == NewLoc(old(loc), key, place) && (place != Some(AtWheel) ==> wheel == old(wheel))
    {
      hide Pools, Holds, NewLoc, Ring.Valid, Ring.Items, Ring.Push, Buckets;
      NewPlace(urlFront.Items(), loc, AtFront, key, place);
      NewPlace(wheel, loc, AtWheel, key, place);
      var front, age, late := urlFront, frontAge, wheel;
      if place == Some(AtWheel) {
        late := late + multiset{key};
      } else if place == Some(AtFront) {
        front := front.Add(key, level);
        age := Aged(key, enqueued);
      }
      urlFront, frontAge, wheel, loc := front, age, late, NewLoc(loc, key, place);
    }

    // Seed: idempotent. With the schedule index on, a seed dated past its first-seen hour waits in
    // the wheel.
    method Seed(key: URLKey, level: Level, firstSeen: nat, nextDue: nat, crawlFloor: nat)
      requires Valid()
      modifies this
      ensures Valid() && key in records
      ensures V() == if key in old(records) then old(V())
                     else Added(c, old(V()), key, level, Some(if c.wheelOn && nextDue > firstSeen then AtWheel else AtFront), crawlFloor)
    {
      hide Inv, Pools, Holds, Ring.Valid, Ring.Items, Buckets;
      if key in seen {
        return;
      }
      var place := Some(if c.wheelOn && nextDue > firstSeen then AtWheel else AtFront);
      UnknownNowhere(c, V(), {}, key);
      AddUrl(c, V(), {}, key, level, place, crawlFloor);
      NewUrl(key, level, place, crawlFloor, firstSeen);
    }

    // Discover: a rediscovery changes nothing, a discovery refused by the trap rules is recorded
    // and never queued. The answer says whether a schedulable URL came in.
    method Discover(key: URLKey, level: Level, admitted: bool, now: nat) returns (fresh_: bool)
      requires Valid()
      modifies this
      ensures Valid() && key in records && fresh_ == (key !in old(records) && admitted)
      ensures V() == if key in old(records) then old(V())
                     else Added(c, old(V()), key, level, if admitted then Some(AtFront) else None, DEFAULT_FLOOR)
    {
      hide Inv, Pools, Holds, Ring.Valid, Ring.Items, Buckets;
      if key in seen {
        return false;
      }
      var place := if admitted then Some(AtFront) else None;
      UnknownNowhere(c, V(), {}, key);
      AddUrl(c, V(), {}, key, level, place, DEFAULT_FLOOR);
      NewUrl(key, level, place, DEFAULT_FLOOR, now / 3600);
      return admitted;
    }

    // ---- promotion ----

    // promoteDue: fired is what the wheel gives up for this hour.
    method PromoteDue(fired: seq<URLKey>, now: nat)
      requires Valid() && multiset(fired) <= wheel
      modifies `records, `hosts, `urlFront, `frontAge, `wheel, `loc
      ensures Valid() && wheel == old(wheel) - multiset(fired)
      ensures Quiet(old(V()), V()) && SameAddresses(old(V()), V()) && spot == old(spot)
      ensures !c.wheelOn ==> V() == old(V())
    {
      hide Inv, Pools, Holds, Quiet, Ring.Valid, Ring.Items, Buckets;
      QuietRefl(V());
      assert fired[..0] == [];
      for i := 0 to |fired|
        invariant Valid() && Quiet(old(V()), V()) && SameAddresses(old(V()), V())
        invariant wheel == old(wheel) - multiset(fired[..i])
        invariant !c.wheelOn ==> V() == old(V())
      {
        FiredNext(old(wheel), fired, i);
        ghost var v := V();
        FireOne(fired[i], now);
        QuietTrans(old(V()), v, V());
        SameAddressesTrans(old(V()), v, V());
      }
      assert fired[..|fired|] == fired;
    }

    method FireOne(key: URLKey, now: nat)
      requires Valid() && key in wheel
      modifies `records, `hosts, `urlFront, `frontAge, `wheel, `loc
      ensures Valid() && wheel == old(wheel) - multiset{key}
      ensures Quiet(old(V()), V()) && SameAddresses(old(V()), V())
    {
      hide SameAddresses, HostsOf, Inv, Pools, Holds, Quiet, FreshHost, WithHost, Ring.Valid, Ring.Items, Ring.Push, Buckets;
      FiredQueues(urlFront.Items(), wheel, loc, key);
      FiredKeeps(c, V(), key);
      WheelToFront(key, now);
      FreshHasNoAddress(c.pol, DEFAULT_FLOOR);
      HostKnown(old(records), key);
      MadeHost(old(V()), V(), key.host, FreshHost(c.pol, DEFAULT_FLOOR));
    }

    method WheelToFront(key: URLKey, now: nat)
      requires Structs() && key in wheel && key in records
      modifies `records, `hosts, `urlFront, `frontAge, `wheel, `loc
      ensures Structs() && wheel == old(wheel) - multiset{key} && loc == old(loc)[key := AtFront]
      ensures hosts == WithHost(old(hosts), key.host, FreshHost(c.pol, DEFAULT_FLOOR))
      ensures records == old(records)[key := Refired(old(records)[key])]
    {
      hide Pools, Holds, FreshHost, WithHost, Ring.Valid, Ring.Items, Ring.Push, Buckets;
      FiredQueues(urlFront.Items(), wheel, loc, key);
      var front := urlFront.Add(key, records[key].level);
      wheel, urlFront, frontAge := wheel - multiset{key}, front, Aged(key, now / 3600);
      loc := loc[key := AtFront];
      hosts := WithHost(hosts, key.host, FreshHost(c.pol, DEFAULT_FLOOR));
      records := records[key := Refired(records[key])];
    }

    // promote: no host stays parked past its instant.
    method Promote(now: nat)
      requires Valid() && now == clock
      modifies `ready, `wait, `spot
      ensures Valid() && spot.Keys == old(spot.Keys)
      ensures NoneDue(spot, now)
    {
      hide Inv, Pools, Holds, Ring.Valid, Ring.Items, Buckets;
      while wait != [] && wait[0].eligible <= now
        invariant Valid() && spot.Keys == old(spot.Keys)
        decreases DueParked(spot, now)
      {
        PromoteOne(now);
      }
      HeapNoneDue(ready, wait, spot, now);
    }

    method PromoteOne(now: nat)
      requires Valid() && now == clock && wait != [] && wait[0].eligible <= now
      modifies `ready, `wait, `spot
      ensures Valid() && spot.Keys == old(spot.Keys)
      ensures DueParked(spot, now) < old(DueParked(spot, now))
    {
      hide Inv, Pools, Holds, Ring.Valid, Ring.Items, Buckets;
      var it := PopWait();
      LeavePool(c, old(V()), it.hostKey);
      assert V() == old(V()).(spot := old(spot) - {it.hostKey});
      assert it.hostKey in old(DueParked(spot, now));
      if it.hostKey in hosts && hosts[it.hostKey].back != [] {
        PlaceHost(it.hostKey, now);
      }
      PlacedLater(old(spot), spot, it.hostKey, now);
    }

    // promoteAged: URLs that have waited long enough in the front bank go to the top level.
    method PromoteAged(nowHours: nat)
      requires Valid()
      modifies `frontAge, `urlFront, `records
      ensures Valid() && Quiet(old(V()), V()) && urlFront.Items() == old(urlFront.Items()) && records.Keys == old(records.Keys)
      ensures forall k <- records :: records[k].status == old(records)[k].status && records[k].retry == old(records)[k].retry
    {
      hide Inv, Pools, Holds, Quiet, Ring.Valid, Ring.Items, Buckets;
      QuietRefl(V());
      while frontAge != []
        invariant Valid() && Quiet(old(V()), V()) && urlFront.Items() == old(urlFront.Items())
        invariant records.Keys == old(records.Keys)
        invariant forall k <- records :: records[k].status == old(records)[k].status && records[k].retry == old(records)[k].retry
        decreases |frontAge|
      {
        var key, enqueued := frontAge[0].0, frontAge[0].1;
        if nowHours < enqueued || nowHours - enqueued < FRONT_AGE_HOURS {
          return;
        }
        frontAge := frontAge[1..];
        if key in records && records[key].status == Scheduled {
          ghost var v := V();
          Raise(key);
          QuietTrans(old(V()), v, V());
        }
      }
    }

    method Raise(key: URLKey)
      requires Valid() && key in records
      modifies `urlFront, `records
      ensures Valid() && Quiet(old(V()), V()) && urlFront.Items() == old(urlFront.Items())
      ensures records == old(records) || records == old(records)[key := old(records)[key].(level := TOP_LEVEL)]
    {
      hide Inv, Pools, Holds, Ring.Valid, Ring.Items, Buckets;
      Relevel(c, V(), {}, key, TOP_LEVEL);
      var front, moved := urlFront.Rebucket(key, records[key].level, TOP_LEVEL);
      urlFront := front;
      if moved {
        records := records[key := records[key].(level := TOP_LEVEL)];
      }
    }

    // ---- distribute ----

    // distribute: bind front-bank URLs to back queues until the bank is empty or its head needs an
    // active-host slot there is no room for.
    method Distribute(now: nat)
      requires Valid() && now == clock
      modifies `urlFront, `records, `hosts, `active, `ready, `wait, `spot, `loc, `frontAge, `sinceSweep
      ensures Valid() && Quiet(old(V()), V()) && SameAddresses(old(V()), V())
      ensures NoneDue(old(spot), now) ==> NoneDue(spot, now)
      ensures FrontBlocked()
    {
      hide Inv, Pools, Holds, Quiet, NoneDue, Ring.Valid, Ring.Items, Buckets;
      Sweep(now);
      var stop := false;
      while !stop
        invariant Valid() && Quiet(old(V()), V()) && SameAddresses(old(V()), V()) && now == clock
        invariant NoneDue(old(spot), now) ==> NoneDue(spot, now)
        invariant stop ==> FrontBlocked()
        decreases !stop, |urlFront.Items()|
      {
        ghost var v := V();
        stop := BindHead(now);
        QuietTrans(old(V()), v, V());
        SameAddressesTrans(old(V()), v, V());
      }
    }

    // A bounded frontier runs the age-promotion sweep every FRONT_REFILL_BATCH calls.
    method Sweep(now: nat)
      requires Valid()
      modifies `urlFront, `records, `frontAge, `sinceSweep
      ensures Valid() && Quiet(old(V()), V()) && records.Keys == old(records.Keys)
    {
      hide Inv, Pools, Holds, Quiet, Ring.Valid, Ring.Items, Buckets;
      QuietRefl(V());
      if c.bounded {
        sinceSweep := sinceSweep + 1;
        if sinceSweep >= FRONT_REFILL_BATCH {
          sinceSweep := 0;
          PromoteAged(now / 3600);
        }
      }
    }

    method BindHead(now: nat) returns (stop: bool)
      requires Valid() && now == clock
      modifies `urlFront, `records, `hosts, `active, `ready, `wait, `spot, `loc
      ensures Valid() && Quiet(old(V()), V()) && SameAddresses(old(V()), V())
      ensures NoneDue(old(spot), now) ==> NoneDue(spot, now)
      ensures stop ==> FrontBlocked()
      ensures !stop ==> |urlFront.Items()| < old(|urlFront.Items()|)
    {
      hide Inv, Pools, Holds, Quiet, NoneDue, Ring.Valid, Ring.Items, Ring.IsHead, Buckets;
      QuietRefl(V());
      var top := urlFront.Peek();
      if top.None? {
        return true;
      }
      FrontHead(c, V(), urlFront.Items(), top.value);
      if !hosts[top.value.host].active && active >= EffectiveTarget(c) {
        return true;
      }
      TakeHead(top.value, now);
      return false;
    }

    method TakeHead(key: URLKey, now: nat)
      requires Valid() && now == clock && urlFront.IsHead(key) && key in urlFront.Items() && key.host in hosts
      modifies `urlFront, `records, `hosts, `active, `ready, `wait, `spot, `loc
      ensures Valid() && Quiet(old(V()), V()) && SameAddresses(old(V()), V()) && |urlFront.Items()| < old(|urlFront.Items()|)
      ensures NoneDue(old(spot), now) ==> NoneDue(spot, now)
    {
      hide Inv, Pools, Holds, Quiet, NoneDue, SameAddresses, Ring.Valid, Ring.Items, Ring.IsHead, Buckets;
      FrontHead(c, V(), urlFront.Items(), key);
      var h := hosts[key.host];
      if h.rules == RulesReady && key in h.refused {
        ExcludeQuiet(c, V(), key);
        ExcludeHead(key);
        RefusedHost(old(V()), V(), key);
        return;
      }
      BindPlace(key, now);
    }

    method BindPlace(key: URLKey, now: nat)
      requires Valid() && now == clock && urlFront.IsHead(key) && key in urlFront.Items() && key.host in hosts
      modifies `urlFront, `hosts, `active, `ready, `wait, `spot, `loc
      ensures Valid() && Quiet(old(V()), V()) && SameAddresses(old(V()), V()) && |urlFront.Items()| < old(|urlFront.Items()|)
      ensures NoneDue(old(spot), now) ==> NoneDue(spot, now)
    {
      hide Inv, Pools, Holds, Quiet, NoneDue, SameAddresses, Ring.Valid, Ring.Items, Ring.IsHead, Buckets;
      var h := hosts[key.host];
      FrontHead(c, V(), urlFront.Items(), key);
      BindQuiet(c, V(), key);
      BindTo(key);
      BoundHost(old(V()), V(), key);
      if !h.active {
        ghost var v := V();
        PlaceHost(key.host, now);
        PlacedQuiet(old(V()), v, V(), key.host, now);
        SameHosts(v, V());
        SameAddressesTrans(old(V()), v, V());
      }
    }

    method ExcludeHead(key: URLKey)
      requires Structs() && urlFront.IsHead(key) && key in urlFront.Items() && key in records
      modifies `urlFront, `records, `loc
      ensures Structs() && loc == old(loc) - {key} && |urlFront.Items()| < old(|urlFront.Items()|)
      ensures records == old(records)[key := old(records)[key].(status := Excluded)]
    {
      hide Pools, Holds, Ring.Valid, Ring.Items, Ring.IsHead, Buckets;
      var x, rest := urlFront.Pop();
      assert x.Some?;
      urlFront.HeadUnique(x.value, key);
      LeftFront(rest.Items(), wheel, loc, key);
      urlFront := rest;
      loc := loc - {key};
      records := records[key := records[key].(status := Excluded)];
    }

    method BindTo(key: URLKey)
      requires Structs() && urlFront.IsHead(key) && key in urlFront.Items() && key.host in hosts
      modifies `urlFront, `hosts, `active, `loc
      ensures Structs() && loc == old(loc)[key := AtBack] && |urlFront.Items()| < old(|urlFront.Items()|)
      ensures var h := old(hosts)[key.host];
              hosts == old(hosts)[key.host := Bound(h, key)] && active == old(active) + if h.active then 0 else 1
    {
      hide Pools, Holds, Ring.Valid, Ring.Items, Ring.IsHead, Buckets;
      var x, rest := urlFront.Pop();
      assert x.Some?;
      urlFront.HeadUnique(x.value, key);
      LeftFront(rest.Items(), wheel, loc, key);
      var h := hosts[key.host];
      urlFront := rest;
      loc := loc[key := AtBack];
      if !h.active {
        active := active + 1;
      }
      hosts := hosts[key.host := Bound(h, key)];
    }

    // ---- dispatch ----

    // resolveHost: the resolver's cached answer, unless the host's own address is still fresh.
    method ResolveHost(hk: uint64, now: nat, lookup: uint64 -> Option<nat>)
      requires Inv(c, V(), {hk}) && hk in hosts && hk !in spot
      modifies `hosts
      ensures Inv(c, V(), {hk}) && hosts.Keys == old(hosts.Keys)
      ensures forall x <- hosts :: x != hk ==> hosts[x] == old(hosts)[x]
      ensures hosts[hk] == old(hosts)[hk].(ip := hosts[hk].ip, ipExpiry := hosts[hk].ipExpiry)
      ensures !c.resolverOn ==> hosts == old(hosts)
      ensures hosts[hk].ip == old(hosts)[hk].ip || lookup(hk) == Some(hosts[hk].ip)
      ensures c.resolverOn && Answers(lookup, hk) ==> hosts[hk].ip != 0
    {
      hide Inv;
      var h := hosts[hk];
      if !c.resolverOn || (h.ip != 0 && h.ipExpiry > now / 3600) {
        return;
      }
      var ip := lookup(hk);
      if ip.Some? {
        Resolve(c, V(), {hk}, hk, ip.value, now / 3600 + IP_TTL_HOURS);
        hosts := hosts[hk := h.(ip := ip.value, ipExpiry := now / 3600 + IP_TTL_HOURS)];
      }
    }

    // The best ready host for this shard whose live window is open; one that a sibling on its
    // address has closed meanwhile is parked again.
    method PickHost(now: nat, shard: nat, lookup: uint64 -> Option<nat>) returns (hk: Option<uint64>)
      requires Valid() && now == clock && NoneDue(spot, now)
      modifies `hosts, `ready, `wait, `spot
      ensures hk.None? ==> Valid() && Quiet(old(V()), V()) && AllParked(spot, now)
      ensures hk.Some? ==> ValidBut({hk.value}) && CanSend(V(), hk.value, now) && QuietBut(old(V()), V(), hk.value)
      ensures Addressed(old(V()), V(), lookup)
      ensures hk.Some? && c.resolverOn && Answers(lookup, hk.value) ==> hk.value in hosts && hosts[hk.value].ip != 0
    {
      SelfAddressed(V(), lookup);
      hide Inv, Pools, Holds, Quiet, NoneDue, CanSend, QuietBut, OnlyIp, Addressed, Ring.Valid, Ring.Items, Buckets;
      QuietRefl(V());
      while true
        invariant Valid() && Quiet(old(V()), V()) && now == clock && NoneDue(spot, now)
        invariant Addressed(old(V()), V(), lookup)
        decreases ReadySet(spot)
      {
        ghost var v := V();
        hk := PopReady(shard);
        if hk.None? {
          NoneReady(spot, now);
          return;
        }
        var open := Ready(v, hk.value, now, lookup);
        if open {
          AddressedOnward(old(V()), v, V(), hk.value, lookup);
          QuietButTrans(old(V()), v, V(), hk.value);
          return;
        }
        Repark(v, hk.value, now);
        AddressedOnward(old(V()), v, V(), hk.value, lookup);
        QuietTrans(old(V()), v, V());
      }
    }

    // A host whose window is closed goes to the wait heap.
    method Repark(ghost v: View, hk: uint64, now: nat)
      requires Structs() && hk in hosts && hk in v.spot && v.spot[hk] == InReady && NoneDue(v.spot, now)
      requires OnlyIp(v, V(), hk) && spot == v.spot - {hk} && Eligible(hosts[hk], ips) > now
      requires Inv(c, V().(spot := spot[hk := Parked(Eligible(hosts[hk], ips))]), {})
      modifies `wait, `spot
      ensures Valid() && OnlyIp(v, V(), hk) && Quiet(v, V()) && NoneDue(spot, now) && ReadySet(spot) < ReadySet(v.spot)
    {
      hide Inv, Pools, Holds, Quiet, NoneDue, Ring.Valid, Ring.Items, Buckets;
      Park(hk, Eligible(hosts[hk], ips));
      Reparked(v, V(), hk, now);
    }

    // resolve the popped host and look at its live window again
    method Ready(ghost v: View, hk: uint64, now: nat, lookup: uint64 -> Option<nat>) returns (open: bool)
      requires Structs() && Inv(c, v, {}) && now == clock && hk in v.spot && v.spot[hk] == InReady
      requires V() == v.(spot := v.spot - {hk})
      modifies `hosts
      ensures Structs() && hk in hosts && OnlyIp(v, V(), hk) && spot == old(spot)
      ensures hosts[hk].ip == v.hosts[hk].ip || lookup(hk) == Some(hosts[hk].ip)
      ensures c.resolverOn && Answers(lookup, hk) ==> hosts[hk].ip != 0
      ensures open ==> Inv(c, V(), {hk}) && CanSend(V(), hk, now) && QuietBut(v, V(), hk)
      ensures !open ==> Eligible(hosts[hk], ips) > now && Inv(c, V().(spot := spot[hk := Parked(Eligible(hosts[hk], ips))]), {})
    {
      hide Inv, Pools, Holds, Ring.Valid, Ring.Items, Buckets;
      LeavePool(c, v, hk);
      ResolveHost(hk, now, lookup);
      open := Eligible(hosts[hk], ips) <= now;
      if !open {
        IdleHead(hk);
        EnterPool(c, V(), hk, Parked(Eligible(hosts[hk], ips)));
      }
    }

    // needsRobots
    predicate NeedsRobots(h: Host, now: nat) {
      && h.rules != RulesPending && h.back != []
      && !(h.rules == RulesReady && h.rulesExpiry > now / 3600)
    }

    // The request itself: robots.txt first when the rules are missing or stale, else the head of
    // the back queue. Either spends both politeness buckets. was is the view Dispatch started from.
    method SendTo(ghost was: View, hk: uint64, now: nat) returns (req: Request)
      requires ValidBut({hk}) && CanSend(V(), hk, now) && QuietBut(was, V(), hk)
      modifies `records, `hosts, `ips, `trace, `sent
      ensures Valid() && SentOne(c, robotsPath, was, V(), req, now)
      ensures SameAddresses(old(V()), V()) && req.key.host == hk && req.ip == old(hosts)[hk].ip
    {
      SentSame(c, V(), hk, now);
      hide HostPart, UrlPart, TracePart, Pools, Holds, AfterSend, QuietBut, SentOne, Ring.Valid, Ring.Items, Buckets;
      ghost var v := V();
      HeadWaits(c, v, hk);
      IdleRules(c, v, hk);
      hide Inv;
      var h := hosts[hk];
      var robots := c.robotsOn && NeedsRobots(h, now);
      req := Request(if robots then URLKey(hk, robotsPath) else h.back[0], h.ip, robots);
      Send(c, v, hk, now, !robots);
      SentIsOne(c, robotsPath, was, v, hk, req, now);
      Transmit(hk, now, !robots);
    }

    // spend, and mark what is out.
    method Transmit(hk: uint64, now: nat, content: bool)
      requires Structs() && hk in hosts && hosts[hk].back != [] && hosts[hk].back[0] in records
      modifies `records, `hosts, `ips, `trace, `sent
      ensures Structs() && V() == AfterSend(c, old(V()), hk, now, content)
    {
      hide Pools, Holds, SpentIps, SendEvent, SentHost, Ring.Valid, Ring.Items, Buckets;
      var h := hosts[hk];
      var key := h.back[0];
      trace := trace + [SendEvent(c, h, hk, now)];
      ips := SpentIps(c, h, ips, now);
      hosts := hosts[hk := SentHost(c, h, now, if content then h.rules else RulesPending)];
      if content {
        records := records[key := records[key].(status := InFlight)];
        sent := sent + multiset{key};
      }
    }

    // Nothing can go out now: every pooled host is parked past now, and the front bank is empty or
    // its head waits for a slot.
    ghost predicate Blocked(now: nat)
      reads this
    {
      AllParked(spot, now) && FrontBlocked()
    }

    ghost predicate FrontBlocked()
      reads this
    {
      urlFront.Items() == multiset{} || active >= EffectiveTarget(c)
    }

    method DispatchShard(now: nat, shard: nat, fired: seq<URLKey>, lookup: uint64 -> Option<nat>)
      returns (req: Option<Request>)
      requires Valid() && clock <= now && multiset(fired) <= wheel
      modifies this
      ensures Valid() && clock == now
      ensures req.None? ==> Quiet(old(V()), V()) && Blocked(now)
      ensures req.Some? ==> SentOne(c, robotsPath, old(V()), V(), req.value, now)
      ensures wheel == old(wheel) - multiset(fired)
      ensures Addressed(old(V()), V(), lookup)
      ensures req.Some? && c.resolverOn && Answers(lookup, req.value.key.host) ==> req.value.ip != 0
    {
      hide Inv, Pools, Holds, Quiet, NoneDue, CanSend, QuietBut, SentOne, AllParked, SameAddresses, Addressed, Ring.Valid, Ring.Items, Buckets;
      Prepare(now, fired);
      ghost var v := V();
      SameIsAddressed(old(V()), v, lookup);
      var hk := PickHost(now, shard, lookup);
      AddressedTrans(old(V()), v, V(), lookup);
      if hk.None? {
        QuietTrans(old(V()), v, V());
        return None;
      }
      QuietButTrans(old(V()), v, V(), hk.value);
      ghost var w := V();
      var r := SendTo(old(V()), hk.value, now);
      SameIsAddressed(w, V(), lookup);
      AddressedTrans(old(V()), w, V(), lookup);
      return Some(r);
    }

    // Fire due recrawls, open windows and bind front-bank URLs.
    method Prepare(now: nat, fired: seq<URLKey>)
      requires Valid() && clock <= now && multiset(fired) <= wheel
      modifies this
      ensures Valid() && clock == now && Quiet(old(V()), V()) && NoneDue(spot, now) && FrontBlocked()
      ensures wheel == old(wheel) - multiset(fired)
      ensures SameAddresses(old(V()), V())
    {
      hide Inv, Pools, Holds, Quiet, NoneDue, SameAddresses, Ring.Valid, Ring.Items, Buckets;
      FireHour(now, fired);
      ghost var v1 := V();
      Promote(now);
      SameHosts(v1, V());
      SameAddressesTrans(old(V()), v1, V());
      SpotQuiet(v1, V());
      QuietTrans(old(V()), v1, V());
      ghost var v2 := V();
      Distribute(now);
      QuietTrans(old(V()), v2, V());
      SameAddressesTrans(old(V()), v2, V());
    }

    method FireHour(now: nat, fired: seq<URLKey>)
      requires Valid() && clock <= now && multiset(fired) <= wheel
      modifies this
      ensures Valid() && clock == now && Quiet(old(V()), V()) && SameAddresses(old(V()), V())
      ensures wheel == old(wheel) - multiset(fired)
    {
      hide Inv, Pools, Holds, Quiet, SameAddresses, Ring.Valid, Ring.Items, Buckets;
      SameHosts(V(), V().(clock := now));
      QuietTick(V(), now);
      Tick(c, V(), {}, now);
      clock := now;
      ghost var v := V();
      PromoteDue(fired, now);
      QuietTrans(old(V()), v, V());
      SameAddressesTrans(old(V()), v, V());
    }

    // ---- report ----

    // The outcome answers the request its host has out.
    predicate Expected(key: URLKey)
      reads this
    {
      && key.host in hosts && hosts[key.host].inFlight
      && if hosts[key.host].rules == RulesPending then key.path == robotsPath
         else hosts[key.host].back != [] && hosts[key.host].back[0] == key
    }

    // The outcome of a URL nobody knows, which Report ignores.
    predicate Unknown(key: URLKey)
      reads this
    {
      key !in records && !(key.host in hosts && hosts[key.host].rules == RulesPending && key.path == robotsPath)
    }

    method Report(o: Outcome, now: nat)
      requires Valid() && clock <= now && (Expected(o.key) || Unknown(o.key))
      modifies this
      ensures Valid() && clock == now
      ensures old(Unknown(o.key)) ==> V() == old(V()).(clock := now)
      ensures old(Expected(o.key)) ==> Answered(old(V()), V(), o.key.host)
      ensures old(Expected(o.key) && hosts[o.key.host].rules != RulesPending) ==>
        Judged(c, old(V()), V(), o) && o.key in records && wheel == old(wheel) + Filed(o.key, records[o.key].status)
      ensures old(Unknown(o.key) || hosts[o.key.host].rules == RulesPending) ==> wheel == old(wheel)
    {
      hide HostPart, UrlPart, TracePart, Pools, Holds, Answered, Judged, Ring.Valid, Ring.Items, Buckets;
      Tick(c, V(), {}, now);
      ReportCase(c, V(), o.key);
      hide Inv, Reportable;
      ghost var v := V();
      clock := now;
      var hk := o.key.host;
      if c.robotsOn && hk in hosts && hosts[hk].rules == RulesPending && o.key.path == robotsPath {
        ApplyRobots(hk, o, now);
        AnsweredTick(v, now, V(), hk);
      } else if o.key in records {
        ReportContent(o, now);
        AnsweredTick(v, now, V(), hk);
        JudgedTick(c, v, now, V(), o);
      }
    }

    // applyRobots: cache the rules, drop the URLs they refuse and place the host.
    method ApplyRobots(hk: uint64, o: Outcome, now: nat)
      requires Valid() && now == clock && c.robotsOn && hk in hosts && hosts[hk].rules == RulesPending
      modifies `records, `hosts, `loc, `trace, `stranded, `ready, `wait, `spot
      ensures Valid() && Answered(old(V()), V(), hk)
      ensures stranded == if AllRefused(old(hosts[hk].back), RulesFor(o)) then old(stranded) + {hk} else old(stranded)
      ensures hk in hosts && hosts[hk].crawlFloor ==
        if 200 <= o.status < 300 then Max(old(hosts[hk].crawlFloor), Deci(o.robotsDelay)) else old(hosts[hk].crawlFloor)
    {
      hide Inv, Pools, Holds, Answered, AllRefused, AfterRobots, RulesFor, Deci, Max, Ring.Valid, Ring.Items, Buckets;
      var h := hosts[hk];
      var found := 200 <= o.status < 300;
      var crawlFloor := if found then Max(h.crawlFloor, Deci(o.robotsDelay)) else h.crawlFloor;
      var expiry := now / 3600 + if found || 400 <= o.status < 500 then ROBOTS_TTL_HOURS else 1;
      ghost var v := V();
      LearnRules(c, v, hk, RulesFor(o), crawlFloor, expiry);
      RobotsFacts(c, v, hk, RulesFor(o), crawlFloor, expiry);
      FilterRobots(hk, RulesFor(o), crawlFloor, expiry);
      if hosts[hk].back != [] {
        ghost var w := V();
        PlaceHost(hk, now);
        AnsweredPlaced(v, w, V(), hk);
      }
    }

    // filterRobots, and the host entry with its new rules.
    method FilterRobots(hk: uint64, rules: set<URLKey>, crawlFloor: nat, expiry: nat)
      requires Structs() && hk in hosts
      requires forall k <- Dropped(hosts[hk].back, rules) :: k in loc && loc[k] == AtBack && k in records
      modifies `records, `hosts, `loc, `trace, `stranded
      ensures Structs() && V() == AfterRobots(old(V()), hk, rules, crawlFloor, expiry)
    {
      hide Pools, Holds, Kept, Dropped, RuledHost, Ring.Valid, Ring.Items, Buckets;
      var h := hosts[hk];
      ghost var dropped := Dropped(h.back, rules);
      DropBacks(urlFront.Items(), loc, AtFront, dropped);
      DropBacks(wheel, loc, AtWheel, dropped);
      hide At;
      trace := trace + [Done(hk)];
      loc := loc - dropped;
      stranded := if Kept(h.back, rules) == [] then stranded + {hk} else stranded;
      records := ExcludeAll(records, Dropped(h.back, rules));
      hosts := hosts[hk := RuledHost(h, rules, crawlFloor, expiry)];
    }

    // The outcome of a content URL: a redirect's target comes in, the URL takes its transition and
    // the host is placed again.
    method ReportContent(o: Outcome, now: nat)
      requires Valid() && now == clock && Reportable(V(), o.key)
      modifies this
      ensures Valid() && clock == old(clock)
      ensures Answered(old(V()), V(), o.key.host) && Judged(c, old(V()), V(), o)
      ensures o.key in records && wheel == old(wheel) + Filed(o.key, records[o.key].status)
    {
      hide Inv, Pools, Holds, Answered, Judged, AfterAnswer, Redirected, Ring.Valid, Ring.Items, Buckets;
      var hk := o.key.host;
      ghost var v := V();
      RedirectKeeps(c, v, o);
      AnswerKeeps(c, v, o);
      var h, r := hosts[hk], records[o.key];
      RecordRedirect(o, now);
      Conclude(o);
      if hosts[hk].active {
        ghost var w := V();
        PlaceHost(hk, now);
        AnsweredPlaced(v, w, V(), hk);
        JudgedPlaced(c, v, w, V(), o);
      }
      JudgedRecord(c, v, V(), o);
    }

    // recordRedirect: the target is filed like any discovery, at the source's priority.
    method RecordRedirect(o: Outcome, now: nat)
      requires Structs() && loc.Keys <= records.Keys && o.key in records
      modifies `records, `hosts, `seen, `urlFront, `frontAge, `wheel, `loc
      ensures Structs() && V() == Redirected(c, old(V()), o) && wheel == old(wheel)
    {
      hide Pools, Holds, FreshHost, WithHost, NewLoc, Ring.Valid, Ring.Items, Buckets;
      if Redirects(c, o) && o.target.Some? && o.target.value !in seen {
        NewUrl(o.target.value, records[o.key].level, if o.targetAdmitted then Some(AtFront) else None, DEFAULT_FLOOR, now / 3600);
      }
    }

    method Conclude(o: Outcome)
      requires Structs() && o.key in records && o.key in loc && loc[o.key] == AtBack && o.key.host in hosts
      requires var h := hosts[o.key.host]; h.Fetching() && h.back[0] == o.key && h.active
      modifies `records, `hosts, `active, `wheel, `loc, `trace
      ensures Structs() && wheel == old(wheel) + Filed(o.key, NextRecord(c, old(records)[o.key], o).status)
      ensures V() == AfterAnswer(c, old(V()), o.key.host, NextRecord(c, old(records)[o.key], o),
                                 HostInterval(c.pol, o.adapted, old(hosts)[o.key.host].crawlFloor))
    {
      hide Pools, Holds, HostInterval, NextRecord, AnsweredLoc, AnsweredHost, Fails, Ring.Valid, Ring.Items, Buckets;
      var hk := o.key.host;
      var h, r := Judge(c, hosts[hk], records[o.key], o);
      Requeue(o.key, r.status);
      Free(o.key, r, h);
    }

    method Free(key: URLKey, r: Record, h: Host)
      requires Structs() && key in records
      modifies `records, `hosts, `active, `trace
      ensures Structs() && trace == old(trace) + [Done(key.host)]
      ensures records == old(records)[key := r] && hosts == old(hosts)[key.host := h]
      ensures active == old(active) - if h.active then 0 else 1
    {
      hide Pools, Holds, Ring.Valid, Ring.Items, Buckets;
      if !h.active {
        active := active - 1;
      }
      records, hosts := records[key := r], hosts[key.host := h];
      trace := trace + [Done(key.host)];
    }

    // What an answered URL adds to the wheel.
    function Filed(key: URLKey, status: Status): multiset<URLKey> {
      if c.wheelOn && status == Crawled then multiset{key} else multiset{}
    }

    // A crawled URL is filed for its recrawl; any other leaves the queues unless it is retried.
    method Requeue(key: URLKey, status: Status)
      requires Structs() && key in loc && loc[key] == AtBack
      modifies `wheel, `loc
      ensures Structs() && loc == AnsweredLoc(c, old(loc), key, status) && wheel == old(wheel) + Filed(key, status)
    {
      hide Pools, Holds, AnsweredLoc, Ring.Valid, Ring.Items, Buckets;
      BackLeaves(c, urlFront.Items(), AtFront, loc, key, status);
      BackLeaves(c, wheel, AtWheel, loc, key, status);
      if c.wheelOn && status == Crawled {
        wheel := wheel + multiset{key};
      }
      loc := AnsweredLoc(c, loc, key, status);
    }

    // ---- driving ----

    // NextEligible: the earliest instant anything opens. wheelNext is the wheel's own answer, in hours.
    method NextEligible(wheelNext: Option<nat>) returns (t: Option<nat>)
      requires Pools(ready, wait, spot)
      ensures t.None? <==> NoneParked(spot) && (!c.wheelOn || wheelNext.None?)
      ensures t.Some? ==> forall hk <- spot :: spot[hk].Parked? ==> t.value <= spot[hk].until
      ensures t.Some? && c.wheelOn && wheelNext.Some? ==> t.value <= wheelNext.value * 3600
      ensures t.Some? ==> ParkedAt(spot, t.value) || (c.wheelOn && wheelNext == Some(t.value / 3600) && t.value % 3600 == 0)
    {
      hide Pools;
      HeapFirst(ready, wait, spot);
      t := if wait == [] then None else Some(wait[0].eligible);
      if c.wheelOn && wheelNext.Some? && (t.None? || wheelNext.value * 3600 < t.value) {
        t := Some(wheelNext.value * 3600);
      }
    }

    // No request is out.
    ghost predicate Idle()
      reads this
    {
      forall hk <- hosts :: !hosts[hk].inFlight
    }

    // One turn of Drain's loop: dispatch and, if something went out, fetch and report.
    method Turn(now: nat, n: nat, fetch: (nat, Request) -> Option<Outcome>) returns (r: TurnResult)
      requires Valid() && Idle() && clock <= now && !c.robotsOn && !c.resolverOn && !c.wheelOn
      requires forall n, r :: fetch(n, r).Some? ==> fetch(n, r).value.key == r.key && fetch(n, r).value.target.None?
      modifies this
      ensures Valid() && clock == now && KeepsTrapped(old(V()), V())
      ensures r.Fetched? ==> Idle() && sent == old(sent) + multiset{r.d.key} && Budget(V()) == old(Budget(V())) - 1
      ensures r.Nothing? ==> Idle() && sent == old(sent) && Budget(V()) == old(Budget(V())) && Blocked(now) && !old(Openable(V(), now))
    {
      hide Inv, Pools, Holds, Judged, Quiet, SentOne, Answered, KeepsTrapped, AllParked, Budget, Openable, Ring.Valid, Ring.Items, Buckets;
      ghost var v := V();
      var none: seq<URLKey> := [];
      assert multiset(none) == multiset{};
      var req := DispatchShard(now, 0, none, _ => None);
      if req.None? {
        QuietStep(c, v, V(), now);
        return Nothing;
      }
      SentStep(c, robotsPath, v, V(), req.value, now);
      ghost var w := V();
      var o := fetch(n, req.value);
      if o.None? {
        return Failed;
      }
      Report(o.value, now);
      ReportStep(c, v, w, V(), req.value, o.value);
      return Fetched(Dispatched(req.value.key, req.value.key.host, now));
    }

    // Drain: dispatch, fetch and report until no host is waiting. fetch is any fetcher that answers
    // what it was asked and resolves no redirect to a new URL; None is its error. With robots, the
    // resolver and the wheel off, a run that ends without a fetcher error has crawled everything.
    method Drain(start: nat, fetch: (nat, Request) -> Option<Outcome>) returns (out: seq<Dispatched>, ok: bool)
      requires Valid() && Idle() && clock <= start
      requires !c.robotsOn && !c.resolverOn && !c.wheelOn && EffectiveTarget(c) >= 1
      requires forall n, r :: fetch(n, r).Some? ==> fetch(n, r).value.key == r.key && fetch(n, r).value.target.None?
      modifies this
      ensures Valid() && KeepsTrapped(old(V()), V())
      ensures ok ==> Finished(c, V()) && sent == old(sent) + multiset(KeysOf(out))
    {
      hide Inv, Pools, Holds, KeepsTrapped, AllParked, Budget, Openable, Finished, ParkedAt, KeysOf, Ring.Valid, Ring.Items, Buckets;
      var now := start;
      out := [];
      TrappedRefl(V());
      SentBound(c, V());
      KeysEmpty();
      while true
        invariant Valid() && Idle() && clock <= now && KeepsTrapped(old(V()), V())
        invariant sent == old(sent) + multiset(KeysOf(out))
        invariant Budget(V()) >= 0
        decreases Budget(V()), !Openable(V(), now)
      {
        ghost var v := V();
        var r := Turn(now, |out|, fetch);
        TrappedTrans(old(V()), v, V());
        if r.Failed? {
          return out, false;
        }
        if r.Fetched? {
          KeysAppend(out, r.d);
          out := out + [r.d];
          SentBound(c, V());
          continue;
        }
        var t := NextEligible(None);
        if t.None? {
          NothingLeft(c, V(), urlFront.Items(), wheel, now);
        } else {
          ParkedLater(spot, t.value, now);
        }
        if t.None? || t.value <= now {
          return out, true;
        }
        ParkedOpens(c, V(), t.value);
        now := t.value;
      }
    }
  }

  datatype TurnResult = Fetched(d: Dispatched) | Failed | Nothing

  datatype Dispatched = Dispatched(key: URLKey, host: uint64, at: nat)

  function KeysOf(out: seq<Dispatched>): (ks: seq<URLKey>)
    ensures |ks| == |out|
  {
    seq(|out|, i requires 0 <= i < |out| => out[i].key)
  }

  lemma KeysEmpty()
    ensures multiset(KeysOf([])) == multiset{}
  {
  }

  lemma KeysAppend(out: seq<Dispatched>, d: Dispatched)
    ensures multiset(KeysOf(out + [d])) == multiset(KeysOf(out)) + multiset{d.key}
  {
    assert KeysOf(out + [d]) == KeysOf(out) + [d.key];
  }

  ghost predicate NoneParked(spot: map<uint64, Spot>) {
    forall hk <- spot :: !spot[hk].Parked?
  }

  ghost predicate ParkedAt(spot: map<uint64, Spot>, t: nat) {
    exists hk :: hk in spot && spot[hk] == Parked(t)
  }

  // The root of the wait heap is the earliest parked instant.
  lemma HeapFirst(ready: seq<Ring<nat>>, wait: seq<WaitItem>, spot: map<uint64, Spot>)
    requires Pools(ready, wait, spot)
    ensures wait == [] <==> NoneParked(spot)
    ensures wait != [] ==> ParkedAt(spot, wait[0].eligible) && forall hk <- spot :: spot[hk].Parked? ==> wait[0].eligible <= spot[hk].until
  {
    hide BankItems, ValidBank;
    if wait != [] {
      MinHeap.RootMinAll(wait, Rank);
      assert multiset(wait)[wait[0]] > 0;
      assert spot[wait[0].hostKey] == Parked(wait[0].eligible);
    }
    forall hk <- spot | spot[hk].Parked?
      ensures wait != [] && wait[0].eligible <= spot[hk].until
    {
      var it := WaitItem(hk, spot[hk].until);
      assert multiset(wait)[it] == 1;
      assert it in multiset(wait) && it in wait;
      assert Rank(wait[0]) <= Rank(it);
    }
  }

  // ---- what Drain needs ----

  // Nothing is pending, and every URL that was not trapped has been fetched: exactly once without
  // the state machine, at most MAX_RETRIES times with it.
  ghost predicate Finished(c: Config, v: View) {
    && v.loc == map[]
    && (forall k <- v.records :: match v.records[k].status
          case Crawled => 1 <= v.sent[k] <= if c.stateOn then MAX_RETRIES else 1
          case Gone => 1 <= v.sent[k] <= if c.stateOn then MAX_RETRIES else 1
          case Trapped => v.sent[k] == 0
          case _ => false)
  }

  // Dispatches left before every URL has had its MAX_RETRIES.
  ghost function Budget(v: View): int {
    MAX_RETRIES * |v.records.Keys| - |v.sent|
  }

  ghost predicate Openable(v: View, now: nat) {
    exists hk :: hk in v.spot && hk in v.hosts && v.hosts[hk].hostNext <= now
  }

  lemma TrappedRefl(v: View)
    ensures KeepsTrapped(v, v)
  {
  }

  lemma TrappedTrans(a: View, b: View, d: View)
    requires KeepsTrapped(a, b) && KeepsTrapped(b, d)
    ensures KeepsTrapped(a, d)
  {
  }

  // A multiset over a set of keys, each at most m times.
  lemma {:induction false} BoundedCount(q: multiset<URLKey>, ks: set<URLKey>, m: nat)
    requires forall k :: k in q ==> k in ks
    requires forall k :: q[k] <= m
    ensures |q| <= m * |ks|
  {
    if ks == {} {
      assert q == multiset{};
    } else {
      var k :| k in ks;
      BoundedCount(q[k := 0], ks - {k}, m);
      assert |q[k := 0]| == |q| - q[k];
    }
  }

  lemma SentBound(c: Config, v: View)
    requires Inv(c, v, {}) && !c.wheelOn
    ensures Budget(v) >= 0
  {
    hide HostPart, TracePart, BacksOk, StatusesOk, Flight;
    forall k
      ensures v.sent[k] <= MAX_RETRIES
    {
      if k in v.sent {
        assert Tally(v.records[k], v.sent[k], c.stateOn) && RetryOk(v.records[k], c.stateOn);
      }
    }
    BoundedCount(v.sent, v.records.Keys, MAX_RETRIES);
  }

  // What a dispatched request leaves for Report and the loop.
  lemma SentStep(c: Config, robotsPath: uint64, v: View, w: View, r: Request, now: nat)
    requires SentOne(c, robotsPath, v, w, r, now) && !c.robotsOn
    requires forall hk <- v.hosts :: !v.hosts[hk].inFlight
    ensures KeepsTrapped(v, w) && w.sent == v.sent + multiset{r.key}
    ensures var hk := r.key.host;
            && hk in w.hosts && w.hosts[hk].Fetching() && w.hosts[hk].back[0] == r.key
            && (forall x <- w.hosts :: x != hk ==> !w.hosts[x].inFlight)
  {
    hide Polite;
  }

  lemma ReportStep(c: Config, v: View, w: View, x: View, r: Request, o: Outcome)
    requires KeepsTrapped(v, w) && Answered(w, x, r.key.host) && Judged(c, w, x, o) && o.target.None?
    requires w.sent == v.sent + multiset{r.key}
    requires forall y <- w.hosts :: y != r.key.host ==> !w.hosts[y].inFlight
    ensures KeepsTrapped(v, x) && x.sent == v.sent + multiset{r.key} && Budget(x) == Budget(v) - 1
    ensures forall y <- x.hosts :: !x.hosts[y].inFlight
  {
    hide NextRecord;
  }

  // A call that sent nothing: no pooled host's window had opened.
  lemma QuietStep(c: Config, v: View, w: View, now: nat)
    requires Quiet(v, w) && AllParked(w.spot, now)
    requires Inv(c, v, {}) && Inv(c, w, {}) && !c.resolverOn
    requires forall hk <- v.hosts :: !v.hosts[hk].inFlight
    ensures KeepsTrapped(v, w) && Budget(w) == Budget(v) && w.sent == v.sent
    ensures !Openable(v, now)
    ensures forall hk <- w.hosts :: !w.hosts[hk].inFlight
  {
    hide UrlPart, TracePart, HostsOk, Actives;
    forall hk | hk in v.spot && hk in v.hosts
      ensures v.hosts[hk].hostNext > now
    {
      assert w.hosts[hk].hostNext == v.hosts[hk].hostNext;
    }
  }

  lemma ParkedLater(spot: map<uint64, Spot>, t: nat, now: nat)
    requires AllParked(spot, now) && ParkedAt(spot, t)
    ensures t > now
  {
  }

  lemma ParkedOpens(c: Config, v: View, t: nat)
    requires Inv(c, v, {}) && !c.resolverOn && ParkedAt(v.spot, t)
    ensures Openable(v, t)
  {
    hide UrlPart, TracePart, HostsOk, Actives;
    var hk :| hk in v.spot && v.spot[hk] == Parked(t);
    assert v.hosts[hk].hostNext == t;
  }

  lemma NothingLeft(c: Config, v: View, front: multiset<URLKey>, wheel: multiset<URLKey>, now: nat)
    requires Inv(c, v, {}) && !c.robotsOn && !c.wheelOn && EffectiveTarget(c) >= 1
    requires Holds(front, v.loc, AtFront) && Holds(wheel, v.loc, AtWheel) && wheel == multiset{}
    requires AllParked(v.spot, now) && NoneParked(v.spot)
    requires front == multiset{} || v.active >= EffectiveTarget(c)
    requires forall hk <- v.hosts :: !v.hosts[hk].inFlight
    ensures Finished(c, v)
  {
    hide TracePart, UrlPart;
    NobodyActive(c, v);
    hide HostPart;
    NoLoc(c, v, front, wheel);
    AllFetched(c, v);
  }

  lemma NobodyActive(c: Config, v: View)
    requires HostPart(c, v.hosts, v.active, v.spot, v.stranded, v.clock, {}) && !c.robotsOn && v.spot.Keys == {}
    requires forall hk <- v.hosts :: !v.hosts[hk].inFlight
    ensures v.active == 0 && forall hk <- v.hosts :: v.hosts[hk].back == []
  {
    forall hk <- v.hosts
      ensures !v.hosts[hk].active && v.hosts[hk].back == []
    {
      assert HostOk(v.hosts[hk], hk in v.spot, hk in v.stranded, c.robotsOn);
      assert Settled(v.hosts[hk], hk in v.spot, hk in v.stranded);
      assert hk !in v.spot.Keys;
    }
    assert Actives(v.hosts) == {};
  }

  lemma NoLoc(c: Config, v: View, front: multiset<URLKey>, wheel: multiset<URLKey>)
    requires UrlPart(c, v.records, v.hosts, v.loc, v.sent)
    requires Holds(front, v.loc, AtFront) && Holds(wheel, v.loc, AtWheel) && wheel == front == multiset{}
    requires forall hk <- v.hosts :: v.hosts[hk].back == []
    ensures v.loc == map[]
  {
    hide StatusesOk, Flight, Counted;
    forall k
      ensures k !in v.loc
    {
      assert front[k] == At(v.loc, AtFront, k) && wheel[k] == At(v.loc, AtWheel, k);
      if k.host in v.hosts {
        EmptyBack(v.hosts[k.host].back, v.loc, k);
      }
    }
  }

  lemma EmptyBack(back: seq<URLKey>, loc: map<URLKey, Place>, k: URLKey)
    requires BackOk(back, k.host, loc) && back == []
    ensures At(loc, AtBack, k) == 0
  {
    assert multiset(back)[k] == At(loc, AtBack, k);
  }

  lemma AllFetched(c: Config, v: View)
    requires UrlPart(c, v.records, v.hosts, v.loc, v.sent) && v.loc == map[] && !c.robotsOn && !c.wheelOn
    ensures Finished(c, v)
  {
    hide BacksOk, Flight;
    forall k <- v.records
      ensures v.records[k].status in {Crawled, Gone, Trapped} && Tally(v.records[k], v.sent[k], c.stateOn)
    {
      assert StatusOk(v.records[k].status, k, v.loc, c.wheelOn);
    }
  }

  // Report of a content URL whose host is h: pop the queue, take the transition (markCrawled or
  // failURL), fold the outcome into the rate and free the host.
  method Judge(c: Config, h0: Host, r0: Record, o: Outcome) returns (h: Host, r: Record)
    requires h0.Fetching() && h0.back[0] == o.key && h0.active
    ensures r == NextRecord(c, r0, o)
    ensures h == AnsweredHost(h0, r.status, HostInterval(c.pol, o.adapted, h0.crawlFloor))
  {
    h, r := h0.(back := h0.back[1..]), r0;
    if Fails(c, o) {
      if r.retry < MAX_RETRIES {
        r := r.(retry := r.retry + 1);
      }
      if o.status == 410 || r.retry >= MAX_RETRIES {
        r := r.(status := Gone);
      } else {
        r := r.(status := Scheduled);
        h := h.(back := h.back + [o.key]);
      }
    } else {
      r := r.(status := if o.soft404 && !o.notModified then Gone else Crawled, retry := 0);
    }
    h := h.(effective := HostInterval(c.pol, o.adapted, h.crawlFloor), inFlight := false);
    if h.back == [] {
      h := h.(active := false);
    }
  }

  // With the state machine on: a 3xx or a resolved redirect, unless it is a 304.
  predicate Redirects(c: Config, o: Outcome) {
    c.stateOn && !o.notModified && (o.redirected || 300 <= o.status < 400)
  }

  // With the state machine on: a transport error, a 4xx or a 5xx that is neither a 304 nor a redirect.
  predicate Fails(c: Config, o: Outcome) {
    c.stateOn && !o.notModified && !Redirects(c, o) && (o.retryable || 400 <= o.status <= 599)
  }

  // The outcome state machine.
  function NextRecord(c: Config, r: Record, o: Outcome): Record {
    if !Fails(c, o) then
      r.(status := if o.soft404 && !o.notModified then Gone else Crawled, retry := 0)
    else if o.status == 410 || r.retry + 1 >= MAX_RETRIES then
      r.(status := Gone, retry := if r.retry < MAX_RETRIES then r.retry + 1 else r.retry)
    else
      r.(status := Scheduled, retry := r.retry + 1)
  }

  // The rules a robots.txt answer leaves: the parsed ones on success, else everything goes.
  function RulesFor(o: Outcome): set<URLKey> {
    if 200 <= o.status < 300 then o.rules else {}
  }

  ghost function Redirected(c: Config, v: View, o: Outcome): View
    requires o.key in v.records
  {
    if Redirects(c, o) && o.target.Some? && o.target.value !in v.records then
      Added(c, v, o.target.value, v.records[o.key].level, if o.targetAdmitted then Some(AtFront) else None, DEFAULT_FLOOR)
    else v
  }

  ghost predicate Reportable(v: View, key: URLKey) {
    && Answerable(v, key.host) && v.hosts[key.host].back[0] == key
    && v.hosts[key.host].active
    && v.loc.Keys <= v.records.Keys && (forall k <- v.loc :: v.loc[k] != AtWheel ==> k.host in v.hosts)
  }

  // The view after the outcome of a content URL, before its host is placed.
  ghost function AfterReport(c: Config, v: View, o: Outcome): View
    requires Reportable(v, o.key)
  {
    RedirectedStill(c, v, o);
    AfterAnswer(c, Redirected(c, v, o), o.key.host, NextRecord(c, v.records[o.key], o),
                HostInterval(c.pol, o.adapted, v.hosts[o.key.host].crawlFloor))
  }

  lemma RedirectedStill(c: Config, v: View, o: Outcome)
    requires Reportable(v, o.key)
    ensures var w := Redirected(c, v, o);
            && Reportable(w, o.key) && w.records[o.key] == v.records[o.key]
            && w.hosts[o.key.host] == v.hosts[o.key.host]
  {
  }

  // The request of hk came back and nobody else's did.
  ghost predicate Answered(a: View, v: View, hk: uint64) {
    && Out(a, hk) && hk in v.hosts && !v.hosts[hk].inFlight
    && a.hosts.Keys <= v.hosts.Keys
    && (forall x <- v.hosts :: x != hk ==> (v.hosts[x].inFlight <==> Out(a, x)))
    && (forall x <- a.hosts :: v.hosts[x].hostNext == a.hosts[x].hostNext)
    && v.trace == a.trace + [Done(hk)] && v.sent == a.sent && v.ips == a.ips
  }

  // The URL took the transition its outcome calls for. Without a redirect target no record came in
  // and none was trapped or freed.
  ghost predicate Judged(c: Config, a: View, v: View, o: Outcome) {
    && o.key in a.records && o.key in v.records && v.records[o.key] == NextRecord(c, a.records[o.key], o)
    && (o.target.None? ==> KeepsTrapped(a, v))
  }

  ghost predicate AllRefused(back: seq<URLKey>, rules: set<URLKey>) {
    forall k <- back :: k in rules
  }

  lemma ReportCase(c: Config, v: View, key: URLKey)
    requires Inv(c, v, {})
    ensures key.host in v.hosts && v.hosts[key.host].rules == RulesPending ==> c.robotsOn
    ensures Out(v, key.host) && v.hosts[key.host].rules != RulesPending && v.hosts[key.host].back != [] && v.hosts[key.host].back[0] == key
      ==> key in v.records && Reportable(v, key)
  {
    hide TracePart;
    if key.host in v.hosts {
      assert HostOk(v.hosts[key.host], key.host in v.spot, key.host in v.stranded, c.robotsOn);
      hide HostPart;
      if v.hosts[key.host].Fetching() {
        FetchingIsAnswerable(c, v, key.host);
      }
    }
  }

  lemma RedirectKeeps(c: Config, v: View, o: Outcome)
    requires Inv(c, v, {}) && Reportable(v, o.key)
    ensures Inv(c, Redirected(c, v, o), {}) && Reportable(Redirected(c, v, o), o.key)
    ensures Redirected(c, v, o).records[o.key] == v.records[o.key]
    ensures Redirected(c, v, o).hosts[o.key.host] == v.hosts[o.key.host]
  {
    RedirectedStill(c, v, o);
    hide Inv, Reportable;
    if Redirects(c, o) && o.target.Some? && o.target.value !in v.records {
      AddUrl(c, v, {}, o.target.value, v.records[o.key].level, if o.targetAdmitted then Some(AtFront) else None, DEFAULT_FLOOR);
    }
  }

  lemma NextVerdict(c: Config, r: Record, o: Outcome)
    requires r.retry < MAX_RETRIES && (!c.stateOn ==> r.retry == 0)
    ensures Verdict(c, r, NextRecord(c, r, o))
  {
  }

  lemma InFlightRetry(c: Config, v: View, key: URLKey)
    requires UrlPart(c, v.records, v.hosts, v.loc, v.sent) && key in v.records && v.records[key].status == InFlight
    ensures v.records[key].retry < MAX_RETRIES && (!c.stateOn ==> v.records[key].retry == 0)
  {
    hide BacksOk, StatusesOk, Flight;
    assert RetryOk(v.records[key], c.stateOn);
  }

  lemma AnswerKeeps(c: Config, v: View, o: Outcome)
    requires Inv(c, v, {}) && Reportable(v, o.key)
    ensures var w := AfterReport(c, v, o);
            var hk := o.key.host;
            && hk in w.hosts && Inv(c, w, if w.hosts[hk].active then {hk} else {})
            && hk !in w.spot && hk !in w.stranded && !w.hosts[hk].inFlight && (w.hosts[hk].active <==> w.hosts[hk].back != [])
            && Answered(v, w, hk) && Judged(c, v, w, o)
  {
    hide HostPart, UrlPart, TracePart, NextRecord, Redirected, Answered, Judged;
    var hk := o.key.host;
    var r, e := NextRecord(c, v.records[o.key], o), HostInterval(c.pol, o.adapted, v.hosts[hk].crawlFloor);
    InFlightRetry(c, v, o.key);
    NextVerdict(c, v.records[o.key], o);
    RedirectKeeps(c, v, o);
    hide Inv;
    Answer(c, Redirected(c, v, o), hk, r, e);
    ReportShows(c, v, o);
  }

  lemma ReportShows(c: Config, v: View, o: Outcome)
    requires Reportable(v, o.key)
    ensures Answered(v, AfterReport(c, v, o), o.key.host) && Judged(c, v, AfterReport(c, v, o), o)
  {
    hide HostInterval, AnsweredLoc, Requeued;
    NextNotTrapped(c, v.records[o.key], o);
    hide NextRecord;
    RedirectedStill(c, v, o);
  }

  lemma NextNotTrapped(c: Config, r: Record, o: Outcome)
    ensures NextRecord(c, r, o).status != Trapped
  {
  }

  lemma AnsweredTick(a: View, now: nat, v: View, hk: uint64)
    requires Answered(a.(clock := now), v, hk)
    ensures Answered(a, v, hk)
  {
  }

  lemma JudgedTick(c: Config, a: View, now: nat, v: View, o: Outcome)
    requires Judged(c, a.(clock := now), v, o)
    ensures Judged(c, a, v, o)
  {
    hide NextRecord;
  }

  // Placing the host afterwards changes neither.
  lemma AnsweredPlaced(a: View, b: View, d: View, hk: uint64)
    requires Answered(a, b, hk) && d == b.(spot := d.spot)
    ensures Answered(a, d, hk)
  {
  }

  lemma JudgedRecord(c: Config, a: View, v: View, o: Outcome)
    requires Judged(c, a, v, o)
    ensures o.key in a.records && o.key in v.records && v.records[o.key] == NextRecord(c, a.records[o.key], o)
  {
  }

  lemma JudgedPlaced(c: Config, a: View, b: View, d: View, o: Outcome)
    requires Judged(c, a, b, o) && d == b.(spot := d.spot)
    ensures Judged(c, a, d, o)
  {
    hide NextRecord;
  }

  // The answered URL leaves its back queue, for the wheel if it is filed for a recrawl.
  lemma BackLeaves(c: Config, q: multiset<URLKey>, p: Place, loc: map<URLKey, Place>, k: URLKey, status: Status)
    requires Holds(q, loc, p) && p != AtBack && k in loc && loc[k] == AtBack
    ensures Holds(if p == AtWheel && c.wheelOn && status == Crawled then q + multiset{k} else q, AnsweredLoc(c, loc, k, status), p)
  {
    if status != Scheduled {
      OtherQueue(q, loc, loc - {k}, p, k);
      if status == Crawled && c.wheelOn {
        assert (loc - {k})[k := AtWheel] == loc[k := AtWheel];
        if p == AtWheel {
          JoinQueue(q, loc - {k}, AtWheel, k);
        } else {
          OtherQueue(q, loc - {k}, loc[k := AtWheel], p, k);
        }
      }
    }
  }

  // Dropping URLs from a back queue leaves the other queues right.
  lemma DropBacks(q: multiset<URLKey>, loc: map<URLKey, Place>, p: Place, dropped: set<URLKey>)
    requires Holds(q, loc, p) && p != AtBack && forall k <- dropped :: k in loc && loc[k] == AtBack
    ensures Holds(q, loc - dropped, p)
  {
    forall k
      ensures q[k] == At(loc - dropped, p, k)
    {
      assert q[k] == At(loc, p, k);
    }
  }

  lemma {:induction false} KeptNone(back: seq<URLKey>, rules: set<URLKey>)
    ensures Kept(back, rules) == [] <==> AllRefused(back, rules)
  {
    if back != [] {
      var n := |back| - 1;
      KeptNone(back[..n], rules);
      assert forall k :: k in back <==> k in back[..n] || k == back[n];
    }
  }

  lemma RobotsHost(c: Config, v: View, hk: uint64)
    requires HostPart(c, v.hosts, v.active, v.spot, v.stranded, v.clock, {}) && hk in v.hosts && v.hosts[hk].rules == RulesPending
    ensures v.hosts[hk].inFlight && v.hosts[hk].active && hk !in v.spot && hk !in v.stranded
  {
    assert HostOk(v.hosts[hk], hk in v.spot, hk in v.stranded, c.robotsOn);
  }

  lemma RobotsFacts(c: Config, v: View, hk: uint64, rules: set<URLKey>, crawlFloor: nat, expiry: nat)
    requires Inv(c, v, {}) && hk in v.hosts && v.hosts[hk].rules == RulesPending
    ensures forall k <- Dropped(v.hosts[hk].back, rules) :: k in v.loc && v.loc[k] == AtBack && k in v.records
    ensures var w := AfterRobots(v, hk, rules, crawlFloor, expiry);
            && hk in w.hosts && (w.hosts[hk].back == [] <==> AllRefused(v.hosts[hk].back, rules))
            && w.hosts[hk].active && !w.hosts[hk].inFlight && hk !in w.spot
            && (w.hosts[hk].back != [] ==> hk !in w.stranded)
            && w.stranded == (if AllRefused(v.hosts[hk].back, rules) then v.stranded + {hk} else v.stranded)
            && Answered(v, w, hk) && w.hosts[hk].crawlFloor == crawlFloor
  {
    hide Flight, Counted, Kept, AllRefused, ExcludeAll, TracePart, Answered;
    KeptNone(v.hosts[hk].back, rules);
    RobotsHost(c, v, hk);
    RobotsAnswered(v, hk, rules, crawlFloor, expiry);
    hide HostPart;
    forall k <- Dropped(v.hosts[hk].back, rules)
      ensures k in v.loc && v.loc[k] == AtBack && k in v.records
    {
      InBack(v, hk, k);
    }
  }

  lemma RobotsAnswered(v: View, hk: uint64, rules: set<URLKey>, crawlFloor: nat, expiry: nat)
    requires hk in v.hosts && v.hosts[hk].inFlight
    ensures Answered(v, AfterRobots(v, hk, rules, crawlFloor, expiry), hk)
  {
    hide Kept, Dropped, ExcludeAll;
  }

  ghost predicate AllParked(spot: map<uint64, Spot>, now: nat) {
    forall hk <- spot :: spot[hk].Parked? && spot[hk].until > now
  }

  ghost function ReadySet(spot: map<uint64, Spot>): set<uint64> {
    set hk | hk in spot && spot[hk] == InReady
  }

  lemma NoneReady(spot: map<uint64, Spot>, now: nat)
    requires NoneDue(spot, now) && forall hk <- spot :: spot[hk] != InReady
    ensures AllParked(spot, now)
  {
  }

  // v' is v with host hk out of the pools and perhaps resolved anew.
  ghost predicate OnlyIp(v: View, v': View, hk: uint64) {
    && hk in v.hosts && v'.hosts.Keys == v.hosts.Keys
    && (forall x <- v.hosts :: x != hk ==> v'.hosts[x] == v.hosts[x])
    && v'.hosts[hk] == v.hosts[hk].(ip := v'.hosts[hk].ip, ipExpiry := v'.hosts[hk].ipExpiry)
    && v' == v.(hosts := v'.hosts, spot := v'.spot)
  }

  // Quiet, but for hk having left the pools.
  ghost predicate QuietBut(v: View, v': View, hk: uint64) {
    Quiet(v, v'.(spot := v'.spot[hk := InReady]))
  }

  lemma QuietButTrans(a: View, b: View, d: View, hk: uint64)
    requires Quiet(a, b) && QuietBut(b, d, hk)
    ensures QuietBut(a, d, hk)
  {
  }

  lemma QuietTick(v: View, now: nat)
    ensures Quiet(v, v.(clock := now))
  {
  }

  lemma MadeHost(v: View, w: View, hk: uint64, h: Host)
    requires w.records.Keys == v.records.Keys && hk in HostsOf(v.records.Keys)
    requires h.ip == 0 && h.rules == RulesNone && w.hosts == WithHost(v.hosts, hk, h)
    requires forall k <- v.loc :: v.loc[k] != AtWheel ==> k in w.loc && w.loc[k] == v.loc[k]
    ensures SameAddresses(v, w)
  {
  }

  lemma HostKnown(records: map<URLKey, Record>, k: URLKey)
    requires k in records
    ensures k.host in HostsOf(records.Keys)
  {
  }

  lemma FreshHasNoAddress(pol: Policy, crawlFloor: nat)
    ensures FreshHost(pol, crawlFloor).ip == 0 && FreshHost(pol, crawlFloor).rules == RulesNone
  {
  }

  lemma BoundHost(v: View, w: View, k: URLKey)
    requires k.host in v.hosts && w.hosts == v.hosts[k.host := Bound(v.hosts[k.host], k)] && w.loc == v.loc[k := AtBack]
    requires w.records == v.records
    ensures SameAddresses(v, w)
  {
  }

  lemma SpotQuiet(v: View, v': View)
    requires v' == v.(spot := v'.spot) && v.spot.Keys <= v'.spot.Keys
    ensures Quiet(v, v')
  {
  }

  lemma AddressedOnward(a: View, v: View, v': View, hk: uint64, lookup: uint64 -> Option<nat>)
    requires Addressed(a, v, lookup) && OnlyIp(v, v', hk)
    requires v'.hosts[hk].ip == v.hosts[hk].ip || lookup(hk) == Some(v'.hosts[hk].ip)
    ensures Addressed(a, v', lookup)
  {
    OnlyIpAddressed(v, v', hk, lookup);
    AddressedTrans(a, v, v', lookup);
  }

  lemma OnlyIpAddressed(v: View, v': View, hk: uint64, lookup: uint64 -> Option<nat>)
    requires OnlyIp(v, v', hk) && (v'.hosts[hk].ip == v.hosts[hk].ip || lookup(hk) == Some(v'.hosts[hk].ip))
    ensures Addressed(v, v', lookup)
  {
  }

  lemma SameHosts(v: View, v': View)
    requires v'.hosts == v.hosts && v'.loc == v.loc && v'.records == v.records
    ensures SameAddresses(v, v')
  {
  }

  lemma RefusedHost(v: View, v': View, k: URLKey)
    requires v'.hosts == v.hosts && v'.loc == v.loc - {k} && Ruled(v, k.host) && v'.records.Keys == v.records.Keys
    ensures SameAddresses(v, v')
  {
  }

  lemma Reparked(v: View, v': View, hk: uint64, now: nat)
    requires hk in v.spot && v.spot[hk] == InReady && NoneDue(v.spot, now)
    requires OnlyIp(v, v'.(spot := v.spot - {hk}), hk)
    requires v'.spot == (v.spot - {hk})[hk := Parked(Eligible(v'.hosts[hk], v'.ips))] && Eligible(v'.hosts[hk], v'.ips) > now
    ensures Quiet(v, v') && NoneDue(v'.spot, now) && ReadySet(v'.spot) < ReadySet(v.spot)
  {
    assert hk in ReadySet(v.spot) && hk !in ReadySet(v'.spot);
  }

  lemma IdleRules(c: Config, v: View, hk: uint64)
    requires Inv(c, v, {hk}) && hk in v.hosts && !v.hosts[hk].inFlight
    ensures v.hosts[hk].rules != RulesPending
  {
    assert HostOk(v.hosts[hk], hk in v.spot, hk in v.stranded, c.robotsOn);
  }

  // What one answered call of Dispatch did to the world.
  ghost predicate SentOne(c: Config, robotsPath: uint64, a: View, v: View, r: Request, now: nat) {
    var hk := r.key.host;
    && a.hosts.Keys <= v.hosts.Keys && hk in v.hosts
    && v.hosts[hk].inFlight && !Out(a, hk)
    && (forall x <- v.hosts :: x != hk ==> (v.hosts[x].inFlight <==> Out(a, x)))
    && (forall x <- a.hosts :: x != hk ==> v.hosts[x].hostNext == a.hosts[x].hostNext)
    && (hk in a.hosts ==> v.hosts[hk].effective == a.hosts[hk].effective && v.hosts[hk].crawlFloor == a.hosts[hk].crawlFloor)
    && KeepsTrapped(a, v) && v.stranded == a.stranded
    && (exists e :: v.trace == a.trace + [e] && Polite(c, e, v.hosts[hk], r, now) && v.ips == Spent(a.ips, e))
    && if r.robots
       then c.robotsOn && r.key.path == robotsPath && v.hosts[hk].rules == RulesPending && v.sent == a.sent
       else v.hosts[hk].Fetching() && v.hosts[hk].back[0] == r.key && v.sent == a.sent + multiset{r.key}
  }

  // A request closes its address's window until its step has passed.
  ghost function Spent(ips: map<nat, nat>, e: Event): map<nat, nat>
    requires e.Sent?
  {
    if e.ip == 0 then ips else ips[e.ip := e.at + e.ipStep]
  }

  lemma SentSame(c: Config, v: View, hk: uint64, now: nat)
    requires CanSend(v, hk, now)
    ensures forall content: bool :: v.hosts[hk].back[0] in v.records ==> SameAddresses(v, AfterSend(c, v, hk, now, content))
  {
    hide Eligible, SpentIps, SendEvent;
  }

  lemma SpentMatches(c: Config, h: Host, hk: uint64, ips: map<nat, nat>, now: nat)
    ensures SpentIps(c, h, ips, now) == Spent(ips, SendEvent(c, h, hk, now))
  {
  }

  // The step spent is the host's interval in whole seconds, rounded down, and closes its window. So is
  // no less than the global floor, the host's crawl delay and the per-address floor, rounded down.
  ghost predicate Polite(c: Config, e: Event, h: Host, r: Request, now: nat) {
    && e.Sent? && e.host == r.key.host && e.ip == r.ip == h.ip && e.at == now && h.hostNext == now + e.step
    && e.step == Secs(Interval(c, h)) && e.ipStep == IpStep(c, h)
    && e.step >= Secs(c.pol.floor) && e.step >= Secs(h.crawlFloor)
    && e.ipStep >= e.step && e.ipStep >= Secs(c.pol.ipFloor)
  }

  lemma SecsMono(a: nat, b: nat)
    requires a <= b
    ensures Secs(a) <= Secs(b)
  {
  }

  lemma EventPolite(c: Config, h: Host, h': Host, hk: uint64, r: Request, now: nat)
    requires r.key.host == hk && r.ip == h.ip == h'.ip && h'.crawlFloor == h.crawlFloor && h'.effective == h.effective
    requires h'.hostNext == now + Secs(Interval(c, h))
    ensures Polite(c, SendEvent(c, h, hk, now), h', r, now)
  {
    hide Secs, Clamp, Max;
    var d := Interval(c, h);
    SecsMono(c.pol.floor, d);
    SecsMono(h.crawlFloor, d);
    MaxIsAbove(d, c.pol.ipFloor);
    SecsMono(d, Max(d, c.pol.ipFloor));
    SecsMono(c.pol.ipFloor, Max(d, c.pol.ipFloor));
  }

  lemma MaxIsAbove(a: nat, b: nat)
    ensures a <= Max(a, b) && b <= Max(a, b)
  {
  }

  lemma SentIsOne(c: Config, robotsPath: uint64, a: View, b: View, hk: uint64, r: Request, now: nat)
    requires QuietBut(a, b, hk) && CanSend(b, hk, now) && b.hosts[hk].back[0] in b.records
    requires b.hosts[hk].back[0].host == hk
    requires b.records[b.hosts[hk].back[0]].status != Trapped
    requires r.ip == b.hosts[hk].ip && r.key == if r.robots then URLKey(hk, robotsPath) else b.hosts[hk].back[0]
    requires r.robots ==> c.robotsOn
    requires !r.robots ==> b.hosts[hk].rules != RulesPending
    ensures SentOne(c, robotsPath, a, AfterSend(c, b, hk, now, !r.robots), r, now)
  {
    hide Polite, SendEvent, SpentIps, Eligible;
    var v := AfterSend(c, b, hk, now, !r.robots);
    EventPolite(c, b.hosts[hk], v.hosts[hk], hk, r, now);
    SpentMatches(c, b.hosts[hk], hk, b.ips, now);
    hide Spent;
    assert v.trace == a.trace + [SendEvent(c, b.hosts[hk], hk, now)];
  }

  // effectiveTarget.
  function EffectiveTarget(c: Config): nat {
    if c.minActive > c.target then c.minActive else c.target
  }

  lemma FrontHead(c: Config, v: View, front: multiset<URLKey>, k: URLKey)
    requires Inv(c, v, {}) && Holds(front, v.loc, AtFront) && k in front
    ensures k in v.loc && v.loc[k] == AtFront && k in v.records && k.host in v.hosts
  {
    assert front[k] == At(v.loc, AtFront, k);
  }

  // A URL leaves the front bank, for a back queue or for good.
  lemma LeftFront(rest: multiset<URLKey>, wheel: multiset<URLKey>, loc: map<URLKey, Place>, k: URLKey)
    requires Holds(rest + multiset{k}, loc, AtFront) && Holds(wheel, loc, AtWheel)
    ensures k in loc && loc[k] == AtFront
    ensures Holds(rest, loc - {k}, AtFront) && Holds(rest, loc[k := AtBack], AtFront)
    ensures Holds(wheel, loc - {k}, AtWheel) && Holds(wheel, loc[k := AtBack], AtWheel)
  {
    LeaveQueue(rest, loc, AtFront, k);
    OtherQueue(rest, loc - {k}, loc[k := AtBack], AtFront, k);
    OtherQueue(wheel, loc, loc - {k}, AtWheel, k);
    OtherQueue(wheel, loc, loc[k := AtBack], AtWheel, k);
  }

  lemma ExcludeQuiet(c: Config, v: View, k: URLKey)
    requires Inv(c, v, {}) && k in v.loc && v.loc[k] == AtFront
    requires k.host in v.hosts && v.hosts[k.host].rules == RulesReady
    ensures k in v.records
    ensures var v' := v.(records := v.records[k := v.records[k].(status := Excluded)], loc := v.loc - {k});
            Inv(c, v', {}) && Quiet(v, v')
  {
    hide Inv, Quiet;
    ExcludeFront(c, v, k);
    ExcludedTrapped(c, v, k);
  }

  lemma ExcludedTrapped(c: Config, v: View, k: URLKey)
    requires Inv(c, v, {}) && k in v.loc && v.loc[k] == AtFront && k in v.records
    ensures Quiet(v, v.(records := v.records[k := v.records[k].(status := Excluded)], loc := v.loc - {k}))
  {
    hide HostPart, TracePart, BacksOk, Flight, Counted;
    assert StatusOk(v.records[k].status, k, v.loc, c.wheelOn);
  }

  ghost function BoundView(v: View, k: URLKey): View
    requires k.host in v.hosts
  {
    var h := v.hosts[k.host];
    v.(hosts := v.hosts[k.host := Bound(h, k)], active := v.active + if h.active then 0 else 1, loc := v.loc[k := AtBack])
  }

  lemma BindQuiet(c: Config, v: View, k: URLKey)
    requires Inv(c, v, {}) && k in v.loc && v.loc[k] == AtFront
    ensures k.host in v.hosts
    ensures Inv(c, BoundView(v, k), if v.hosts[k.host].active then {} else {k.host}) && Quiet(v, BoundView(v, k))
    ensures !v.hosts[k.host].active ==> k.host !in v.spot && k.host !in v.stranded && !v.hosts[k.host].inFlight
  {
    hide Inv;
    Bind(c, v, k);
  }

  // Filing a host in a pool stirs nothing else.
  lemma PlacedQuiet(a: View, b: View, d: View, hk: uint64, now: nat)
    requires Quiet(a, b) && hk in b.hosts && a.spot == b.spot
    requires d == b.(spot := d.spot) && d.spot == b.spot[hk := SpotFor(b.hosts[hk], b.ips, now)]
    ensures Quiet(a, d)
    ensures NoneDue(a.spot, now) ==> NoneDue(d.spot, now)
  {
  }

  // A crawled URL whose hour has come is due for a recrawl; a deferred seed stays scheduled.
  function Refired(r: Record): Record {
    r.(status := if r.status == Crawled then DueRecrawl else r.status)
  }

  ghost function Fired(c: Config, v: View, k: URLKey): View
    requires k in v.records
  {
    v.(hosts := WithHost(v.hosts, k.host, FreshHost(c.pol, DEFAULT_FLOOR)),
       records := v.records[k := Refired(v.records[k])],
       loc := v.loc[k := AtFront])
  }

  lemma FiredKeeps(c: Config, v: View, k: URLKey)
    requires Inv(c, v, {}) && c.wheelOn && k in v.loc && v.loc[k] == AtWheel
    ensures k in v.records && Inv(c, Fired(c, v, k), {}) && Quiet(v, Fired(c, v, k))
  {
    hide Inv;
    AddHost(c, v, {}, k.host, DEFAULT_FLOOR);
    DueToFront(c, v.(hosts := WithHost(v.hosts, k.host, FreshHost(c.pol, DEFAULT_FLOOR))), {}, k);
  }

  // A URL leaves the wheel for the front bank.
  lemma FiredQueues(front: multiset<URLKey>, wheel: multiset<URLKey>, loc: map<URLKey, Place>, k: URLKey)
    requires Holds(front, loc, AtFront) && Holds(wheel, loc, AtWheel) && k in wheel
    ensures k in loc && loc[k] == AtWheel
    ensures Holds(front + multiset{k}, loc[k := AtFront], AtFront) && Holds(wheel - multiset{k}, loc[k := AtFront], AtWheel)
  {
    var rest := wheel - multiset{k};
    assert rest + multiset{k} == wheel;
    LeaveQueue(rest, loc, AtWheel, k);
    OtherQueue(front, loc, loc - {k}, AtFront, k);
    JoinQueue(front, loc - {k}, AtFront, k);
    OtherQueue(rest, loc - {k}, loc[k := AtFront], AtWheel, k);
    assert (loc - {k})[k := AtFront] == loc[k := AtFront];
  }

  lemma FiredNext(wheel: multiset<URLKey>, fired: seq<URLKey>, i: nat)
    requires multiset(fired) <= wheel && i < |fired|
    ensures fired[i] in wheel - multiset(fired[..i])
    ensures wheel - multiset(fired[..i]) - multiset{fired[i]} == wheel - multiset(fired[..i + 1])
  {
    assert fired == fired[..i] + [fired[i]] + fired[i + 1..];
    assert fired[..i + 1] == fired[..i] + [fired[i]];
  }

  lemma PlacedLater(was: map<uint64, Spot>, spot: map<uint64, Spot>, hk: uint64, now: nat)
    requires hk in was && was[hk].Parked? && was[hk].until <= now
    requires spot.Keys == was.Keys && forall x <- was :: x != hk ==> spot[x] == was[x]
    requires spot[hk] == InReady || (spot[hk].Parked? && spot[hk].until > now)
    ensures DueParked(spot, now) < DueParked(was, now)
  {
    assert hk in DueParked(was, now) && hk !in DueParked(spot, now);
  }

  lemma HeapNoneDue(ready: seq<Ring<nat>>, wait: seq<WaitItem>, spot: map<uint64, Spot>, now: nat)
    requires Pools(ready, wait, spot) && (wait == [] || wait[0].eligible > now)
    ensures NoneDue(spot, now)
  {
    hide BankItems, ValidBank;
    forall hk <- spot | spot[hk].Parked?
      ensures spot[hk].until > now
    {
      var it := WaitItem(hk, spot[hk].until);
      assert multiset(wait)[it] == 1;
      assert it in multiset(wait) && it in wait;
      MinHeap.RootMinAll(wait, Rank);
      assert Rank(wait[0]) <= Rank(it);
    }
  }

  // A URL without a record is in no queue.
  lemma UnknownNowhere(c: Config, v: View, but: set<uint64>, k: URLKey)
    requires Inv(c, v, but) && k !in v.records
    ensures k !in v.loc
  {
  }

  lemma NewPlace(q: multiset<URLKey>, loc: map<URLKey, Place>, p: Place, k: URLKey, place: Option<Place>)
    requires Holds(q, loc, p) && k !in loc
    ensures Holds(if place == Some(p) then q + multiset{k} else q, NewLoc(loc, k, place), p)
  {
    if place == Some(p) {
      JoinQueue(q, loc, p, k);
    } else {
      OtherQueue(q, loc, NewLoc(loc, k, place), p, k);
    }
  }

  lemma QuietRefl(v: View)
    ensures Quiet(v, v)
  {
  }

  lemma QuietTrans(a: View, b: View, d: View)
    requires Quiet(a, b) && Quiet(b, d)
    ensures Quiet(a, d)
  {
  }
}
