// Model of Checkpoint and Recover in frontier/frontier.go: the durable half of a frontier, and the
// scheduler rebuilt from it. The pools, the back queues, the per-IP table and the requests that
// were out are not durable.
//
// The run goes on across a restart: the old trace, with its open requests ended and its addresses
// forgotten, is the beginning of the new one, so the theorems about runs apply to both together.
module Restart {
  import opened Wrappers
  import opened Bytes
  import opened Keys
  import opened Sorting
  import opened Rings
  import opened FrontierState
  import opened FrontierSteps
  import opened Scheduler
  import opened FrontierRuns

  // ---- the partition ----

  datatype SavedUrl = SavedUrl(key: URLKey, record: Record, due: nat, firstSeen: nat)
  datatype SavedHost = SavedHost(key: uint64, hostNext: nat, ip: nat, ipExpiry: nat, crawlFloor: nat, rulesExpiry: nat)
  datatype Saved = Saved(urls: seq<SavedUrl>, hosts: seq<SavedHost>)

  // The columns of a URL record that the scheduler itself does not read.
  datatype Hours = Hours(due: URLKey -> nat, firstSeen: URLKey -> nat)

  predicate UrlOrder(a: SavedUrl, b: SavedUrl) {
    a.key.Less(b.key)
  }

  predicate HostOrder(a: SavedHost, b: SavedHost) {
    a.key < b.key
  }

  function SaveUrl(k: URLKey, r: Record, hours: Hours): SavedUrl {
    SavedUrl(k, r, hours.due(k), hours.firstSeen(k))
  }

  function SaveHost(hk: uint64, h: Host): SavedHost {
    SavedHost(hk, h.hostNext, h.ip, h.ipExpiry, h.crawlFloor, h.rulesExpiry)
  }

  // The partition has every record of the view once, and nothing else, in key order.
  ghost predicate Saves(p: Saved, v: View, hours: Hours) {
    && SavesUrls(p.urls, v.records, hours) && Sorted(p.urls, UrlOrder)
    && SavesHosts(p.hosts, v.hosts) && Sorted(p.hosts, HostOrder)
  }

  ghost predicate SavesUrls(urls: seq<SavedUrl>, records: map<URLKey, Record>, hours: Hours) {
    && Distinct(urls)
    && (forall u :: u in urls ==> u.key in records && u == SaveUrl(u.key, records[u.key], hours))
    && (forall k <- records :: SaveUrl(k, records[k], hours) in urls)
  }

  ghost predicate SavesHosts(saved: seq<SavedHost>, hosts: map<uint64, Host>) {
    && Distinct(saved)
    && (forall s :: s in saved ==> s.key in hosts && s == SaveHost(s.key, hosts[s.key]))
    && (forall hk <- hosts :: SaveHost(hk, hosts[hk]) in saved)
  }

  // ---- what comes back ----

  // A URL caught in flight is to be fetched again.
  function Reset(r: Record): Record {
    r.(status := if r.status == InFlight then Scheduled else r.status)
  }

  // Where a record goes: everything that wants a fetch to the front bank, and a crawled URL to the
  // wheel that will bring it back.
  function Refiled(r: Record, due: nat, wheelOn: bool): Option<Place> {
    match Reset(r).status
    case Scheduled => Some(AtFront)
    case DueRecrawl => Some(AtFront)
    case Crawled => if wheelOn && due > 0 then Some(AtWheel) else None
    case _ => None
  }

  function RestoredHost(pol: Policy, s: SavedHost): Host {
    Host([], false, false, s.hostNext, s.ip, s.ipExpiry, pol.baseline, s.crawlFloor, RulesNone, s.rulesExpiry, {})
  }

  // What the run so far still binds after a restart: the requests that were out are over, and with
  // the per-IP table gone no request counts against its address any more.
  ghost function Unresolved(trace: seq<Event>): (t: seq<Event>)
    ensures |t| == |trace|
    ensures forall i :: 0 <= i < |t| ==> t[i] == if trace[i].Sent? then trace[i].(ip := 0) else trace[i]
  {
    seq(|trace|, i requires 0 <= i < |trace| => if trace[i].Sent? then trace[i].(ip := 0) else trace[i])
  }

  // The response to a host's request will not come.
  ghost function Ended(hosts: map<uint64, Host>, hk: uint64): seq<Event> {
    if hk in hosts && hosts[hk].inFlight then [Done(hk)] else []
  }

  ghost function Landed(hosts: map<uint64, Host>, hk: uint64): map<uint64, Host> {
    if hk in hosts then hosts[hk := hosts[hk].(inFlight := false)] else hosts
  }

  ghost function AllLanded(hosts: map<uint64, Host>, order: seq<SavedHost>): map<uint64, Host> {
    if order == [] then hosts else Landed(AllLanded(hosts, order[..|order| - 1]), order[|order| - 1].key)
  }

  ghost function Interrupted(trace: seq<Event>, hosts: map<uint64, Host>, order: seq<SavedHost>): seq<Event> {
    if order == [] then Unresolved(trace)
    else Interrupted(trace, hosts, order[..|order| - 1]) + Ended(AllLanded(hosts, order[..|order| - 1]), order[|order| - 1].key)
  }

  lemma {:induction false} UnresolvedOpen(trace: seq<Event>, h: uint64)
    ensures Open(Unresolved(trace), h) == Open(trace, h)
  {
    if trace != [] {
      var n := |trace| - 1;
      UnresolvedOpen(trace[..n], h);
      assert Unresolved(trace)[..n] == Unresolved(trace[..n]);
    }
  }

  lemma UnresolvedPart(trace: seq<Event>, hosts: map<uint64, Host>, ips: map<nat, nat>)
    requires TracePart(trace, hosts, ips)
    ensures TracePart(Unresolved(trace), hosts, map[])
  {
    var t := Unresolved(trace);
    forall n, h: uint64 | 0 <= n <= |t|
      ensures 0 <= Open(t[..n], h) <= 1
    {
      assert t[..n] == Unresolved(trace[..n]);
      UnresolvedOpen(trace[..n], h);
    }
    forall h: uint64
      ensures Open(t, h) == if h in hosts && hosts[h].inFlight then 1 else 0
    {
      UnresolvedOpen(trace, h);
    }
    assert forall i, j :: 0 <= i < j < |t| && t[i].Sent? && t[j].Sent? ==> Apart(trace[i], trace[j]);
    assert forall i :: 0 <= i < |t| && t[i].Sent? ==> Covered(trace[i], hosts, ips);
  }

  lemma {:induction false} InterruptedPart(trace: seq<Event>, hosts: map<uint64, Host>, ips: map<nat, nat>, order: seq<SavedHost>)
    requires TracePart(trace, hosts, ips)
    ensures TracePart(Interrupted(trace, hosts, order), AllLanded(hosts, order), map[])
    decreases |order|
  {
    hide TracePart;
    if order == [] {
      UnresolvedPart(trace, hosts, ips);
    } else {
      var n := |order| - 1;
      InterruptedPart(trace, hosts, ips, order[..n]);
      LandOne(Interrupted(trace, hosts, order[..n]), AllLanded(hosts, order[..n]), order[n].key);
    }
  }

  lemma LandOne(t: seq<Event>, hosts: map<uint64, Host>, hk: uint64)
    requires TracePart(t, hosts, map[])
    ensures TracePart(t + Ended(hosts, hk), Landed(hosts, hk), map[])
  {
    hide Spaced, Windows, OneAtATime, OpenMatches;
    if hk in hosts && hosts[hk].inFlight {
      DoneKeeps(t, hosts, map[], hk);
      StepOpen(t, hosts, Done(hk), Landed(hosts, hk));
      KeepWindows(t + [Done(hk)], hosts, map[], Landed(hosts, hk));
    } else {
      assert Landed(hosts, hk) == hosts && t + Ended(hosts, hk) == t;
    }
  }

  lemma {:induction false} AllLandedAt(hosts: map<uint64, Host>, order: seq<SavedHost>, hk: uint64)
    requires hk in hosts
    ensures hk in AllLanded(hosts, order)
    ensures AllLanded(hosts, order)[hk] == hosts[hk].(inFlight := hosts[hk].inFlight && forall i :: 0 <= i < |order| ==> order[i].key != hk)
    decreases |order|
  {
    if order != [] {
      AllLandedAt(hosts, order[..|order| - 1], hk);
    }
  }

  lemma {:induction false} AllLandedKeys(hosts: map<uint64, Host>, order: seq<SavedHost>)
    ensures AllLanded(hosts, order).Keys == hosts.Keys
    decreases |order|
  {
    if order != [] {
      AllLandedKeys(hosts, order[..|order| - 1]);
    }
  }

  // The host entries that come back carry the windows of those that were saved.
  ghost predicate HostsBack(pol: Policy, p: Saved, hosts: map<uint64, Host>) {
    && (forall hk <- hosts :: Listed(p.hosts, hk))
    && (forall s :: s in p.hosts ==> s.key in hosts && hosts[s.key] == RestoredHost(pol, s))
  }

  ghost predicate Listed(order: seq<SavedHost>, hk: uint64) {
    exists i :: 0 <= i < |order| && order[i].key == hk
  }

  // Before any URL is back, the new frontier's state is a proper one, with the old run behind it.
  lemma HostsReturn(c: Config, v: View, p: Saved, hours: Hours, hosts: map<uint64, Host>)
    requires Inv(c, v, {}) && Saves(p, v, hours) && HostsBack(c.pol, p, hosts)
    ensures Inv(c, View(map[], hosts, map[], 0, map[], {}, map[], Interrupted(v.trace, v.hosts, p.hosts), multiset{}, 0), {})
  {
    hide HostPart, UrlPart, TracePart;
    var trace := Interrupted(v.trace, v.hosts, p.hosts);
    InterruptedPart(v.trace, v.hosts, v.ips, p.hosts);
    HostsMatch(c, v, p, hours, hosts);
    hide Saves, HostsBack, Interrupted, AllLanded, RestoredHost, SaveHost;
    RestedHosts(c.pol, v.hosts, hosts);
    KeepTrace(trace, AllLanded(v.hosts, p.hosts), map[], hosts);
    NoUrls(c, hosts);
    NoneActive(c, v, hosts);
  }

  lemma RestedHosts(pol: Policy, hosts: map<uint64, Host>, back: map<uint64, Host>)
    requires back.Keys == hosts.Keys && forall hk <- hosts :: back[hk] == RestoredHost(pol, SaveHost(hk, hosts[hk]))
    ensures forall hk <- back :: back[hk].back == [] && !back[hk].inFlight
  {
  }

  lemma HostsMatch(c: Config, v: View, p: Saved, hours: Hours, hosts: map<uint64, Host>)
    requires Saves(p, v, hours) && HostsBack(c.pol, p, hosts)
    ensures hosts.Keys == v.hosts.Keys && SameTraffic(AllLanded(v.hosts, p.hosts), hosts)
    ensures forall hk <- v.hosts :: hosts[hk] == RestoredHost(c.pol, SaveHost(hk, v.hosts[hk]))
  {
    hide AllLanded, Saves, HostsBack, RestoredHost, SaveHost;
    AllLandedKeys(v.hosts, p.hosts);
    forall hk <- v.hosts
      ensures hk in hosts && hosts[hk] == RestoredHost(c.pol, SaveHost(hk, v.hosts[hk]))
      ensures AllLanded(v.hosts, p.hosts)[hk].hostNext == hosts[hk].hostNext && !AllLanded(v.hosts, p.hosts)[hk].inFlight
    {
      HostMatches(c, v, p, hours, hosts, hk);
    }
    forall hk <- hosts
      ensures hk in v.hosts
    {
      HostKnown(c, v, p, hours, hosts, hk);
    }
    RestedHosts(c.pol, v.hosts, hosts);
  }

  lemma HostMatches(c: Config, v: View, p: Saved, hours: Hours, hosts: map<uint64, Host>, hk: uint64)
    requires Saves(p, v, hours) && HostsBack(c.pol, p, hosts) && hk in v.hosts
    ensures hk in hosts && hosts[hk] == RestoredHost(c.pol, SaveHost(hk, v.hosts[hk]))
    ensures hk in AllLanded(v.hosts, p.hosts)
    ensures AllLanded(v.hosts, p.hosts)[hk].hostNext == hosts[hk].hostNext && !AllLanded(v.hosts, p.hosts)[hk].inFlight
  {
    hide AllLanded, Sorted;
    AllLandedAt(v.hosts, p.hosts, hk);
    assert SaveHost(hk, v.hosts[hk]) in p.hosts;
    assert SaveHost(hk, v.hosts[hk]).key == hk;
  }

  lemma HostKnown(c: Config, v: View, p: Saved, hours: Hours, hosts: map<uint64, Host>, hk: uint64)
    requires Saves(p, v, hours) && HostsBack(c.pol, p, hosts) && hk in hosts
    ensures hk in v.hosts
  {
    assert Listed(p.hosts, hk);
    var i :| 0 <= i < |p.hosts| && p.hosts[i].key == hk;
    assert p.hosts[i] in p.hosts;
  }

  lemma NoUrls(c: Config, hosts: map<uint64, Host>)
    requires forall hk <- hosts :: hosts[hk].back == [] && !hosts[hk].inFlight
    ensures UrlPart(c, map[], hosts, map[], multiset{})
  {
    forall hk <- hosts
      ensures BackOk(hosts[hk].back, hk, map[])
    {
      assert multiset(hosts[hk].back) == multiset{};
    }
  }

  lemma NoneActive(c: Config, v: View, hosts: map<uint64, Host>)
    requires HostPart(c, v.hosts, v.active, v.spot, v.stranded, v.clock, {})
    requires hosts.Keys == v.hosts.Keys && forall hk <- v.hosts :: hosts[hk] == RestoredHost(c.pol, SaveHost(hk, v.hosts[hk]))
    ensures HostPart(c, hosts, 0, map[], {}, 0, {})
  {
    assert Actives(hosts) == {};
  }

  // ---- one URL back ----

  // The fetches of a URL that count after the restart: all but the one whose response will not come.
  ghost function Carried(was: View, k: URLKey): nat {
    if k in was.records && was.records[k].status == InFlight && was.sent[k] > 0 then was.sent[k] - 1 else was.sent[k]
  }

  lemma RestoreUrl(c: Config, v: View, k: URLKey, r: Record, place: Option<Place>, n: nat)
    requires Inv(c, v, {}) && k !in v.records && place != Some(AtBack) && (place == Some(AtFront) ==> k.host in v.hosts)
    requires r.status != InFlight && StatusOk(r.status, k, NewLoc(v.loc, k, place), c.wheelOn)
    requires RetryOk(r, c.stateOn) && (r.status == Excluded ==> c.robotsOn) && (!c.wheelOn ==> Tally(r, n, c.stateOn))
    ensures Inv(c, v.(records := v.records[k := r], loc := NewLoc(v.loc, k, place), sent := v.sent[k := n]), {})
  {
    assert k !in v.loc;
    hide HostPart, TracePart, Counted, StatusesOk, Flight, BacksOk;
    RestoreBacks(v, k, place);
    RestoreStatuses(c, v, k, r, place);
    AddToFlight(v, k, r);
    RestoreCounted(c, v, k, r, n);
  }

  lemma RestoreBacks(v: View, k: URLKey, place: Option<Place>)
    requires BacksOk(v.hosts, v.loc) && k !in v.loc && place != Some(AtBack) && (place == Some(AtFront) ==> k.host in v.hosts)
    ensures BacksOk(v.hosts, NewLoc(v.loc, k, place))
  {
    forall hk <- v.hosts
      ensures BackOk(v.hosts[hk].back, hk, NewLoc(v.loc, k, place))
    {
      SameBack(v.hosts[hk].back, hk, v.loc, NewLoc(v.loc, k, place), k);
    }
  }

  lemma RestoreStatuses(c: Config, v: View, k: URLKey, r: Record, place: Option<Place>)
    requires StatusesOk(v.records, v.loc, c.wheelOn) && k !in v.records && k !in v.loc
    requires StatusOk(r.status, k, NewLoc(v.loc, k, place), c.wheelOn)
    ensures StatusesOk(v.records[k := r], NewLoc(v.loc, k, place), c.wheelOn)
  {
  }

  lemma RestoreCounted(c: Config, v: View, k: URLKey, r: Record, n: nat)
    requires Counted(v.records, v.sent, c.stateOn, c.wheelOn, c.robotsOn) && k !in v.records
    requires r.status != InFlight && RetryOk(r, c.stateOn) && (r.status == Excluded ==> c.robotsOn)
    requires !c.wheelOn ==> Tally(r, n, c.stateOn)
    ensures Counted(v.records[k := r], v.sent[k := n], c.stateOn, c.wheelOn, c.robotsOn)
  {
  }

  // A record of a frontier with these options, due again if it has been crawled; n of its fetches
  // count.
  ghost predicate Fits(c: Config, u: SavedUrl, n: nat) {
    && RetryOk(u.record, c.stateOn) && (!c.wheelOn ==> Tally(Reset(u.record), n, c.stateOn))
    && (u.record.status == Excluded ==> c.robotsOn)
    && (u.record.status == DueRecrawl ==> c.wheelOn)
    && (u.record.status == Crawled && c.wheelOn ==> u.due > 0)
  }

  lemma SavedFits(c: Config, v: View, k: URLKey, hours: Hours)
    requires Inv(c, v, {}) && k in v.records
    requires v.records[k].status == Crawled ==> hours.due(k) > 0
    ensures Fits(c, SaveUrl(k, v.records[k], hours), Carried(v, k))
  {
    hide HostPart, TracePart, BacksOk, Flight, Parks;
    assert StatusOk(v.records[k].status, k, v.loc, c.wheelOn);
  }

  // The view once a saved URL is back.
  ghost function UrlBack(c: Config, v: View, u: SavedUrl, n: nat): View {
    var place := Refiled(u.record, u.due, c.wheelOn);
    v.(hosts := if place == Some(AtFront) then WithHost(v.hosts, u.key.host, FreshHost(c.pol, DEFAULT_FLOOR)) else v.hosts,
       records := v.records[u.key := Reset(u.record)],
       loc := NewLoc(v.loc, u.key, place),
       sent := v.sent[u.key := n])
  }

  lemma UrlReturns(c: Config, v: View, u: SavedUrl, n: nat)
    requires Inv(c, v, {}) && u.key !in v.records && Fits(c, u, n)
    ensures Inv(c, UrlBack(c, v, u, n), {}) && u.key !in v.loc
  {
    UnknownNowhere(c, v, {}, u.key);
    AddHost(c, v, {}, u.key.host, DEFAULT_FLOOR);
    PlaceFits(c, v, u, n);
    hide Inv, FreshHost, WithHost, NewLoc, Refiled, Tally, Fits;
    var place := Refiled(u.record, u.due, c.wheelOn);
    var hosts := if place == Some(AtFront) then WithHost(v.hosts, u.key.host, FreshHost(c.pol, DEFAULT_FLOOR)) else v.hosts;
    HostThere(v.hosts, u.key.host, FreshHost(c.pol, DEFAULT_FLOOR));
    assert v.(hosts := v.hosts) == v;
    RestoreUrl(c, v.(hosts := hosts), u.key, Reset(u.record), place, n);
  }

  lemma HostThere(hosts: map<uint64, Host>, hk: uint64, h: Host)
    ensures hk in WithHost(hosts, hk, h)
  {
  }

  lemma PlaceFits(c: Config, v: View, u: SavedUrl, n: nat)
    requires Fits(c, u, n) && u.key !in v.loc
    ensures var place := Refiled(u.record, u.due, c.wheelOn);
      && place != Some(AtBack) && StatusOk(Reset(u.record).status, u.key, NewLoc(v.loc, u.key, place), c.wheelOn)
      && (place == Some(AtWheel) ==> c.wheelOn)
      && RetryOk(Reset(u.record), c.stateOn) && (Reset(u.record).status == Excluded ==> c.robotsOn)
      && (!c.wheelOn ==> Tally(Reset(u.record), n, c.stateOn))
  {
    hide Tally;
  }

  method Refile(f: Frontier, u: SavedUrl, ghost n: nat)
    requires f.Valid() && u.key !in f.records && Fits(f.c, u, n)
    modifies f
    ensures f.Valid() && f.V() == UrlBack(f.c, old(f.V()), u, n)
  {
    hide Inv, Fits, Pools, Holds, FreshHost, WithHost, NewLoc, Refiled, Tally, Ring.Valid, Ring.Items, Ring.Push, Buckets;
    UrlReturns(f.c, f.V(), u, n);
    PlaceFits(f.c, f.V(), u, n);
    PutBack(f, u.key, Reset(u.record), Refiled(u.record, u.due, f.c.wheelOn), u.firstSeen);
    f.sent := f.sent[u.key := n];
    if Refiled(u.record, u.due, f.c.wheelOn) == Some(AtFront) {
      f.hosts := WithHost(f.hosts, u.key.host, FreshHost(f.c.pol, DEFAULT_FLOOR));
    }
  }

  method PutBack(f: Frontier, key: URLKey, r: Record, place: Option<Place>, enqueued: nat)
    requires f.Structs() && key !in f.records && key !in f.loc && place != Some(AtBack)
    requires place == Some(AtWheel) ==> f.c.wheelOn
    modifies f`records, f`seen, f`urlFront, f`frontAge, f`wheel, f`loc
    ensures f.Structs() && f.records == old(f.records)[key := r] && f.loc == NewLoc(old(f.loc), key, place)
  {
    hide Pools, Holds, NewLoc, Inv, Ring.Valid, Ring.Items, Buckets;
    f.File(key, r.level, place, enqueued);
    f.seen, f.records := f.seen + {key}, f.records[key := r];
  }

  // ---- Checkpoint ----

  lemma SavedOrders()
    ensures StrictWeak(UrlOrder) && StrictWeak(HostOrder)
  {
  }

  method SaveUrls(records: map<URLKey, Record>, hours: Hours) returns (urls: seq<SavedUrl>)
    ensures SavesUrls(urls, records, hours) && Sorted(urls, UrlOrder)
  {
    hide StrictWeak, Sorted;
    var all: seq<SavedUrl>, rest := [], records.Keys;
    while rest != {}
      invariant rest <= records.Keys && Distinct(all)
      invariant forall u :: u in all ==> u.key in records.Keys - rest && u == SaveUrl(u.key, records[u.key], hours)
      invariant forall k <- records.Keys - rest :: SaveUrl(k, records[k], hours) in all
      decreases |rest|
    {
      var k :| k in rest;
      all, rest := all + [SaveUrl(k, records[k], hours)], rest - {k};
    }
    SavedOrders();
    urls := SortBy(all, UrlOrder);
    PermutationMembers(urls, all);
    DistinctPermutation(urls, all);
  }

  method SaveHosts(hosts: map<uint64, Host>) returns (saved: seq<SavedHost>)
    ensures SavesHosts(saved, hosts) && Sorted(saved, HostOrder)
  {
    hide StrictWeak, Sorted;
    var all: seq<SavedHost>, rest := [], hosts.Keys;
    while rest != {}
      invariant rest <= hosts.Keys && Distinct(all)
      invariant forall s :: s in all ==> s.key in hosts.Keys - rest && s == SaveHost(s.key, hosts[s.key])
      invariant forall hk <- hosts.Keys - rest :: SaveHost(hk, hosts[hk]) in all
      decreases |rest|
    {
      var hk :| hk in rest;
      all, rest := all + [SaveHost(hk, hosts[hk])], rest - {hk};
    }
    SavedOrders();
    saved := SortBy(all, HostOrder);
    PermutationMembers(saved, all);
    DistinctPermutation(saved, all);
  }

  method Checkpoint(f: Frontier, hours: Hours) returns (p: Saved)
    ensures Saves(p, f.V(), hours)
  {
    hide SavesUrls, SavesHosts, Sorted;
    var urls := SaveUrls(f.records, hours);
    var hosts := SaveHosts(f.hosts);
    p := Saved(urls, hosts);
  }

  // ---- Recover ----

  // What a frontier knows once the first URLs are back: nothing is out, every record is as saved
  // and in its queue, every saved host has its window, and the fetches of was are carried over.
  ghost predicate BackSoFar(c: Config, p: Saved, n: nat, v: View, trace: seq<Event>, was: View)
    requires n <= |p.urls|
  {
    && (forall k <- v.records :: v.sent[k] == Carried(was, k))
    && v.trace == trace && v.spot == map[] && v.stranded == {} && v.ips == map[] && v.clock == 0
    && HostsSoFar(c, p.hosts, v.hosts) && UrlsSoFar(c, p.urls[..n], v)
  }

  ghost predicate HostsSoFar(c: Config, saved: seq<SavedHost>, hosts: map<uint64, Host>) {
    && (forall hk <- hosts :: !hosts[hk].inFlight && hosts[hk].rules == RulesNone)
    && (forall hk <- hosts :: Listed(saved, hk) || (hosts[hk].hostNext == 0 && hosts[hk].ip == 0))
    && (forall s :: s in saved ==> s.key in hosts && hosts[s.key] == RestoredHost(c.pol, s))
  }

  ghost predicate UrlsSoFar(c: Config, urls: seq<SavedUrl>, v: View) {
    && (forall k <- v.records :: exists u :: u in urls && u.key == k)
    && (forall u :: u in urls ==> BackAs(c, u, v.records, v.loc))
  }

  ghost predicate BackAs(c: Config, u: SavedUrl, records: map<URLKey, Record>, loc: map<URLKey, Place>) {
    && u.key in records && records[u.key] == Reset(u.record)
    && (match Refiled(u.record, u.due, c.wheelOn)
        case None => u.key !in loc
        case Some(place) => u.key in loc && loc[u.key] == place)
  }

  lemma NextBack(c: Config, p: Saved, n: nat, v: View, trace: seq<Event>, was: View)
    requires n < |p.urls| && BackSoFar(c, p, n, v, trace, was) && p.urls[n].key !in v.records && p.urls[n].key !in v.loc
    ensures BackSoFar(c, p, n + 1, UrlBack(c, v, p.urls[n], Carried(was, p.urls[n].key)), trace, was)
  {
    assert p.urls[..n + 1] == p.urls[..n] + [p.urls[n]];
    NextUrlBack(c, p.urls[..n], v, p.urls[n], Carried(was, p.urls[n].key));
    NextHosts(c, p.hosts, v, p.urls[n], Carried(was, p.urls[n].key));
    hide HostsSoFar, UrlsSoFar, Refiled, NewLoc, WithHost, Carried;
  }

  lemma NextHosts(c: Config, saved: seq<SavedHost>, v: View, u: SavedUrl, n: nat)
    requires HostsSoFar(c, saved, v.hosts)
    ensures HostsSoFar(c, saved, UrlBack(c, v, u, n).hosts)
  {
  }

  lemma NextUrlBack(c: Config, urls: seq<SavedUrl>, v: View, u: SavedUrl, n: nat)
    requires UrlsSoFar(c, urls, v) && u.key !in v.records && u.key !in v.loc
    ensures UrlsSoFar(c, urls + [u], UrlBack(c, v, u, n))
  {
    var w := UrlBack(c, v, u, n);
    assert forall x :: x in urls + [u] <==> x in urls || x == u;
    forall x | x in urls
      ensures BackAs(c, x, w.records, w.loc)
    {
      assert BackAs(c, x, v.records, v.loc) && x.key != u.key;
    }
    assert BackAs(c, u, w.records, w.loc);
    hide BackAs, Refiled, NewLoc;
    forall k <- w.records
      ensures exists x :: x in urls + [u] && x.key == k
    {
      if k != u.key {
        var x :| x in urls && x.key == k;
        assert x in urls + [u];
      } else {
        assert u in urls + [u];
      }
    }
  }

  lemma NoneBack(c: Config, p: Saved, hosts: map<uint64, Host>, trace: seq<Event>, was: View)
    requires HostsBack(c.pol, p, hosts)
    ensures BackSoFar(c, p, 0, View(map[], hosts, map[], 0, map[], {}, map[], trace, multiset{}, 0), trace, was)
  {
    assert p.urls[..0] == [];
    forall hk <- hosts
      ensures !hosts[hk].inFlight && hosts[hk].rules == RulesNone
    {
      assert Listed(p.hosts, hk);
      var i :| 0 <= i < |p.hosts| && p.hosts[i].key == hk;
      assert p.hosts[i] in p.hosts;
    }
  }

  // Saved URLs are distinct by key.
  lemma NotYetBack(c: Config, p: Saved, n: nat, v: View, trace: seq<Event>, was: View, hours: Hours)
    requires n < |p.urls| && BackSoFar(c, p, n, v, trace, was) && SavesUrls(p.urls, was.records, hours)
    ensures p.urls[n].key !in v.records
  {
    assert p.urls[n] in p.urls;
    forall u | u in p.urls[..n]
      ensures u.key != p.urls[n].key
    {
      var i :| 0 <= i < n && p.urls[..n][i] == u;
      assert p.urls[i] in p.urls;
    }
  }

  method RestoreHosts(pol: Policy, p: Saved) returns (hosts: map<uint64, Host>)
    requires forall i, j :: 0 <= i < j < |p.hosts| ==> p.hosts[i].key != p.hosts[j].key
    ensures HostsBack(pol, p, hosts)
  {
    hosts := map[];
    for i := 0 to |p.hosts|
      invariant forall hk <- hosts :: Listed(p.hosts[..i], hk)
      invariant forall j :: 0 <= j < i ==> p.hosts[j].key in hosts && hosts[p.hosts[j].key] == RestoredHost(pol, p.hosts[j])
    {
      hosts := hosts[p.hosts[i].key := RestoredHost(pol, p.hosts[i])];
      assert p.hosts[..i + 1] == p.hosts[..i] + [p.hosts[i]];
      ListedMore(p.hosts[..i], p.hosts[i]);
    }
    assert p.hosts[..|p.hosts|] == p.hosts;
  }

  lemma ListedMore(order: seq<SavedHost>, s: SavedHost)
    ensures forall hk :: Listed(order + [s], hk) <==> Listed(order, hk) || hk == s.key
  {
    forall hk
      ensures Listed(order + [s], hk) <==> Listed(order, hk) || hk == s.key
    {
      if Listed(order, hk) {
        var i :| 0 <= i < |order| && order[i].key == hk;
        assert (order + [s])[i].key == hk;
      }
      assert (order + [s])[|order|].key == s.key;
    }
  }

  lemma HostKeysDiffer(saved: seq<SavedHost>, hosts: map<uint64, Host>)
    requires SavesHosts(saved, hosts)
    ensures forall i, j :: 0 <= i < j < |saved| ==> saved[i].key != saved[j].key
  {
    forall i, j | 0 <= i < j < |saved|
      ensures saved[i].key != saved[j].key
    {
      assert saved[i] in saved && saved[j] in saved;
    }
  }

  // Recover: was is the view of the frontier that was checkpointed.
  method Recover(c: Config, shards: nat, robotsPath: uint64, p: Saved, ghost was: View, ghost hours: Hours) returns (f: Frontier)
    requires Inv(c, was, {}) && Saves(p, was, hours)
    requires forall k <- was.records :: was.records[k].status == Crawled ==> hours.due(k) > 0
    ensures fresh(f) && f.c == c && f.robotsPath == robotsPath && f.Valid()
    ensures BackSoFar(c, p, |p.urls|, f.V(), Interrupted(was.trace, was.hosts, p.hosts), was)
  {
    hide Inv, SavesUrls, SavesHosts, Sorted, Pools, Holds, Ring.Valid, Ring.Items, HostsBack, BackSoFar, Fits, UrlBack, Carried;
    ghost var trace := Interrupted(was.trace, was.hosts, p.hosts);
    HostKeysDiffer(p.hosts, was.hosts);
    f := new Frontier(c, shards, robotsPath);
    var hosts := RestoreHosts(c.pol, p);
    HostsReturn(c, was, p, hours, hosts);
    NoneBack(c, p, hosts, trace, was);
    f.hosts := hosts;
    f.trace := trace;
    for i := 0 to |p.urls|
      invariant fresh(f) && f.c == c && f.robotsPath == robotsPath && f.Valid()
      invariant BackSoFar(c, p, i, f.V(), trace, was)
    {
      NextSaved(c, p, i, f.V(), trace, was, hours);
      Refile(f, p.urls[i], Carried(was, p.urls[i].key));
    }
  }

  lemma NextSaved(c: Config, p: Saved, n: nat, v: View, trace: seq<Event>, was: View, hours: Hours)
    requires n < |p.urls| && BackSoFar(c, p, n, v, trace, was) && Inv(c, v, {}) && Inv(c, was, {}) && Saves(p, was, hours)
    requires forall k <- was.records :: was.records[k].status == Crawled ==> hours.due(k) > 0
    ensures p.urls[n].key !in v.records && Fits(c, p.urls[n], Carried(was, p.urls[n].key))
    ensures BackSoFar(c, p, n + 1, UrlBack(c, v, p.urls[n], Carried(was, p.urls[n].key)), trace, was)
  {
    hide Inv, SavesUrls, SavesHosts, Sorted, BackSoFar, Fits, UrlBack, Carried;
    NotYetBack(c, p, n, v, trace, was, hours);
    UnknownNowhere(c, v, {}, p.urls[n].key);
    SavedUrlFits(c, was, p.urls, n, hours);
    NextBack(c, p, n, v, trace, was);
  }

  lemma SavedUrlFits(c: Config, was: View, urls: seq<SavedUrl>, i: nat, hours: Hours)
    requires Inv(c, was, {}) && SavesUrls(urls, was.records, hours) && i < |urls|
    requires forall k <- was.records :: was.records[k].status == Crawled ==> hours.due(k) > 0
    ensures Fits(c, urls[i], Carried(was, urls[i].key))
  {
    hide Inv, Fits, Carried;
    assert urls[i] in urls;
    SavedFits(c, was, urls[i].key, hours);
  }

  // ---- a restart in the middle of a run ----

  // Nothing is lost: the records are the same, a URL that was out is to be fetched again, every URL
  // that wants a fetch is in the front bank, every host keeps its window and every URL its count of
  // fetches, less the one that was out. A host that was not known has no window and no address.
  ghost predicate SameWork(c: Config, v: View, w: View) {
    && w.records.Keys == v.records.Keys && v.hosts.Keys <= w.hosts.Keys
    && (forall k <- v.records :: w.records[k] == Reset(v.records[k]))
    && (forall k <- v.records :: v.records[k].status in {Scheduled, InFlight, DueRecrawl} ==> k in w.loc && w.loc[k] == AtFront)
    && (forall hk <- v.hosts :: w.hosts[hk].hostNext == v.hosts[hk].hostNext && w.hosts[hk].crawlFloor == v.hosts[hk].crawlFloor)
    && (forall hk <- w.hosts :: !w.hosts[hk].inFlight && w.hosts[hk].rules == RulesNone) && w.stranded == {}
    && (forall hk <- w.hosts :: hk in v.hosts || (w.hosts[hk].hostNext == 0 && w.hosts[hk].ip == 0))
    && (forall k <- v.records :: w.sent[k] == Carried(v, k))
  }

  lemma AllBack(c: Config, v: View, p: Saved, hours: Hours, w: View, trace: seq<Event>)
    requires Saves(p, v, hours) && BackSoFar(c, p, |p.urls|, w, trace, v)
    ensures SameWork(c, v, w)
  {
    hide Sorted, Carried, Refiled;
    assert p.urls[..|p.urls|] == p.urls;
    UrlsBack(c, v, p, hours, w);
    HostsBackToo(c, v, p, hours, w);
    hide UrlsSoFar, HostsSoFar, Saves;
  }

  lemma UrlsBack(c: Config, v: View, p: Saved, hours: Hours, w: View)
    requires SavesUrls(p.urls, v.records, hours) && UrlsSoFar(c, p.urls, w)
    ensures w.records.Keys == v.records.Keys
    ensures forall k <- v.records :: w.records[k] == Reset(v.records[k])
    ensures forall k <- v.records :: v.records[k].status in {Scheduled, InFlight, DueRecrawl} ==> k in w.loc && w.loc[k] == AtFront
  {
    forall k <- v.records
      ensures k in w.records && w.records[k] == Reset(v.records[k])
      ensures v.records[k].status in {Scheduled, InFlight, DueRecrawl} ==> k in w.loc && w.loc[k] == AtFront
    {
      var u := SaveUrl(k, v.records[k], hours);
      assert u in p.urls;
      assert BackAs(c, u, w.records, w.loc);
    }
    forall k <- w.records
      ensures k in v.records
    {
      var u :| u in p.urls && u.key == k;
    }
  }

  lemma HostsBackToo(c: Config, v: View, p: Saved, hours: Hours, w: View)
    requires SavesHosts(p.hosts, v.hosts) && HostsSoFar(c, p.hosts, w.hosts)
    ensures v.hosts.Keys <= w.hosts.Keys
    ensures forall hk <- v.hosts :: w.hosts[hk].hostNext == v.hosts[hk].hostNext && w.hosts[hk].crawlFloor == v.hosts[hk].crawlFloor
    ensures forall hk <- w.hosts :: !w.hosts[hk].inFlight && w.hosts[hk].rules == RulesNone
    ensures forall hk <- w.hosts :: hk in v.hosts || (w.hosts[hk].hostNext == 0 && w.hosts[hk].ip == 0)
  {
    forall hk <- w.hosts | Listed(p.hosts, hk)
      ensures hk in v.hosts
    {
      var i :| 0 <= i < |p.hosts| && p.hosts[i].key == hk;
      assert p.hosts[i] in p.hosts;
    }
    forall hk <- v.hosts
      ensures hk in w.hosts && w.hosts[hk] == RestoredHost(c.pol, SaveHost(hk, v.hosts[hk]))
    {
      assert SaveHost(hk, v.hosts[hk]) in p.hosts;
    }
  }

  // The run before the restart, without addresses, begins the new one.
  lemma {:induction false} Continues(trace: seq<Event>, hosts: map<uint64, Host>, order: seq<SavedHost>)
    ensures Unresolved(trace) <= Interrupted(trace, hosts, order)
    ensures forall i :: |trace| <= i < |Interrupted(trace, hosts, order)| ==> Interrupted(trace, hosts, order)[i].Done?
    decreases |order|
  {
    if order != [] {
      Continues(trace, hosts, order[..|order| - 1]);
    }
  }

  lemma StillPolite(pol: Policy, trace: seq<Event>, longer: seq<Event>)
    requires AllPolite(pol, trace) && Unresolved(trace) <= longer
    requires forall i :: |trace| <= i < |longer| ==> longer[i].Done?
    ensures AllPolite(pol, longer)
  {
    forall i | 0 <= i < |longer| && longer[i].Sent?
      ensures longer[i].step >= Secs(pol.floor)
      ensures longer[i].ipStep >= longer[i].step && longer[i].ipStep >= Secs(pol.ipFloor)
    {
      assert longer[i] == Unresolved(trace)[i];
    }
  }

  method Reopen(f: Frontier, shards: nat, hours: Hours) returns (g: Frontier)
    requires f.Valid() && AllPolite(f.c.pol, f.trace)
    requires forall k <- f.records :: f.records[k].status == Crawled ==> hours.due(k) > 0
    ensures fresh(g) && g.c == f.c && g.Valid() && g.clock == 0 && g.ips == map[] && SameWork(f.c, f.V(), g.V())
    ensures Unresolved(f.trace) <= g.trace && AllPolite(g.c.pol, g.trace)
    ensures forall i :: |f.trace| <= i < |g.trace| ==> g.trace[i].Done?
  {
    hide Inv, Pools, Holds, Ring.Valid, Ring.Items, Saves, BackSoFar, SameWork, Interrupted, AllPolite;
    var p := Checkpoint(f, hours);
    g := Recover(f.c, shards, f.robotsPath, p, f.V(), hours);
    ghost var trace := Interrupted(f.trace, f.hosts, p.hosts);
    AllBack(f.c, f.V(), p, hours, g.V(), trace);
    Recovered(f.c, p, g.V(), trace, f.V());
    Continues(f.trace, f.hosts, p.hosts);
    StillPolite(f.c.pol, f.trace, trace);
  }

  lemma Recovered(c: Config, p: Saved, w: View, trace: seq<Event>, was: View)
    requires BackSoFar(c, p, |p.urls|, w, trace, was)
    ensures w.trace == trace && w.clock == 0 && w.ips == map[]
  {
  }

  // A request after the restart keeps its distance from every request to its host before it.
  ghost predicate ApartAcross(before: seq<Event>, after: seq<Event>) {
    forall a, b :: a in before && b in after && a.Sent? && b.Sent? && a.host == b.host ==> a.at + a.step <= b.at
  }

  lemma AcrossRestart(before: seq<Event>, whole: seq<Event>)
    requires Spaced(whole) && Unresolved(before) <= whole
    ensures ApartAcross(before, whole[|before|..])
  {
    forall a, b | a in before && b in whole[|before|..] && a.Sent? && b.Sent? && a.host == b.host
      ensures a.at + a.step <= b.at
    {
      var i :| 0 <= i < |before| && before[i] == a;
      var j :| 0 <= j < |whole| - |before| && whole[|before|..][j] == b;
      assert whole[i] == Unresolved(before)[i] && whole[|before| + j] == b;
      assert Apart(whole[i], whole[|before| + j]);
    }
  }

  // The whole run with its addresses: the first session as it went, and what the second one added.
  ghost function Rejoined(before: seq<Event>, after: seq<Event>): seq<Event>
    requires |before| <= |after|
  {
    before + after[|before|..]
  }

  // From its n-th event on, the run sends nothing to an address inside the window that lost has for it.
  ghost predicate Awaits(trace: seq<Event>, n: nat, lost: map<nat, nat>) {
    forall i :: n <= i < |trace| && trace[i].Sent? && trace[i].ip in lost ==> lost[trace[i].ip] <= trace[i].at
  }

  // Across a restart, which loses the per-address windows, spacing holds exactly when the second
  // session happens to wait for each of them.
  lemma RejoinedIff(before: seq<Event>, after: seq<Event>, hosts: map<uint64, Host>, lost: map<nat, nat>)
    requires Spaced(before) && Windows(before, hosts, lost) && Realized(before, lost)
    requires Spaced(after) && Unresolved(before) <= after
    ensures Spaced(Rejoined(before, after)) <==> Awaits(after, |before|, lost)
  {
    var n, whole := |before|, Rejoined(before, after);
    assert forall i :: n <= i < |after| ==> whole[i] == after[i];
    assert forall i :: 0 <= i < n ==> whole[i] == before[i];
    if Spaced(whole) {
      forall i | n <= i < |after| && after[i].Sent? && after[i].ip in lost
        ensures lost[after[i].ip] <= after[i].at
      {
        assert Closed(before, after[i].ip, lost[after[i].ip]);
        var j :| 0 <= j < n && before[j].Sent? && before[j].ip == after[i].ip && before[j].at + before[j].ipStep == lost[after[i].ip];
        assert Apart(whole[j], whole[i]);
      }
    }
    if Awaits(after, n, lost) {
      forall i, j | 0 <= i < j < |whole| && whole[i].Sent? && whole[j].Sent?
        ensures Apart(whole[i], whole[j])
      {
        RejoinedApart(before, after, hosts, lost, i, j);
      }
    }
  }

  lemma RejoinedApart(before: seq<Event>, after: seq<Event>, hosts: map<uint64, Host>, lost: map<nat, nat>, i: nat, j: nat)
    requires Spaced(before) && Windows(before, hosts, lost)
    requires Spaced(after) && Unresolved(before) <= after && Awaits(after, |before|, lost)
    requires i < j < |after| && Rejoined(before, after)[i].Sent? && Rejoined(before, after)[j].Sent?
    ensures Apart(Rejoined(before, after)[i], Rejoined(before, after)[j])
  {
    if j < |before| {
      assert Apart(before[i], before[j]);
    } else if i < |before| {
      assert after[i] == Unresolved(before)[i] && Covered(before[i], hosts, lost);
      assert Apart(after[i], after[j]);
    } else {
      assert Apart(after[i], after[j]);
    }
  }

  // A second session that starts once every lost window has passed waits for them all.
  lemma LateEnough(after: seq<Event>, n: nat, start: nat, lost: map<nat, nat>)
    requires NotBefore(after, n, start) && forall ip <- lost :: lost[ip] <= start
    ensures Awaits(after, n, lost)
  {
  }

  lemma QuietUntil(trace: seq<Event>, n: nat, m: nat, start: nat)
    requires n <= m <= |trace| && NotBefore(trace, m, start) && forall i :: n <= i < m ==> trace[i].Done?
    ensures NotBefore(trace, n, start)
  {
  }

  // A run, a restart with any number of shards, and another run: each is safe, the second keeps
  // every host's spacing against the first, and every address's exactly when it sends nothing inside
  // a window of the table that was lost. It does so if it starts after all of them. That the table holds
  // nothing but what requests spent is so of a new frontier, and both runs keep it.
  method RunReopenRun(f: Frontier, start: nat, cmds: seq<Command>, shards: nat, hours: Hours, again: nat, more: seq<Command>)
    returns (g: Frontier, first: seq<Reply>, second: seq<Reply>, ghost m: nat)
    requires f.Valid() && f.clock <= start && AllPolite(f.c.pol, f.trace) && Realized(f.trace, f.ips)
    requires forall k :: hours.due(k) > 0
    modifies f
    ensures fresh(g) && g.Valid() && f.Valid() && old(f.trace) <= f.trace
    ensures |first| <= |cmds| && Explains(f.trace[|old(f.trace)|..], cmds[..|first|], first)
    ensures |f.trace| <= m <= |g.trace| && (forall i :: |f.trace| <= i < m ==> g.trace[i].Done?)
    ensures |second| <= |more| && Explains(g.trace[m..], more[..|second|], second)
    ensures Spaced(f.trace) && OneAtATime(f.trace) && AllPolite(f.c.pol, f.trace)
    ensures Unresolved(f.trace) <= g.trace && Spaced(g.trace) && OneAtATime(g.trace) && AllPolite(g.c.pol, g.trace)
    ensures ApartAcross(f.trace, g.trace[|f.trace|..])
    ensures Spaced(Rejoined(f.trace, g.trace)) <==> Awaits(g.trace, |f.trace|, f.ips)
    ensures (forall ip <- f.ips :: f.ips[ip] <= again) ==> Awaits(g.trace, |f.trace|, f.ips)
    ensures Realized(f.trace, f.ips) && Realized(g.trace, g.ips)
  {
    hide Inv, Pools, Holds, Ring.Valid, Ring.Items, SameWork, AllPolite, Spaced, OneAtATime, ApartAcross, Awaits, Realized, NotBefore, Rejoined;
    first := Run(f, start, cmds);
    ghost var before := f.trace;
    g := Reopen(f, shards, hours);
    NoneLost(g.trace);
    m := |g.trace|;
    ghost var reopened := g.trace;
    second := Run(g, again, more);
    AcrossRestart(before, g.trace);
    TracesMatch(f.c, f.V());
    RejoinedIff(before, g.trace, f.hosts, f.ips);
    assert forall i :: |before| <= i < m ==> g.trace[i] == reopened[i];
    QuietUntil(g.trace, |before|, m, again);
    if forall ip <- f.ips :: f.ips[ip] <= again {
      LateEnough(g.trace, |before|, again, f.ips);
    }
  }

  lemma NoneLost(trace: seq<Event>)
    ensures Realized(trace, map[])
  {
  }

  lemma TracesMatch(c: Config, v: View)
    requires Inv(c, v, {})
    ensures Spaced(v.trace) && Windows(v.trace, v.hosts, v.ips)
  {
  }

  // With robots, the resolver and the wheel off: checkpoint at any point, recover, drain, and every
  // URL known before the restart has ended Crawled or Gone, save the trapped ones. What the two
  // sessions sent together is what counts, and once more for a URL whose response was lost.
  method ReopenAndDrain(f: Frontier, shards: nat, hours: Hours, start: nat, fetch: (nat, Request) -> Option<Outcome>)
    returns (g: Frontier, out: seq<Dispatched>, ok: bool)
    requires f.Valid() && AllPolite(f.c.pol, f.trace) && forall k :: hours.due(k) > 0
    requires !f.c.robotsOn && !f.c.resolverOn && !f.c.wheelOn && EffectiveTarget(f.c) >= 1
    requires forall n, r :: fetch(n, r).Some? ==> fetch(n, r).value.key == r.key && fetch(n, r).value.target.None?
    ensures fresh(g) && g.Valid() && g.records.Keys == f.records.Keys
    ensures ok ==> Finished(g.c, g.V())
    ensures ok ==> forall k <- f.records ::
      f.sent[k] + multiset(KeysOf(out))[k] == g.sent[k] + if f.records[k].status == InFlight then 1 else 0
  {
    hide Inv, Pools, Holds, Ring.Valid, Ring.Items, AllPolite, Finished, KeysOf;
    g := Reopen(f, shards, hours);
    assert g.Idle();
    CarriedOver(f.c, f.V());
    hide Carried;
    out, ok := g.Drain(start, fetch);
  }

  lemma CarriedOver(c: Config, v: View)
    requires Inv(c, v, {}) && !c.wheelOn
    ensures forall k <- v.records :: v.sent[k] == Carried(v, k) + if v.records[k].status == InFlight then 1 else 0
  {
    hide HostPart, TracePart, BacksOk, StatusesOk, Flight, Parks;
    assert forall k <- v.records :: Tally(v.records[k], v.sent[k], c.stateOn);
  }
}
