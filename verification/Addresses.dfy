// What losing the per-address windows costs: while one of them is open, a restart lets a host nobody
// has heard of send to that address at once.
module Addresses {
  import opened Wrappers
  import opened Bytes
  import opened Keys
  import opened Rings
  import opened FrontierState
  import opened FrontierSteps
  import opened Scheduler
  import opened FrontierRuns
  import opened Restart

  // No URL of this host is known, and nothing binds it.
  ghost predicate Unheard(v: View, hk: uint64) {
    && hk !in HostsOf(v.records.Keys)
    && (hk in v.hosts ==> v.hosts[hk].hostNext == 0 && v.hosts[hk].ip == 0 && !v.hosts[hk].inFlight && v.hosts[hk].rules == RulesNone)
  }

  // k, its host's one URL, waits with every window open, and nothing has gone to the address.
  ghost predicate Waiting(v: View, k: URLKey, ip: nat) {
    && k in v.records && (forall x <- v.records :: x.host == k.host ==> x == k)
    && k in v.loc && v.loc[k] != AtWheel && k.host in v.hosts
    && !v.hosts[k.host].inFlight && v.hosts[k.host].rules != RulesReady
    && v.hosts[k.host].hostNext == 0 && (v.hosts[k.host].ip == 0 || v.hosts[k.host].ip == ip)
    && ip !in v.ips && v.stranded == {}
  }

  lemma SeededWaits(c: Config, v: View, k: URLKey, level: Level, crawlFloor: nat, ip: nat)
    requires Unheard(v, k.host) && ip !in v.ips && v.stranded == {}
    ensures k !in v.records && Waiting(Added(c, v, k, level, Some(AtFront), crawlFloor), k, ip)
    ensures Added(c, v, k, level, Some(AtFront), crawlFloor).records.Keys == v.records.Keys + {k}
  {
    assert forall x <- v.records :: x.host in HostsOf(v.records.Keys);
  }

  // ---- the waiting URL's host is never held up ----

  lemma ActiveHasWork(c: Config, v: View, hk: uint64)
    requires Inv(c, v, {}) && v.stranded == {} && hk in v.hosts && v.hosts[hk].active
    ensures v.hosts[hk].back != []
    ensures exists x :: x in v.records && x.host == hk && x in v.loc && v.loc[x] == AtBack
  {
    assert HostOk(v.hosts[hk], hk in v.spot, false, c.robotsOn) && Settled(v.hosts[hk], hk in v.spot, false);
    hide HostPart, TracePart, Parks, Counted, Flight;
    InBack(v, hk, v.hosts[hk].back[0]);
  }

  // With k still in the front bank its host is not active, so no more hosts are than the others.
  lemma FewActive(c: Config, v: View, k: URLKey, ip: nat)
    requires Inv(c, v, {}) && Waiting(v, k, ip) && v.loc[k] == AtFront
    ensures v.active <= |HostsOf(v.records.Keys) - {k.host}|
  {
    hide UrlPart, TracePart, Parks;
    var hs := HostsOf(v.records.Keys) - {k.host};
    forall hk <- Actives(v.hosts)
      ensures hk in hs
    {
      hide Inv;
      ActiveHasWork(c, v, hk);
    }
    SubsetSize(Actives(v.hosts), hs);
  }

  lemma {:induction false} SubsetSize(a: set<uint64>, b: set<uint64>)
    requires a <= b
    ensures |a| <= |b|
    decreases a
  {
    if a != {} {
      var x :| x in a;
      SubsetSize(a - {x}, b - {x});
    }
  }

  // With k in its back queue the host is pooled, and its window is open.
  lemma OpenHost(c: Config, v: View, k: URLKey, ip: nat, now: nat)
    requires Inv(c, v, {}) && Waiting(v, k, ip) && v.loc[k] == AtBack
    ensures !AllParked(v.spot, now)
  {
    BackNotEmpty(c, v, k);
    var h := v.hosts[k.host];
    assert HostOk(h, k.host in v.spot, false, c.robotsOn) && Settled(h, k.host in v.spot, false);
    hide HostPart, UrlPart, TracePart;
    assert k.host in v.spot;
    assert v.spot[k.host].Parked? ==> v.spot[k.host].until == 0;
  }

  lemma BackNotEmpty(c: Config, v: View, k: URLKey)
    requires UrlPart(c, v.records, v.hosts, v.loc, v.sent) && k in v.loc && v.loc[k] == AtBack && k.host in v.hosts
    ensures v.hosts[k.host].back != []
  {
    hide StatusesOk, Flight, Counted;
    if v.hosts[k.host].back == [] {
      EmptyBack(v.hosts[k.host].back, v.loc, k);
    }
  }

  lemma MustSend(f: Frontier, k: URLKey, ip: nat, now: nat)
    requires f.Valid() && Waiting(f.V(), k, ip) && EffectiveTarget(f.c) > |HostsOf(f.records.Keys) - {k.host}|
    ensures !f.Blocked(now)
  {
    hide Inv, Pools, HostsOf, AllParked, Ring.Valid, Ring.Items, Buckets;
    if f.loc[k] == AtFront {
      assert f.urlFront.Items()[k] == 1;
      FewActive(f.c, f.V(), k, ip);
    } else {
      OpenHost(f.c, f.V(), k, ip, now);
    }
  }

  // ---- one call of Dispatch ----

  ghost function Flying(v: View): set<uint64> {
    set hk | hk in v.hosts && v.hosts[hk].inFlight
  }

  lemma QuietWaits(a: View, v: View, k: URLKey, ip: nat, lookup: uint64 -> Option<nat>)
    requires Waiting(a, k, ip) && Quiet(a, v) && Addressed(a, v, lookup) && lookup(k.host) == Some(ip)
    ensures Waiting(v, k, ip)
  {
  }

  lemma SentWaits(c: Config, robotsPath: uint64, a: View, v: View, k: URLKey, ip: nat, lookup: uint64 -> Option<nat>,
                  r: Request, now: nat)
    requires Waiting(a, k, ip) && SentOne(c, robotsPath, a, v, r, now) && Addressed(a, v, lookup) && lookup(k.host) == Some(ip)
    requires r.ip != ip && (r.key.host == k.host ==> r.ip != 0)
    ensures Waiting(v, k, ip)
  {
    assert r.ip == v.hosts[r.key.host].ip;
    assert r.key.host != k.host;
  }

  // One more host has a request out, and it is one whose URLs are known.
  lemma OneMoreOut(c: Config, robotsPath: uint64, a: View, v: View, r: Request, now: nat)
    requires SentOne(c, robotsPath, a, v, r, now) && Inv(c, v, {})
    ensures v.records.Keys == a.records.Keys
    ensures HostsOf(v.records.Keys) - Flying(v) < HostsOf(a.records.Keys) - Flying(a)
  {
    hide Inv, Polite, HostsOf, Flying;
    NowFlying(c, robotsPath, a, v, r, now);
    OutIsKnown(c, v, r.key.host);
    hide SentOne;
    assert r.key.host in HostsOf(a.records.Keys) - Flying(a);
  }

  lemma NowFlying(c: Config, robotsPath: uint64, a: View, v: View, r: Request, now: nat)
    requires SentOne(c, robotsPath, a, v, r, now)
    ensures v.records.Keys == a.records.Keys
    ensures Flying(v) == Flying(a) + {r.key.host} && r.key.host !in Flying(a)
    ensures r.key.host in v.hosts && v.hosts[r.key.host].inFlight
  {
    hide Polite;
    forall x
      ensures x in Flying(v) <==> x == r.key.host || x in Flying(a)
    {
      assert x in Flying(a) <==> Out(a, x);
    }
  }

  lemma OutIsKnown(c: Config, v: View, hk: uint64)
    requires Inv(c, v, {}) && hk in v.hosts && v.hosts[hk].inFlight
    ensures hk in HostsOf(v.records.Keys)
  {
    assert HostOk(v.hosts[hk], hk in v.spot, hk in v.stranded, c.robotsOn);
    hide HostPart, TracePart, Parks, Counted, Flight;
    InBack(v, hk, v.hosts[hk].back[0]);
  }

  // Since its n-th event the run has sent to ip, now, and closed its window.
  ghost predicate Reached(trace: seq<Event>, n: nat, ip: nat, now: nat) {
    exists i :: n <= i < |trace| && trace[i].Sent? && trace[i].ip == ip && trace[i].at == now
  }

  lemma SentReaches(c: Config, robotsPath: uint64, a: View, v: View, r: Request, n: nat, now: nat)
    requires SentOne(c, robotsPath, a, v, r, now) && n <= |a.trace| && r.ip != 0
    ensures Reached(v.trace, n, r.ip, now) && r.ip in v.ips && now < v.ips[r.ip]
  {
    var e :| v.trace == a.trace + [e] && Polite(c, e, v.hosts[r.key.host], r, now) && v.ips == Spent(a.ips, e);
    assert v.trace[|a.trace|] == e;
  }

  // A seed on a host nobody has heard of, with a slot for it, and the resolver placing every host at
  // ip: within one request to every other host, one goes to ip, all at the same instant.
  method Reach(f: Frontier, k: URLKey, ip: nat, now: nat)
    requires f.Valid() && f.c.resolverOn && f.clock <= now && AllPolite(f.c.pol, f.trace)
    requires Unheard(f.V(), k.host) && ip != 0 && ip !in f.ips && f.stranded == {}
    requires EffectiveTarget(f.c) > |HostsOf(f.records.Keys)|
    modifies f
    ensures f.Valid() && Onward(old(f.V()), f.V(), now) && AllPolite(f.c.pol, f.trace)
    ensures Reached(f.trace, |old(f.trace)|, ip, now) && ip in f.ips && now < f.ips[ip]
    ensures f.records.Keys == old(f.records.Keys) + {k}
    ensures f.hosts.Keys <= old(f.hosts.Keys) + HostsOf(old(f.records.Keys)) + {k.host}
  {
    hide Inv, Pools, Holds, Quiet, SentOne, Addressed, Onward, AllPolite, Waiting, Unheard, HostsOf, Flying, Frontier.FrontBlocked, Reached, Ring.Valid, Ring.Items, Buckets;
    SeededWaits(f.c, f.V(), k, 0, DEFAULT_FLOOR, ip);
    OneHostMore(f.V(), k);
    f.Seed(k, 0, 0, 0, DEFAULT_FLOOR);
    OnwardQuiet(old(f.V()), f.V(), now);
    var sent := false;
    while !sent
      invariant f.Valid() && f.clock <= now && AllPolite(f.c.pol, f.trace) && Onward(old(f.V()), f.V(), now)
      invariant |HostsOf(f.records.Keys) - {k.host}| < EffectiveTarget(f.c) && |old(f.trace)| <= |f.trace|
      invariant f.records.Keys == old(f.records.Keys) + {k}
      invariant f.hosts.Keys <= old(f.hosts.Keys) + HostsOf(old(f.records.Keys)) + {k.host}
      invariant !sent ==> Waiting(f.V(), k, ip)
      invariant sent ==> Reached(f.trace, |old(f.trace)|, ip, now) && ip in f.ips && now < f.ips[ip]
      decreases !sent, HostsOf(f.records.Keys) - Flying(f.V())
    {
      ghost var v := f.V();
      sent := SendOnce(f, k, ip, now, |old(f.trace)|);
      OnwardTrans(old(f.V()), v, f.V(), now, now);
    }
  }

  method SendOnce(f: Frontier, k: URLKey, ip: nat, now: nat, ghost n: nat) returns (sent: bool)
    requires f.Valid() && f.c.resolverOn && f.clock <= now && AllPolite(f.c.pol, f.trace) && Waiting(f.V(), k, ip) && ip != 0
    requires |HostsOf(f.records.Keys) - {k.host}| < EffectiveTarget(f.c) && n <= |f.trace|
    modifies f
    ensures f.Valid() && f.clock <= now && AllPolite(f.c.pol, f.trace) && Onward(old(f.V()), f.V(), now) && n <= |f.trace|
    ensures f.records.Keys == old(f.records.Keys) && f.hosts.Keys <= old(f.hosts.Keys) + HostsOf(old(f.records.Keys))
    ensures !sent ==> Waiting(f.V(), k, ip) && HostsOf(f.records.Keys) - Flying(f.V()) < old(HostsOf(f.records.Keys) - Flying(f.V()))
    ensures sent ==> Reached(f.trace, n, ip, now) && ip in f.ips && now < f.ips[ip]
  {
    hide Inv, Pools, Holds, Quiet, SentOne, Addressed, Onward, AllPolite, Waiting, HostsOf, Flying, Frontier.Blocked, Reached, Ring.Valid, Ring.Items, Buckets;
    ghost var v := f.V();
    var none: seq<URLKey> := [];
    assert multiset(none) == multiset{};
    var lookup := (_: uint64) => Some(ip);
    var req := f.DispatchShard(now, 0, none, lookup);
    SomeSent(f, v, k, ip, lookup, req, now);
    SentNext(f, v, k, ip, lookup, req.value, now, n);
    sent := req.value.ip == ip;
  }

  lemma SomeSent(f: Frontier, a: View, k: URLKey, ip: nat, lookup: uint64 -> Option<nat>, req: Option<Request>, now: nat)
    requires f.Valid() && Waiting(a, k, ip) && Addressed(a, f.V(), lookup) && lookup(k.host) == Some(ip)
    requires |HostsOf(a.records.Keys) - {k.host}| < EffectiveTarget(f.c)
    requires req.None? ==> Quiet(a, f.V()) && f.Blocked(now)
    ensures req.Some?
  {
    hide Inv, Pools, Holds, HostsOf, Waiting, Quiet, Frontier.Blocked, Ring.Valid, Ring.Items, Buckets;
    if req.None? {
      QuietWaits(a, f.V(), k, ip, lookup);
      MustSend(f, k, ip, now);
    }
  }

  lemma SentNext(f: Frontier, a: View, k: URLKey, ip: nat, lookup: uint64 -> Option<nat>, r: Request, now: nat, n: nat)
    requires f.Valid() && AllPolite(f.c.pol, a.trace) && Waiting(a, k, ip) && n <= |a.trace| && ip != 0
    requires SentOne(f.c, f.robotsPath, a, f.V(), r, now) && Addressed(a, f.V(), lookup) && lookup(k.host) == Some(ip)
    requires Answers(lookup, r.key.host) ==> r.ip != 0
    requires forall h :: lookup(h) == Some(ip)
    ensures AllPolite(f.c.pol, f.trace) && Onward(a, f.V(), now) && n <= |f.trace|
    ensures f.records.Keys == a.records.Keys && f.hosts.Keys <= a.hosts.Keys + HostsOf(a.records.Keys)
    ensures r.ip != ip ==> Waiting(f.V(), k, ip) && HostsOf(f.records.Keys) - Flying(f.V()) < HostsOf(a.records.Keys) - Flying(a)
    ensures r.ip == ip ==> Reached(f.trace, n, ip, now) && ip in f.ips && now < f.ips[ip]
  {
    hide Inv, SentOne, Onward, AllPolite, Waiting, HostsOf, Flying, Reached;
    PoliteTrace(f.c, f.robotsPath, a, f.V(), r, now);
    OnwardSent(f.c, f.robotsPath, a, f.V(), r, now);
    OneMoreOut(f.c, f.robotsPath, a, f.V(), r, now);
    if r.ip == ip {
      SentReaches(f.c, f.robotsPath, a, f.V(), r, n, now);
    } else {
      SentWaits(f.c, f.robotsPath, a, f.V(), k, ip, lookup, r, now);
    }
  }

  lemma OneHostMore(v: View, k: URLKey)
    requires Unheard(v, k.host)
    ensures HostsOf(v.records.Keys + {k}) - {k.host} == HostsOf(v.records.Keys)
    ensures HostsOf(v.records.Keys + {k}) == HostsOf(v.records.Keys) + {k.host}
  {
  }

  // ---- the restart ----

  // A window of the lost table is still open when the second session starts, and the frontier has a
  // slot for one more host: then a run of the second session breaks the address's spacing. Each
  // session by itself is spaced.
  method CrowdAddress(f: Frontier, shards: nat, hours: Hours, again: nat, ip: nat, k: URLKey) returns (g: Frontier)
    requires f.Valid() && f.c.resolverOn && AllPolite(f.c.pol, f.trace) && Realized(f.trace, f.ips)
    requires forall k <- f.records :: f.records[k].status == Crawled ==> hours.due(k) > 0
    requires ip in f.ips && again < f.ips[ip]
    requires k.host !in f.hosts && k.host !in HostsOf(f.records.Keys)
    requires EffectiveTarget(f.c) > |HostsOf(f.records.Keys)|
    ensures fresh(g) && g.Valid() && Spaced(f.trace) && Spaced(g.trace)
    ensures Unresolved(f.trace) <= g.trace && NotBefore(g.trace, |f.trace|, again)
    ensures !Spaced(Rejoined(f.trace, g.trace))
  {
    hide Inv, Pools, Holds, Ring.Valid, Ring.Items, Buckets, Onward, AllPolite, HostsOf, Reached, NotBefore, Spaced, Rejoined, Realized, Unresolved;
    NoZero(f.trace, f.ips, ip);
    ghost var reopened;
    g, reopened := ReopenAndReach(f, shards, hours, again, ip, k);
    BothSpaced(f, g);
    Crowded(f.trace, reopened, g.trace, again, ip, f.ips);
    RejoinedIff(f.trace, g.trace, f.hosts, f.ips);
  }

  lemma BothSpaced(f: Frontier, g: Frontier)
    requires f.Valid() && g.Valid()
    ensures Spaced(f.trace) && Windows(f.trace, f.hosts, f.ips) && Spaced(g.trace)
  {
    hide Inv, Pools, Holds, Spaced, Windows, Ring.Valid, Ring.Items, Buckets;
    TracesMatch(f.c, f.V());
    TracesMatch(g.c, g.V());
  }

  method ReopenAndReach(f: Frontier, shards: nat, hours: Hours, again: nat, ip: nat, k: URLKey)
    returns (g: Frontier, ghost reopened: seq<Event>)
    requires f.Valid() && f.c.resolverOn && AllPolite(f.c.pol, f.trace) && ip != 0
    requires forall k <- f.records :: f.records[k].status == Crawled ==> hours.due(k) > 0
    requires k.host !in f.hosts && k.host !in HostsOf(f.records.Keys)
    requires EffectiveTarget(f.c) > |HostsOf(f.records.Keys)|
    ensures fresh(g) && g.Valid() && Unresolved(f.trace) <= reopened <= g.trace
    ensures forall i :: |f.trace| <= i < |reopened| ==> reopened[i].Done?
    ensures Reached(g.trace, |reopened|, ip, again) && NotBefore(g.trace, |reopened|, again)
  {
    hide Inv, Pools, Holds, Onward, AllPolite, Unheard, HostsOf, Reached, NotBefore, SameWork, Ring.Valid, Ring.Items, Buckets;
    g := Reopen(f, shards, hours);
    StillUnheard(f.c, f.V(), g.V(), k.host);
    ghost var v := g.V();
    reopened := g.trace;
    Reach(g, k, ip, again);
    OnwardMeans(v, g.V(), again);
  }

  lemma StillUnheard(c: Config, v: View, w: View, hk: uint64)
    requires SameWork(c, v, w) && hk !in v.hosts && hk !in HostsOf(v.records.Keys)
    ensures Unheard(w, hk) && w.records.Keys == v.records.Keys && w.stranded == {}
  {
  }

  lemma OnwardMeans(a: View, v: View, start: nat)
    requires Onward(a, v, start)
    ensures a.trace <= v.trace && NotBefore(v.trace, |a.trace|, start)
  {
  }

  lemma NoZero(trace: seq<Event>, ips: map<nat, nat>, ip: nat)
    requires Realized(trace, ips) && ip in ips
    ensures ip != 0
  {
  }

  lemma Crowded(before: seq<Event>, reopened: seq<Event>, after: seq<Event>, again: nat, ip: nat, lost: map<nat, nat>)
    requires |before| <= |reopened| && reopened <= after && forall i :: |before| <= i < |reopened| ==> reopened[i].Done?
    requires Reached(after, |reopened|, ip, again) && NotBefore(after, |reopened|, again) && ip in lost && again < lost[ip]
    ensures NotBefore(after, |before|, again) && !Awaits(after, |before|, lost)
  {
    assert forall i :: |before| <= i < |reopened| ==> after[i] == reopened[i];
    var i :| |reopened| <= i < |after| && after[i].Sent? && after[i].ip == ip && after[i].at == again;
    assert lost[after[i].ip] > after[i].at;
  }

  // Two hosts on address 7: the first one's URL goes out, the frontier restarts at the same instant,
  // and a request goes to 7 again inside the first one's window.
  method TwoHostsOneAddress() returns (f: Frontier, g: Frontier)
    ensures fresh(f) && f.Valid() && Realized(f.trace, f.ips) && Spaced(f.trace) && 7 in f.ips && 100 < f.ips[7]
    ensures fresh(g) && g.Valid() && Spaced(g.trace) && Unresolved(f.trace) <= g.trace
    ensures !Spaced(Rejoined(f.trace, g.trace))
  {
    hide Inv, Pools, Holds, Realized, Spaced, Rejoined, Unresolved, AllPolite, HostsOf, Ring.Valid, Ring.Items, Buckets;
    f := FirstSend();
    g := CrowdAddress(f, 1, Hours(_ => 1, _ => 0), 100, 7, URLKey(2, 1));
  }

  method FirstSend() returns (f: Frontier)
    ensures fresh(f) && f.Valid() && f.c.resolverOn && AllPolite(f.c.pol, f.trace)
    ensures Realized(f.trace, f.ips) && 7 in f.ips && 100 < f.ips[7]
    ensures 2 !in f.hosts && HostsOf(f.records.Keys) == {1} && EffectiveTarget(f.c) == 4
  {
    hide Inv, Pools, Holds, Onward, Reached, Ring.Valid, Ring.Items, Buckets;
    f := new Frontier(Config(Policy(SECOND, SECOND, SECOND, SECOND), 4, 4, false, false, true, true, false), 1, 0);
    ghost var v := f.V();
    Reach(f, URLKey(1, 1), 7, 100);
    OnwardRealized(v, f.V(), 100);
    assert f.records.Keys == {URLKey(1, 1)};
  }

  lemma OnwardRealized(a: View, v: View, start: nat)
    requires Onward(a, v, start) && a.trace == [] && a.ips == map[]
    ensures Realized(v.trace, v.ips)
  {
  }
}
