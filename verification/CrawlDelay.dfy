// What whole seconds make of a crawl delay. An interval is a duration, and the step that a request
// spends is its whole seconds, rounded down; a delay from robots.txt is first cut to deciseconds.
module CrawlDelay {
  import opened Wrappers
  import opened Bytes
  import opened Keys
  import opened Rings
  import opened FrontierState
  import opened FrontierSteps
  import opened Scheduler
  import opened FrontierRuns
  import opened Addresses

  predicate Whole(d: nat) {
    d % SECOND == 0 || d < SECOND
  }

  lemma SecsIff(d: nat)
    ensures Secs(d) * SECOND >= d <==> Whole(d)
  {
  }

  // A delay is honoured in full at every interval the rate control may choose, none of which is below
  // it, exactly when it is of whole seconds or below one.
  lemma DelayHonouredIff(d: nat)
    ensures (forall i: nat :: i >= d ==> Secs(i) * SECOND >= d) <==> Whole(d)
  {
    SecsIff(d);
    if Whole(d) {
      forall i: nat | i >= d
        ensures Secs(i) * SECOND >= d
      {
      }
    }
  }

  // A Crawl-delay line is honoured in full exactly when it asks for no more than one second, or for
  // whole seconds that the record column holds.
  lemma RobotsDelayIff(d: nat)
    ensures (forall i: nat :: i >= Deci(d) ==> Secs(i) * SECOND >= d) <==> d <= SECOND || (d % SECOND == 0 && d / SECOND <= 6553)
  {
    DeciBelow(d);
    hide Deci, Secs;
    if d <= SECOND {
      forall i: nat
        ensures Secs(i) * SECOND >= d
      {
        AtLeastOne(i);
      }
    } else if d % SECOND == 0 && d / SECOND <= 6553 {
      WholeDeci(d);
      DelayHonouredIff(d);
    } else {
      SecsBelow(Deci(d));
      assert Secs(Deci(d)) * SECOND < d;
    }
  }

  lemma AtLeastOne(i: nat)
    ensures Secs(i) * SECOND >= SECOND
  {
  }

  lemma DeciBelow(d: nat)
    ensures Deci(d) <= d && Deci(d) <= 65535 * DECISECOND
  {
  }

  lemma WholeDeci(d: nat)
    requires d % SECOND == 0 && d / SECOND <= 6553
    ensures Deci(d) == d
  {
    var n := d / SECOND;
    assert d == (10 * n) * DECISECOND;
    assert d / DECISECOND == 10 * n;
  }

  lemma SecsBelow(i: nat)
    ensures Secs(i) * SECOND <= SECOND || (Secs(i) * SECOND <= i && Secs(i) == i / SECOND)
  {
  }

  // A request spends its host's interval in full exactly when the interval is whole, and the host's
  // delay and the policy's floor in full when they are.
  lemma SendHonours(c: Config, e: Event, h: Host, r: Request, now: nat)
    requires Polite(c, e, h, r, now)
    ensures e.step * SECOND >= Interval(c, h) <==> Whole(Interval(c, h))
    ensures Whole(h.crawlFloor) ==> e.step * SECOND >= h.crawlFloor
    ensures Whole(c.pol.floor) ==> e.step * SECOND >= c.pol.floor
    ensures Whole(c.pol.ipFloor) ==> e.ipStep * SECOND >= c.pol.ipFloor
  {
    hide Secs, Whole, HostInterval;
    SecsIff(Interval(c, h));
    SecsIff(h.crawlFloor);
    SecsIff(c.pol.floor);
    SecsIff(c.pol.ipFloor);
  }

  // In every run two requests to one host are apart by the policy's floor, and two to one address by
  // its floor, in whole seconds; in full when the floors are whole.
  lemma FloorsKept(pol: Policy, trace: seq<Event>, i: nat, j: nat)
    requires AllPolite(pol, trace) && Spaced(trace)
    requires i < j < |trace| && trace[i].Sent? && trace[j].Sent?
    ensures trace[i].host == trace[j].host ==>
      trace[j].at - trace[i].at >= Secs(pol.floor) && (Whole(pol.floor) ==> (trace[j].at - trace[i].at) * SECOND >= pol.floor)
    ensures trace[i].ip == trace[j].ip != 0 ==>
      trace[j].at - trace[i].at >= Secs(pol.ipFloor) && (Whole(pol.ipFloor) ==> (trace[j].at - trace[i].at) * SECOND >= pol.ipFloor)
  {
    hide Secs, Whole;
    assert Apart(trace[i], trace[j]);
    SecsIff(pol.floor);
    SecsIff(pol.ipFloor);
  }

  // ---- the shortened delay ----

  const PAGE_A := URLKey(1, 1)
  const PAGE_B := URLKey(1, 2)

  // Two URLs of one host, neither of them trapped.
  ghost predicate TwoUrls(v: View) {
    && v.records.Keys == {PAGE_A, PAGE_B} && v.records[PAGE_A].status != Trapped && v.records[PAGE_B].status != Trapped
    && 1 in v.hosts
  }

  // With the options off, an unsent URL of an idle host whose window is open can go out.
  lemma UnsentGoesOut(f: Frontier, k: URLKey, now: nat)
    requires f.Valid() && !f.c.robotsOn && !f.c.resolverOn && !f.c.wheelOn
    requires k in f.records && f.records[k].status != Trapped && f.sent[k] == 0
    requires k.host in f.hosts && !f.hosts[k.host].inFlight && f.hosts[k.host].hostNext <= now
    requires EffectiveTarget(f.c) > |HostsOf(f.records.Keys)|
    ensures !f.Blocked(now)
  {
    hide Inv, Pools, HostsOf, AllParked, Ring.Valid, Ring.Items, Buckets;
    UnsentWaits(f.c, f.V(), k);
    assert f.wheel[k] == At(f.loc, AtWheel, k);
    if f.loc[k] == AtFront {
      assert f.urlFront.Items()[k] == 1;
      ActiveBound(f.c, f.V());
    } else {
      DueHost(f.c, f.V(), k, now);
    }
  }

  lemma UnsentWaits(c: Config, v: View, k: URLKey)
    requires Inv(c, v, {}) && !c.robotsOn && !c.wheelOn && k in v.records && v.records[k].status != Trapped && v.sent[k] == 0
    ensures k in v.loc && v.stranded == {}
  {
    hide TracePart, Parks, BacksOk, Flight;
    assert Tally(v.records[k], v.sent[k], c.stateOn);
    assert StatusOk(v.records[k].status, k, v.loc, c.wheelOn);
    NoneStranded(v.hosts, v.spot, v.stranded);
  }

  lemma NoneStranded(hosts: map<uint64, Host>, spot: map<uint64, Spot>, stranded: set<uint64>)
    requires HostsOk(hosts, spot, stranded, {}, false)
    ensures stranded == {}
  {
    forall hk <- hosts
      ensures hk !in stranded
    {
      assert HostOk(hosts[hk], hk in spot, hk in stranded, false);
    }
  }

  lemma ActiveBound(c: Config, v: View)
    requires Inv(c, v, {}) && v.stranded == {}
    ensures v.active <= |HostsOf(v.records.Keys)|
  {
    hide UrlPart, TracePart, Parks;
    forall hk <- Actives(v.hosts)
      ensures hk in HostsOf(v.records.Keys)
    {
      hide Inv;
      ActiveHasWork(c, v, hk);
    }
    SubsetSize(Actives(v.hosts), HostsOf(v.records.Keys));
  }

  lemma DueHost(c: Config, v: View, k: URLKey, now: nat)
    requires Inv(c, v, {}) && v.stranded == {} && !c.resolverOn && k in v.loc && v.loc[k] == AtBack && k.host in v.hosts
    requires !v.hosts[k.host].inFlight && v.hosts[k.host].hostNext <= now
    ensures !AllParked(v.spot, now)
  {
    BackNotEmpty(c, v, k);
    var h := v.hosts[k.host];
    assert HostOk(h, k.host in v.spot, false, c.robotsOn) && Settled(h, k.host in v.spot, false);
    hide UrlPart, TracePart, Parks, HostsOk, Actives;
    assert k.host in v.spot;
  }

  // One dispatch, which sends one of the two and spends its host's interval in whole seconds.
  method SendOne(f: Frontier, now: nat) returns (req: Request)
    requires f.Valid() && f.clock <= now && !f.c.robotsOn && !f.c.resolverOn && !f.c.wheelOn && f.c.target > 1
    requires TwoUrls(f.V()) && (f.sent[PAGE_A] == 0 || f.sent[PAGE_B] == 0)
    requires !f.hosts[1].inFlight && f.hosts[1].hostNext <= now
    modifies f
    ensures f.Valid() && f.clock == now && TwoUrls(f.V()) && f.Expected(req.key) && req.key in f.records
    ensures f.sent == old(f.sent) + multiset{req.key} && f.hosts[1].hostNext == now + Secs(old(Interval(f.c, f.hosts[1])))
    ensures |f.trace| == |old(f.trace)| + 1 && old(f.trace) <= f.trace
    ensures var e := f.trace[|f.trace| - 1]; e.Sent? && e.host == 1 && e.at == now
  {
    hide Inv, Pools, Holds, Quiet, SentOne, AllParked, Addressed, Ring.Valid, Ring.Items, Buckets;
    ghost var v := f.V();
    var none: seq<URLKey> := [];
    assert multiset(none) == multiset{};
    var r := f.DispatchShard(now, 0, none, _ => None);
    OneIsSent(f, v, now, r);
    req := r.value;
    PageSent(f, v, now, req);
  }

  lemma OneIsSent(f: Frontier, a: View, now: nat, r: Option<Request>)
    requires f.Valid() && !f.c.robotsOn && !f.c.resolverOn && !f.c.wheelOn && f.c.target > 1
    requires TwoUrls(a) && (a.sent[PAGE_A] == 0 || a.sent[PAGE_B] == 0)
    requires !a.hosts[1].inFlight && a.hosts[1].hostNext <= now
    requires r.None? ==> Quiet(a, f.V()) && f.Blocked(now)
    ensures r.Some?
  {
    hide Inv, Pools, Holds, Frontier.Blocked, Ring.Valid, Ring.Items, Buckets;
    if r.None? {
      assert HostsOf(f.records.Keys) == {1};
      UnsentGoesOut(f, if a.sent[PAGE_A] == 0 then PAGE_A else PAGE_B, now);
    }
  }

  lemma PageSent(f: Frontier, a: View, now: nat, r: Request)
    requires f.Valid() && !f.c.robotsOn && TwoUrls(a) && SentOne(f.c, f.robotsPath, a, f.V(), r, now)
    ensures TwoUrls(f.V()) && f.Expected(r.key) && r.key in f.records && r.key.host == 1
    ensures f.sent == a.sent + multiset{r.key} && f.hosts[1].hostNext == now + Secs(Interval(f.c, a.hosts[1]))
    ensures |f.trace| == |a.trace| + 1 && a.trace <= f.trace
    ensures var e := f.trace[|f.trace| - 1]; e.Sent? && e.host == 1 && e.at == now
  {
    hide Secs, HostInterval, IpStep;
    HeadKnown(f.c, f.V(), r.key.host);
    hide Inv, Pools, Holds, Ring.Valid, Ring.Items, Buckets;
    var e :| f.trace == a.trace + [e] && Polite(f.c, e, f.hosts[r.key.host], r, now) && f.ips == Spent(a.ips, e);
    assert r.key == PAGE_A || r.key == PAGE_B;
  }

  lemma HeadKnown(c: Config, v: View, hk: uint64)
    requires Inv(c, v, {}) && hk in v.hosts && v.hosts[hk].Fetching()
    ensures v.hosts[hk].back[0] in v.records && v.hosts[hk].back[0].host == hk
  {
    hide HostPart, TracePart, Parks, BacksOk, StatusesOk, Counted;
  }

  lemma NoRules(c: Config, v: View, hk: uint64)
    requires Inv(c, v, {}) && !c.robotsOn && hk in v.hosts
    ensures v.hosts[hk].rules == RulesNone
  {
    assert HostOk(v.hosts[hk], hk in v.spot, hk in v.stranded, c.robotsOn);
  }

  // A crawled answer to the request that is out.
  method Crawl(f: Frontier, key: URLKey, now: nat)
    requires f.Valid() && f.clock <= now && TwoUrls(f.V()) && f.Expected(key) && key in f.records && key.host == 1
    requires !f.c.robotsOn
    modifies f
    ensures f.Valid() && f.clock == now && TwoUrls(f.V()) && !f.hosts[1].inFlight && f.hosts[1].hostNext == old(f.hosts[1].hostNext) && f.sent == old(f.sent)
    ensures f.trace == old(f.trace) + [Done(1)]
  {
    hide Inv, Pools, Holds, Ring.Valid, Ring.Items, Buckets, NextRecord;
    NoRules(f.c, f.V(), 1);
    var o := Outcome(key, 200, false, false, false, None, false, false, 0, {}, 0);
    f.Report(o, now);
  }

  // A site that asks for d between requests, d being more than a second and not whole, is asked again
  // sooner: its two URLs go out less than d apart.
  method CutShort(pol: Policy, d: nat) returns (f: Frontier)
    requires !Whole(d) && pol.floor <= d && pol.baseline <= d
    ensures fresh(f) && f.Valid() && f.c.pol == pol && 1 in f.hosts && |f.trace| == 3
    ensures var a, b := f.trace[0], f.trace[2];
      a.Sent? && b.Sent? && a.host == b.host == 1 && b.at > a.at && (b.at - a.at) * SECOND < d
  {
    hide Inv, Pools, Holds, Ring.Valid, Ring.Items, Buckets, Secs, Interval;
    f := TwoSeeds(pol, d);
    var first := SendOne(f, 100);
    Crawl(f, first.key, 100);
    SecsIff(d);
    var second := SendOne(f, 100 + Secs(d));
  }

  method TwoSeeds(pol: Policy, d: nat) returns (f: Frontier)
    requires pol.floor <= d && pol.baseline <= d
    ensures fresh(f) && f.Valid() && f.c == Config(pol, 2, 2, false, false, false, false, false) && f.trace == []
    ensures TwoUrls(f.V()) && f.sent == multiset{} && f.clock == 0
    ensures !f.hosts[1].inFlight && f.hosts[1].hostNext == 0 && Interval(f.c, f.hosts[1]) == d
  {
    hide Inv, Pools, Holds, Ring.Valid, Ring.Items, Buckets;
    f := new Frontier(Config(pol, 2, 2, false, false, false, false, false), 1, 0);
    f.Seed(PAGE_A, 0, 0, 0, d);
    f.Seed(PAGE_B, 0, 0, 0, d);
    DelayIsInterval(pol, d);
  }

  lemma DelayIsInterval(pol: Policy, d: nat)
    requires pol.floor <= d && pol.baseline <= d
    ensures HostInterval(pol, pol.baseline, d) == d
  {
  }
}
