// The frontier as a state machine over its abstract view: one lemma per kind of step, each saying
// that the step keeps every invariant of FrontierState.
//
// The invariant Inv has three parts. HostPart says which host is in which pool, UrlPart where every
// URL is and how often it went out, TracePart what the run so far looked like from outside. A step
// lemma is put together from one lemma per part that the step touches: SendHosts, SendUrls and
// SendTrace make Send. The parts it leaves alone stay hidden in the proof.
module FrontierSteps {
  import opened Wrappers
  import opened Bytes
  import opened Keys
  import opened FrontierState

  // The options the frontier was built with.
  datatype Config = Config(pol: Policy, target: nat, minActive: nat, bounded: bool,
                           robotsOn: bool, resolverOn: bool, stateOn: bool, wheelOn: bool)

  datatype View = View(records: map<URLKey, Record>, hosts: map<uint64, Host>, ips: map<nat, nat>, active: int,
                       spot: map<uint64, Spot>, stranded: set<uint64>, loc: map<URLKey, Place>,
                       trace: seq<Event>, sent: multiset<URLKey>, clock: nat)

  // Who is scheduled where.
  ghost predicate HostPart(c: Config, hosts: map<uint64, Host>, active: int, spot: map<uint64, Spot>,
                           stranded: set<uint64>, clock: nat, but: set<uint64>) {
    && HostsOk(hosts, spot, stranded, but, c.robotsOn)
    && active == |Actives(hosts)|
    && Timely(hosts, spot, clock, c.resolverOn)
  }

  // Where every URL is and how often it went out.
  ghost predicate UrlPart(c: Config, records: map<URLKey, Record>, hosts: map<uint64, Host>, loc: map<URLKey, Place>,
                          sent: multiset<URLKey>) {
    && BacksOk(hosts, loc) && StatusesOk(records, loc, c.wheelOn) && Flight(records, hosts)
    && Counted(records, sent, c.stateOn, c.wheelOn, c.robotsOn)
  }

  // What the run so far looked like from outside.
  ghost predicate TracePart(trace: seq<Event>, hosts: map<uint64, Host>, ips: map<nat, nat>) {
    Spaced(trace) && Windows(trace, hosts, ips) && OneAtATime(trace) && OpenMatches(trace, hosts)
  }

  // but is the host being moved from one pool to another, if any.
  ghost predicate Inv(c: Config, v: View, but: set<uint64>) {
    && HostPart(c, v.hosts, v.active, v.spot, v.stranded, v.clock, but)
    && UrlPart(c, v.records, v.hosts, v.loc, v.sent)
    && TracePart(v.trace, v.hosts, v.ips)
    && Parks(v.hosts, v.ips, v.spot)
  }

  // ---- what a change to the host entries leaves alone ----

  // hosts' differs from hosts in no window and no request out.
  ghost predicate SameTraffic(hosts: map<uint64, Host>, hosts': map<uint64, Host>) {
    && hosts.Keys <= hosts'.Keys
    && (forall hk <- hosts :: hosts'[hk].hostNext == hosts[hk].hostNext && hosts'[hk].inFlight == hosts[hk].inFlight)
    && (forall hk <- hosts' :: hk !in hosts ==> !hosts'[hk].inFlight)
  }

  lemma KeepTrace(trace: seq<Event>, hosts: map<uint64, Host>, ips: map<nat, nat>, hosts': map<uint64, Host>)
    requires TracePart(trace, hosts, ips) && SameTraffic(hosts, hosts')
    ensures TracePart(trace, hosts', ips)
  {
    KeepWindows(trace, hosts, ips, hosts');
    forall h: uint64
      ensures Open(trace, h) == if h in hosts' && hosts'[h].inFlight then 1 else 0
    {
      assert Open(trace, h) == if h in hosts && hosts[h].inFlight then 1 else 0;
    }
  }

  ghost predicate SameQueues(hosts: map<uint64, Host>, hosts': map<uint64, Host>) {
    && hosts.Keys <= hosts'.Keys
    && (forall hk <- hosts :: hosts'[hk].back == hosts[hk].back && (hosts'[hk].Fetching() <==> hosts[hk].Fetching()))
    && (forall hk <- hosts' :: hk !in hosts ==> hosts'[hk].back == [])
  }

  lemma KeepUrls(c: Config, records: map<URLKey, Record>, hosts: map<uint64, Host>, loc: map<URLKey, Place>,
                 sent: multiset<URLKey>, hosts': map<uint64, Host>)
    requires UrlPart(c, records, hosts, loc, sent) && SameQueues(hosts, hosts')
    ensures UrlPart(c, records, hosts', loc, sent)
  {
    hide StatusesOk, Counted;
    forall hk <- hosts'
      ensures BackOk(hosts'[hk].back, hk, loc)
    {
      if hk in hosts {
        assert BackOk(hosts[hk].back, hk, loc);
      } else {
        assert forall k: URLKey :: k.host == hk ==> At(loc, AtBack, k) == 0;
      }
    }
  }

  // ---- new hosts and new records ----

  function FreshHost(pol: Policy, crawlFloor: nat): Host {
    Host([], false, false, 0, 0, 0, pol.baseline, crawlFloor, RulesNone, 0, {})
  }

  // A host entry for hk, made if there is none.
  function WithHost(hosts: map<uint64, Host>, hk: uint64, h: Host): map<uint64, Host> {
    if hk in hosts then hosts else hosts[hk := h]
  }

  lemma AddHost(c: Config, v: View, but: set<uint64>, hk: uint64, crawlFloor: nat)
    requires Inv(c, v, but)
    ensures Inv(c, v.(hosts := WithHost(v.hosts, hk, FreshHost(c.pol, crawlFloor))), but)
  {
    hide HostPart, UrlPart, TracePart;
    if hk !in v.hosts {
      var hosts' := v.hosts[hk := FreshHost(c.pol, crawlFloor)];
      KeepTrace(v.trace, v.hosts, v.ips, hosts');
      KeepUrls(c, v.records, v.hosts, v.loc, v.sent, hosts');
      AddHostPart(c, v, but, hk, crawlFloor);
    }
  }

  lemma AddHostPart(c: Config, v: View, but: set<uint64>, hk: uint64, crawlFloor: nat)
    requires HostPart(c, v.hosts, v.active, v.spot, v.stranded, v.clock, but) && hk !in v.hosts
    ensures HostPart(c, v.hosts[hk := FreshHost(c.pol, crawlFloor)], v.active, v.spot, v.stranded, v.clock, but)
  {
    var hosts' := v.hosts[hk := FreshHost(c.pol, crawlFloor)];
    ActiveSame(v.hosts, hosts');
  }

  // Where a new record goes: the front bank, the wheel, or nowhere when it is trapped.
  ghost function NewLoc(loc: map<URLKey, Place>, k: URLKey, place: Option<Place>): map<URLKey, Place> {
    match place
    case None => loc
    case Some(p) => loc[k := p]
  }

  lemma AddRecord(c: Config, v: View, but: set<uint64>, k: URLKey, level: Level, place: Option<Place>)
    requires Inv(c, v, but) && k !in v.records && k.host in v.hosts
    requires place != Some(AtBack)
    ensures Inv(c, v.(records := v.records[k := Record(if place.None? then Trapped else Scheduled, level, 0)],
                      loc := NewLoc(v.loc, k, place)), but)
  {
    assert k !in v.loc;
    hide HostPart, TracePart, Counted, StatusesOk, Flight, BacksOk;
    var r := Record(if place.None? then Trapped else Scheduled, level, 0);
    AddToBacks(v, k, place);
    AddToStatuses(c, v, k, r, place);
    AddToFlight(v, k, r);
    AddToCounted(c, v, k, r);
  }

  lemma AddToBacks(v: View, k: URLKey, place: Option<Place>)
    requires BacksOk(v.hosts, v.loc) && k !in v.loc && k.host in v.hosts && place != Some(AtBack)
    ensures BacksOk(v.hosts, NewLoc(v.loc, k, place))
  {
    MoveOutsideBacks(v.hosts, v.loc, NewLoc(v.loc, k, place), k);
  }

  lemma AddToStatuses(c: Config, v: View, k: URLKey, r: Record, place: Option<Place>)
    requires StatusesOk(v.records, v.loc, c.wheelOn) && k !in v.records && place != Some(AtBack)
    requires r.status == if place.None? then Trapped else Scheduled
    ensures StatusesOk(v.records[k := r], NewLoc(v.loc, k, place), c.wheelOn)
  {
  }

  lemma AddToFlight(v: View, k: URLKey, r: Record)
    requires Flight(v.records, v.hosts) && k !in v.records && r.status != InFlight
    ensures Flight(v.records[k := r], v.hosts)
  {
  }

  lemma AddToCounted(c: Config, v: View, k: URLKey, r: Record)
    requires Counted(v.records, v.sent, c.stateOn, c.wheelOn, c.robotsOn) && k !in v.records
    requires r.status in {Scheduled, Trapped} && r.retry == 0
    ensures Counted(v.records[k := r], v.sent, c.stateOn, c.wheelOn, c.robotsOn)
  {
    assert v.sent[k] == 0 by {
      assert k !in v.sent;
    }
  }

  // The view once URL k, known to nobody, has its record.
  ghost function Added(c: Config, v: View, k: URLKey, level: Level, place: Option<Place>, crawlFloor: nat): View {
    v.(hosts := WithHost(v.hosts, k.host, FreshHost(c.pol, crawlFloor)),
       records := v.records[k := Record(if place.None? then Trapped else Scheduled, level, 0)],
       loc := NewLoc(v.loc, k, place))
  }

  lemma AddUrl(c: Config, v: View, but: set<uint64>, k: URLKey, level: Level, place: Option<Place>, crawlFloor: nat)
    requires Inv(c, v, but) && k !in v.records && place != Some(AtBack)
    ensures Inv(c, Added(c, v, k, level, place, crawlFloor), but)
  {
    hide Inv;
    AddHost(c, v, but, k.host, crawlFloor);
    AddRecord(c, v.(hosts := WithHost(v.hosts, k.host, FreshHost(c.pol, crawlFloor))), but, k, level, place);
  }

  // A move of k that involves no back queue leaves every back queue right.
  lemma MoveOutsideBacks(hosts: map<uint64, Host>, loc: map<URLKey, Place>, loc': map<URLKey, Place>, k: URLKey)
    requires BacksOk(hosts, loc)
    requires forall x :: x != k ==> At(loc', AtBack, x) == At(loc, AtBack, x) && (x in loc' ==> x in loc && loc'[x] == loc[x])
    requires At(loc', AtBack, k) == At(loc, AtBack, k)
    requires k.host in hosts
    ensures BacksOk(hosts, loc')
  {
    forall hk <- hosts
      ensures BackOk(hosts[hk].back, hk, loc')
    {
      SameBack(hosts[hk].back, hk, loc, loc', k);
    }
  }

  lemma SameBack(back: seq<URLKey>, hk: uint64, loc: map<URLKey, Place>, loc': map<URLKey, Place>, k: URLKey)
    requires BackOk(back, hk, loc)
    requires forall x :: x != k ==> At(loc', AtBack, x) == At(loc, AtBack, x)
    requires k.host == hk ==> At(loc', AtBack, k) == At(loc, AtBack, k)
    ensures BackOk(back, hk, loc')
  {
    forall x
      ensures multiset(back)[x] == if x.host == hk then At(loc', AtBack, x) else 0
    {
      assert multiset(back)[x] == if x.host == hk then At(loc, AtBack, x) else 0;
    }
  }

  // promoteDue: a URL whose hour has come leaves the wheel for the front bank.
  lemma DueToFront(c: Config, v: View, but: set<uint64>, k: URLKey)
    requires Inv(c, v, but) && c.wheelOn && k in v.loc && v.loc[k] == AtWheel && k.host in v.hosts
    ensures k in v.records && v.records[k].status in {Crawled, Scheduled, DueRecrawl}
    ensures var r := v.records[k];
            Inv(c, v.(records := v.records[k := r.(status := if r.status == Crawled then DueRecrawl else r.status)],
                      loc := v.loc[k := AtFront]), but)
  {
    hide HostPart, TracePart, Counted, Flight, BacksOk;
    assert StatusOk(v.records[k].status, k, v.loc, c.wheelOn);
    var r := v.records[k].(status := if v.records[k].status == Crawled then DueRecrawl else v.records[k].status);
    MoveOutsideBacks(v.hosts, v.loc, v.loc[k := AtFront], k);
    QuietFlight(v, k, r);
    WheelCounted(c, v, k, r);
  }

  lemma QuietFlight(v: View, k: URLKey, r: Record)
    requires Flight(v.records, v.hosts) && k in v.records && v.records[k].status != InFlight && r.status != InFlight
    ensures Flight(v.records[k := r], v.hosts)
  {
  }

  lemma WheelCounted(c: Config, v: View, k: URLKey, r: Record)
    requires Counted(v.records, v.sent, c.stateOn, c.wheelOn, c.robotsOn) && c.wheelOn && k in v.records
    requires v.records[k].status != Gone && v.records[k].status != Excluded
    requires r.status != Excluded && r.retry == v.records[k].retry
    ensures Counted(v.records[k := r], v.sent, c.stateOn, c.wheelOn, c.robotsOn)
  {
  }

  // A change of priority level only.
  lemma Relevel(c: Config, v: View, but: set<uint64>, k: URLKey, level: Level)
    requires Inv(c, v, but) && k in v.records
    ensures Inv(c, v.(records := v.records[k := v.records[k].(level := level)]), but)
  {
    hide HostPart, TracePart, BacksOk, Counted;
    RelevelCounted(c, v, k, level);
  }

  lemma RelevelCounted(c: Config, v: View, k: URLKey, level: Level)
    requires Counted(v.records, v.sent, c.stateOn, c.wheelOn, c.robotsOn) && k in v.records
    ensures Counted(v.records[k := v.records[k].(level := level)], v.sent, c.stateOn, c.wheelOn, c.robotsOn)
  {
  }

  // ---- moves between pools ----

  lemma LeavePool(c: Config, v: View, hk: uint64)
    requires Inv(c, v, {}) && hk in v.spot
    ensures hk in v.hosts && hk !in v.stranded
    ensures var h := v.hosts[hk]; h.active && !h.inFlight && h.back != []
    ensures Inv(c, v.(spot := v.spot - {hk}), {hk})
  {
    hide UrlPart, TracePart;
    assert HostOk(v.hosts[hk], true, hk in v.stranded, c.robotsOn);
  }

  lemma EnterPool(c: Config, v: View, hk: uint64, s: Spot)
    requires Inv(c, v, {hk}) && hk in v.hosts && hk !in v.spot && hk !in v.stranded
    requires var h := v.hosts[hk]; h.active && !h.inFlight && h.back != []
    requires !c.resolverOn ==> match s case InReady => v.hosts[hk].hostNext <= v.clock case Parked(u) => u == v.hosts[hk].hostNext
    requires s.Parked? ==> s.until <= Eligible(v.hosts[hk], v.ips)
    ensures Inv(c, v.(spot := v.spot[hk := s]), {})
  {
    hide UrlPart, TracePart;
    assert HostOk(v.hosts[hk], false, false, c.robotsOn);
  }

  lemma Tick(c: Config, v: View, but: set<uint64>, now: nat)
    requires Inv(c, v, but) && v.clock <= now
    ensures Inv(c, v.(clock := now), but)
  {
    hide UrlPart, TracePart, HostsOk, Actives;
  }

  lemma Resolve(c: Config, v: View, but: set<uint64>, hk: uint64, ip: nat, expiry: nat)
    requires Inv(c, v, but) && hk in v.hosts && hk !in v.spot && c.resolverOn
    ensures Inv(c, v.(hosts := v.hosts[hk := v.hosts[hk].(ip := ip, ipExpiry := expiry)]), but)
  {
    hide HostPart, UrlPart, TracePart;
    var hosts' := v.hosts[hk := v.hosts[hk].(ip := ip, ipExpiry := expiry)];
    KeepTrace(v.trace, v.hosts, v.ips, hosts');
    KeepUrls(c, v.records, v.hosts, v.loc, v.sent, hosts');
    ResolveHosts(c, v, but, hk, ip, expiry);
  }

  lemma ResolveHosts(c: Config, v: View, but: set<uint64>, hk: uint64, ip: nat, expiry: nat)
    requires HostPart(c, v.hosts, v.active, v.spot, v.stranded, v.clock, but) && hk in v.hosts && c.resolverOn
    ensures HostPart(c, v.hosts[hk := v.hosts[hk].(ip := ip, ipExpiry := expiry)], v.active, v.spot, v.stranded, v.clock, but)
  {
    ActiveSame(v.hosts, v.hosts[hk := v.hosts[hk].(ip := ip, ipExpiry := expiry)]);
  }

  // ---- distribute ----

  function Bound(h: Host, k: URLKey): Host {
    h.(back := h.back + [k], active := true)
  }

  // A URL leaves the front bank for its host's back queue; an idle host becomes active.
  lemma Bind(c: Config, v: View, k: URLKey)
    requires Inv(c, v, {}) && k in v.loc && v.loc[k] == AtFront
    ensures k.host in v.hosts
    ensures var h := v.hosts[k.host];
            && Inv(c, v.(hosts := v.hosts[k.host := Bound(h, k)],
                         active := v.active + if h.active then 0 else 1,
                         loc := v.loc[k := AtBack]), if h.active then {} else {k.host})
            && (!h.active ==> k.host !in v.spot && k.host !in v.stranded && !h.inFlight)
  {
    hide HostPart, TracePart, UrlPart, Parks;
    AtFrontHasHost(c, v, k);
    var h := v.hosts[k.host];
    var hosts' := v.hosts[k.host := Bound(h, k)];
    BindHosts(c, v, k);
    KeepTrace(v.trace, v.hosts, v.ips, hosts');
    ParksSame(v.hosts, hosts', v.ips, v.spot) by {
      SpotsAreHosts(v);
    }
    BindUrls(c, v, k);
  }

  lemma SpotsAreHosts(v: View)
    requires Parks(v.hosts, v.ips, v.spot)
    ensures forall hk <- v.spot :: hk in v.hosts
  {
  }

  lemma AtFrontHasHost(c: Config, v: View, k: URLKey)
    requires UrlPart(c, v.records, v.hosts, v.loc, v.sent) && k in v.loc && v.loc[k] == AtFront
    ensures k.host in v.hosts
  {
    hide StatusesOk, Flight, Counted;
  }

  lemma BindUrls(c: Config, v: View, k: URLKey)
    requires UrlPart(c, v.records, v.hosts, v.loc, v.sent) && k in v.loc && v.loc[k] == AtFront && k.host in v.hosts
    requires v.hosts[k.host].inFlight ==> v.hosts[k.host].back != []
    ensures UrlPart(c, v.records, v.hosts[k.host := Bound(v.hosts[k.host], k)], v.loc[k := AtBack], v.sent)
  {
    hide StatusesOk, Flight, Counted, BacksOk;
    BindBacks(v, k);
    BindStatuses(c, v, k);
    BindFlight(v, k);
  }

  lemma BindHosts(c: Config, v: View, k: URLKey)
    requires HostPart(c, v.hosts, v.active, v.spot, v.stranded, v.clock, {}) && k.host in v.hosts
    ensures var h := v.hosts[k.host];
            && HostPart(c, v.hosts[k.host := Bound(h, k)], v.active + if h.active then 0 else 1,
                        v.spot, v.stranded, v.clock, if h.active then {} else {k.host})
            && (!h.active ==> k.host !in v.spot && k.host !in v.stranded && !h.inFlight)
            && (h.inFlight ==> h.back != [])
  {
    var h := v.hosts[k.host];
    assert HostOk(h, k.host in v.spot, k.host in v.stranded, c.robotsOn);
    if h.active {
      ActiveSame(v.hosts, v.hosts[k.host := Bound(h, k)]);
    } else {
      ActiveOn(v.hosts, k.host, Bound(h, k));
    }
  }

  lemma BindBacks(v: View, k: URLKey)
    requires BacksOk(v.hosts, v.loc) && k in v.loc && v.loc[k] == AtFront
    ensures BacksOk(v.hosts[k.host := Bound(v.hosts[k.host], k)], v.loc[k := AtBack])
  {
    hide BackOk;
    var hosts' := v.hosts[k.host := Bound(v.hosts[k.host], k)];
    var loc' := v.loc[k := AtBack];
    forall hk <- hosts'
      ensures BackOk(hosts'[hk].back, hk, loc')
    {
      if hk == k.host {
        BindBack(v.hosts[hk].back, v.loc, k);
      } else {
        SameBack(v.hosts[hk].back, hk, v.loc, loc', k);
      }
    }
  }

  lemma BindBack(back: seq<URLKey>, loc: map<URLKey, Place>, k: URLKey)
    requires BackOk(back, k.host, loc) && At(loc, AtBack, k) == 0
    ensures BackOk(back + [k], k.host, loc[k := AtBack])
  {
    forall x
      ensures multiset(back + [k])[x] == if x.host == k.host then At(loc[k := AtBack], AtBack, x) else 0
    {
      assert multiset(back)[x] == if x.host == k.host then At(loc, AtBack, x) else 0;
    }
  }

  lemma BindStatuses(c: Config, v: View, k: URLKey)
    requires StatusesOk(v.records, v.loc, c.wheelOn) && k in v.loc && v.loc[k] == AtFront
    ensures StatusesOk(v.records, v.loc[k := AtBack], c.wheelOn)
  {
    assert StatusOk(v.records[k].status, k, v.loc, c.wheelOn);
  }

  lemma BindFlight(v: View, k: URLKey)
    requires Flight(v.records, v.hosts) && k.host in v.hosts
    requires v.hosts[k.host].inFlight ==> v.hosts[k.host].back != []
    ensures Flight(v.records, v.hosts[k.host := Bound(v.hosts[k.host], k)])
  {
  }

  // A URL the host's rules refuse leaves the front bank for good.
  lemma ExcludeFront(c: Config, v: View, k: URLKey)
    requires Inv(c, v, {}) && k in v.loc && v.loc[k] == AtFront
    requires k.host in v.hosts && v.hosts[k.host].rules == RulesReady
    ensures k in v.records
    ensures Inv(c, v.(records := v.records[k := v.records[k].(status := Excluded)], loc := v.loc - {k}), {})
  {
    hide TracePart, Counted, Flight, BacksOk;
    assert StatusOk(v.records[k].status, k, v.loc, c.wheelOn);
    assert HostOk(v.hosts[k.host], k.host in v.spot, k.host in v.stranded, c.robotsOn);
    hide HostPart;
    MoveOutsideBacks(v.hosts, v.loc, v.loc - {k}, k);
    QuietFlight(v, k, v.records[k].(status := Excluded));
    ExcludeCounted(c, v, k);
  }

  lemma ExcludeCounted(c: Config, v: View, k: URLKey)
    requires Counted(v.records, v.sent, c.stateOn, c.wheelOn, c.robotsOn) && c.robotsOn
    requires k in v.records && v.records[k].status in {Scheduled, DueRecrawl}
    ensures Counted(v.records[k := v.records[k].(status := Excluded)], v.sent, c.stateOn, c.wheelOn, c.robotsOn)
  {
  }

  // ---- dispatch ----

  function Interval(c: Config, h: Host): nat {
    HostInterval(c.pol, h.effective, h.crawlFloor)
  }

  function IpStep(c: Config, h: Host): nat {
    Secs(Max(Interval(c, h), c.pol.ipFloor))
  }

  // spend: what a request to h at now records.
  function SendEvent(c: Config, h: Host, hk: uint64, now: nat): (e: Event)
    ensures e.Sent?
  {
    Sent(hk, h.ip, now, Secs(Interval(c, h)), IpStep(c, h))
  }

  function SpentIps(c: Config, h: Host, ips: map<nat, nat>, now: nat): map<nat, nat> {
    if h.ip == 0 then ips else ips[h.ip := now + IpStep(c, h)]
  }

  function SentHost(c: Config, h: Host, now: nat, rules: Rules): Host {
    h.(inFlight := true, hostNext := now + Secs(Interval(c, h)), rules := rules)
  }

  // The view after a request to hk; content says whether it asks for the head of the back queue
  // or for robots.txt.
  ghost function AfterSend(c: Config, v: View, hk: uint64, now: nat, content: bool): View
    requires hk in v.hosts && v.hosts[hk].back != [] && v.hosts[hk].back[0] in v.records
  {
    var h := v.hosts[hk];
    var k := h.back[0];
    v.(records := if content then v.records[k := v.records[k].(status := InFlight)] else v.records,
       hosts := v.hosts[hk := SentHost(c, h, now, if content then h.rules else RulesPending)],
       ips := SpentIps(c, h, v.ips, now),
       trace := v.trace + [SendEvent(c, h, hk, now)],
       sent := if content then v.sent + multiset{k} else v.sent)
  }

  ghost predicate CanSend(v: View, hk: uint64, now: nat) {
    && hk in v.hosts && hk !in v.spot && hk !in v.stranded
    && v.hosts[hk].active && !v.hosts[hk].inFlight && v.hosts[hk].back != []
    && Eligible(v.hosts[hk], v.ips) <= now
  }

  // The head of an idle host's back queue is a URL waiting to be sent.
  lemma HeadWaits(c: Config, v: View, hk: uint64)
    requires UrlPart(c, v.records, v.hosts, v.loc, v.sent)
    requires hk in v.hosts && !v.hosts[hk].inFlight && v.hosts[hk].back != []
    ensures HeadReady(v, hk)
  {
    hide Counted;
    var k := v.hosts[hk].back[0];
    InBack(v, hk, k);
    assert StatusOk(v.records[k].status, k, v.loc, c.wheelOn);
  }

  // A URL in a back queue is there once, and belongs to that host.
  lemma InBack(v: View, hk: uint64, k: URLKey)
    requires BacksOk(v.hosts, v.loc) && hk in v.hosts && k in v.hosts[hk].back
    ensures k.host == hk && k in v.loc && v.loc[k] == AtBack && multiset(v.hosts[hk].back)[k] == 1
  {
    assert BackOk(v.hosts[hk].back, hk, v.loc);
    assert k in multiset(v.hosts[hk].back);
    assert multiset(v.hosts[hk].back)[k] == if k.host == hk then At(v.loc, AtBack, k) else 0;
  }

  lemma Send(c: Config, v: View, hk: uint64, now: nat, content: bool)
    requires Inv(c, v, {hk}) && CanSend(v, hk, now)
    requires if content then v.hosts[hk].rules != RulesPending else c.robotsOn
    requires v.hosts[hk].back[0] in v.records
    ensures Inv(c, AfterSend(c, v, hk, now, content), {})
  {
    hide HostPart, UrlPart, TracePart;
    HeadWaits(c, v, hk);
    SendTrace(c, v, hk, now, content);
    SendHosts(c, v, hk, now, content);
    SendUrls(c, v, hk, now, content);
  }

  lemma SendTrace(c: Config, v: View, hk: uint64, now: nat, content: bool)
    requires TracePart(v.trace, v.hosts, v.ips) && CanSend(v, hk, now) && v.hosts[hk].back[0] in v.records
    ensures var v' := AfterSend(c, v, hk, now, content); TracePart(v'.trace, v'.hosts, v'.ips)
  {
    hide Spaced, Windows, OneAtATime, OpenMatches;
    var v' := AfterSend(c, v, hk, now, content);
    var e := SendEvent(c, v.hosts[hk], hk, now);
    SendApart(v.trace, v.hosts, v.ips, e);
    SendWindows(v.trace, v.hosts, v.ips, e, v'.hosts, v'.ips);
    StepOpen(v.trace, v.hosts, e, v'.hosts);
  }

  lemma SendHosts(c: Config, v: View, hk: uint64, now: nat, content: bool)
    requires HostPart(c, v.hosts, v.active, v.spot, v.stranded, v.clock, {hk}) && CanSend(v, hk, now)
    requires if content then v.hosts[hk].rules != RulesPending else c.robotsOn
    requires v.hosts[hk].back[0] in v.records
    ensures HostPart(c, AfterSend(c, v, hk, now, content).hosts, v.active, v.spot, v.stranded, v.clock, {})
  {
    hide SpentIps, SendEvent, IpStep;
    var hosts' := AfterSend(c, v, hk, now, content).hosts;
    assert HostOk(v.hosts[hk], hk in v.spot, hk in v.stranded, c.robotsOn);
    ActiveSame(v.hosts, hosts');
  }

  ghost predicate HeadReady(v: View, hk: uint64) {
    && hk in v.hosts && v.hosts[hk].back != []
    && var k := v.hosts[hk].back[0];
       && k.host == hk && k in v.loc && v.loc[k] == AtBack && k in v.records
       && v.records[k].status in {Scheduled, DueRecrawl}
  }

  lemma SendUrls(c: Config, v: View, hk: uint64, now: nat, content: bool)
    requires UrlPart(c, v.records, v.hosts, v.loc, v.sent) && CanSend(v, hk, now) && HeadReady(v, hk)
    requires content ==> v.hosts[hk].rules != RulesPending
    ensures var v' := AfterSend(c, v, hk, now, content); UrlPart(c, v'.records, v'.hosts, v'.loc, v'.sent)
  {
    hide UrlPart, Eligible, SpentIps, SendEvent, Interval;
    if content {
      SendContentUrls(c, v, hk, now);
    } else {
      KeepUrls(c, v.records, v.hosts, v.loc, v.sent, AfterSend(c, v, hk, now, false).hosts);
    }
  }

  lemma SendContentUrls(c: Config, v: View, hk: uint64, now: nat)
    requires UrlPart(c, v.records, v.hosts, v.loc, v.sent) && CanSend(v, hk, now) && HeadReady(v, hk)
    requires v.hosts[hk].rules != RulesPending
    ensures var v' := AfterSend(c, v, hk, now, true); UrlPart(c, v'.records, v'.hosts, v'.loc, v'.sent)
  {
    hide BacksOk, Flight, Counted, StatusesOk, Eligible, SpentIps, SendEvent, Interval;
    var hosts' := AfterSend(c, v, hk, now, true).hosts;
    SendCounted(c, v, v.hosts[hk].back[0]);
    SendBacks(v, hosts');
    SendFlight(v, hk, hosts');
    SendStatuses(c, v, v.hosts[hk].back[0]);
  }

  lemma SendBacks(v: View, hosts': map<uint64, Host>)
    requires BacksOk(v.hosts, v.loc) && hosts'.Keys == v.hosts.Keys
    requires forall hk <- hosts' :: hosts'[hk].back == v.hosts[hk].back
    ensures BacksOk(hosts', v.loc)
  {
  }

  lemma SendStatuses(c: Config, v: View, k: URLKey)
    requires StatusesOk(v.records, v.loc, c.wheelOn) && k in v.loc && v.loc[k] == AtBack
    ensures StatusesOk(v.records[k := v.records[k].(status := InFlight)], v.loc, c.wheelOn)
  {
  }

  lemma SendFlight(v: View, hk: uint64, hosts': map<uint64, Host>)
    requires Flight(v.records, v.hosts) && hk in v.hosts && !v.hosts[hk].inFlight && v.hosts[hk].back != []
    requires var k := v.hosts[hk].back[0]; k.host == hk && k in v.records
    requires hosts'.Keys == v.hosts.Keys && hosts'[hk].Fetching() && hosts'[hk].back == v.hosts[hk].back
    requires forall x <- hosts' :: x != hk ==> hosts'[x] == v.hosts[x]
    ensures var k := v.hosts[hk].back[0]; Flight(v.records[k := v.records[k].(status := InFlight)], hosts')
  {
    var k := v.hosts[hk].back[0];
    var records' := v.records[k := v.records[k].(status := InFlight)];
    forall x <- hosts' | hosts'[x].Fetching()
      ensures hosts'[x].back[0].host == x
      ensures hosts'[x].back[0] in records' && records'[hosts'[x].back[0]].status == InFlight
    {
    }
  }

  lemma SendCounted(c: Config, v: View, k: URLKey)
    requires Counted(v.records, v.sent, c.stateOn, c.wheelOn, c.robotsOn)
    requires k in v.records && v.records[k].status in {Scheduled, DueRecrawl}
    ensures Counted(v.records[k := v.records[k].(status := InFlight)], v.sent + multiset{k}, c.stateOn, c.wheelOn, c.robotsOn)
  {
  }

  // ---- report ----

  // What the answer makes of the URL's record: crawled, tombstoned, or queued for another try.
  ghost predicate Verdict(c: Config, old_: Record, new_: Record) {
    match new_.status
    case Crawled => new_.retry == 0
    case Gone => new_.retry <= MAX_RETRIES && (!c.stateOn ==> new_.retry == 0)
    case Scheduled => c.stateOn && new_.retry == old_.retry + 1 < MAX_RETRIES
    case _ => false
  }

  function Requeued(back: seq<URLKey>, status: Status): seq<URLKey>
    requires back != []
  {
    back[1..] + if status == Scheduled then [back[0]] else []
  }

  function AnsweredLoc(c: Config, loc: map<URLKey, Place>, k: URLKey, status: Status): map<URLKey, Place> {
    if status == Scheduled then loc
    else if status == Crawled && c.wheelOn then loc[k := AtWheel]
    else loc - {k}
  }

  function AnsweredHost(h: Host, status: Status, effective: nat): Host
    requires h.back != []
  {
    var back := Requeued(h.back, status);
    h.(back := back, inFlight := false, effective := effective, active := back != [])
  }

  ghost function AfterAnswer(c: Config, v: View, hk: uint64, r: Record, effective: nat): View
    requires hk in v.hosts && v.hosts[hk].back != []
  {
    var k := v.hosts[hk].back[0];
    var h := AnsweredHost(v.hosts[hk], r.status, effective);
    v.(records := v.records[k := r],
       hosts := v.hosts[hk := h],
       active := v.active - if h.active then 0 else 1,
       loc := AnsweredLoc(c, v.loc, k, r.status),
       trace := v.trace + [Done(hk)])
  }

  ghost predicate Answerable(v: View, hk: uint64) {
    && hk in v.hosts && v.hosts[hk].Fetching()
    && var k := v.hosts[hk].back[0];
       && k.host == hk && k in v.records && v.records[k].status == InFlight
       && k in v.loc && v.loc[k] == AtBack && multiset(v.hosts[hk].back)[k] == 1
  }

  lemma FetchingIsAnswerable(c: Config, v: View, hk: uint64)
    requires UrlPart(c, v.records, v.hosts, v.loc, v.sent) && hk in v.hosts && v.hosts[hk].Fetching()
    ensures Answerable(v, hk)
  {
    hide Counted;
    InBack(v, hk, v.hosts[hk].back[0]);
  }

  lemma Answer(c: Config, v: View, hk: uint64, r: Record, effective: nat)
    requires Inv(c, v, {}) && Answerable(v, hk) && Verdict(c, v.records[v.hosts[hk].back[0]], r)
    ensures var v' := AfterAnswer(c, v, hk, r, effective);
            Inv(c, v', if v'.hosts[hk].active then {hk} else {})
    ensures hk !in v.spot && hk !in v.stranded
  {
    hide HostPart, UrlPart, TracePart;
    AnswerHosts(c, v, hk, r, effective);
    AnswerUrls(c, v, hk, r, effective);
    AnswerTrace(c, v, hk, r, effective);
  }

  lemma AnswerHosts(c: Config, v: View, hk: uint64, r: Record, effective: nat)
    requires HostPart(c, v.hosts, v.active, v.spot, v.stranded, v.clock, {}) && hk in v.hosts && v.hosts[hk].Fetching()
    ensures var v' := AfterAnswer(c, v, hk, r, effective);
            HostPart(c, v'.hosts, v'.active, v.spot, v.stranded, v.clock, if v'.hosts[hk].active then {hk} else {})
    ensures hk !in v.spot && hk !in v.stranded
  {
    hide Requeued, AnsweredLoc, Actives, Timely;
    var h := v.hosts[hk];
    var h' := AnsweredHost(h, r.status, effective);
    assert HostOk(h, hk in v.spot, hk in v.stranded, c.robotsOn);
    assert HostOk(h', hk in v.spot, hk in v.stranded, c.robotsOn);
    hide HostOk;
    TimelySame(v, hk, h', c.resolverOn);
    ActiveNext(v.hosts, hk, h');
  }

  lemma TimelySame(v: View, hk: uint64, h: Host, resolverOn: bool)
    requires Timely(v.hosts, v.spot, v.clock, resolverOn) && hk in v.hosts
    requires h.hostNext == v.hosts[hk].hostNext && h.ip == v.hosts[hk].ip
    ensures Timely(v.hosts[hk := h], v.spot, v.clock, resolverOn)
  {
  }

  lemma ActiveNext(hosts: map<uint64, Host>, hk: uint64, h: Host)
    requires hk in hosts && hosts[hk].active
    ensures |Actives(hosts[hk := h])| == |Actives(hosts)| - if h.active then 0 else 1
  {
    if h.active {
      ActiveSame(hosts, hosts[hk := h]);
    } else {
      ActiveOff(hosts, hk, h);
    }
  }

  lemma AnswerTrace(c: Config, v: View, hk: uint64, r: Record, effective: nat)
    requires TracePart(v.trace, v.hosts, v.ips) && hk in v.hosts && v.hosts[hk].Fetching()
    ensures var v' := AfterAnswer(c, v, hk, r, effective); TracePart(v'.trace, v'.hosts, v.ips)
  {
    DoneTrace(v, hk, AnsweredHost(v.hosts[hk], r.status, effective));
  }

  lemma DoneTrace(v: View, hk: uint64, h: Host)
    requires TracePart(v.trace, v.hosts, v.ips) && hk in v.hosts && v.hosts[hk].inFlight
    requires !h.inFlight && h.hostNext == v.hosts[hk].hostNext
    ensures TracePart(v.trace + [Done(hk)], v.hosts[hk := h], v.ips)
  {
    hide Spaced, Windows, OneAtATime, OpenMatches;
    var hosts' := v.hosts[hk := h];
    DoneKeeps(v.trace, v.hosts, v.ips, hk);
    KeepWindows(v.trace + [Done(hk)], v.hosts, v.ips, hosts');
    StepOpen(v.trace, v.hosts, Done(hk), hosts');
  }

  lemma AnswerUrls(c: Config, v: View, hk: uint64, r: Record, effective: nat)
    requires UrlPart(c, v.records, v.hosts, v.loc, v.sent)
    requires Answerable(v, hk) && Verdict(c, v.records[v.hosts[hk].back[0]], r)
    ensures var v' := AfterAnswer(c, v, hk, r, effective); UrlPart(c, v'.records, v'.hosts, v'.loc, v'.sent)
  {
    hide BacksOk, StatusesOk, Flight, Counted;
    AnswerBacks(c, v, hk, r.status, AnsweredHost(v.hosts[hk], r.status, effective));
    AnswerStatuses(c, v, v.hosts[hk].back[0], r);
    AnswerFlight(v, hk, r, AnsweredHost(v.hosts[hk], r.status, effective));
    AnswerCounted(c, v, v.hosts[hk].back[0], r);
  }

  lemma AnswerBacks(c: Config, v: View, hk: uint64, status: Status, h: Host)
    requires BacksOk(v.hosts, v.loc) && hk in v.hosts && v.hosts[hk].back != [] && h.back == Requeued(v.hosts[hk].back, status)
    requires var k := v.hosts[hk].back[0];
             k.host == hk && k in v.loc && v.loc[k] == AtBack && multiset(v.hosts[hk].back)[k] == 1
    ensures BacksOk(v.hosts[hk := h], AnsweredLoc(c, v.loc, v.hosts[hk].back[0], status))
  {
    hide BackOk;
    var k := v.hosts[hk].back[0];
    var hosts' := v.hosts[hk := h];
    var loc' := AnsweredLoc(c, v.loc, k, status);
    forall x <- hosts'
      ensures BackOk(hosts'[x].back, x, loc')
    {
      if x == hk {
        AnswerBack(c, v.hosts[hk].back, v.loc, status);
      } else {
        SameBack(v.hosts[x].back, x, v.loc, loc', k);
      }
    }
  }

  lemma AnswerBack(c: Config, back: seq<URLKey>, loc: map<URLKey, Place>, status: Status)
    requires back != [] && BackOk(back, back[0].host, loc)
    requires back[0] in loc && loc[back[0]] == AtBack && multiset(back)[back[0]] == 1
    ensures BackOk(Requeued(back, status), back[0].host, AnsweredLoc(c, loc, back[0], status))
  {
    var k, loc' := back[0], AnsweredLoc(c, loc, back[0], status);
    assert back == [k] + back[1..];
    forall x
      ensures multiset(Requeued(back, status))[x] == if x.host == k.host then At(loc', AtBack, x) else 0
    {
      assert multiset(back)[x] == if x.host == k.host then At(loc, AtBack, x) else 0;
      assert multiset(back[1..])[x] == multiset(back)[x] - if x == k then 1 else 0;
    }
  }

  lemma AnswerStatuses(c: Config, v: View, k: URLKey, r: Record)
    requires StatusesOk(v.records, v.loc, c.wheelOn) && k in v.records && k in v.loc && v.loc[k] == AtBack
    requires r.status in {Crawled, Gone, Scheduled}
    ensures StatusesOk(v.records[k := r], AnsweredLoc(c, v.loc, k, r.status), c.wheelOn)
  {
  }

  lemma AnswerFlight(v: View, hk: uint64, r: Record, h: Host)
    requires Flight(v.records, v.hosts) && hk in v.hosts && v.hosts[hk].back != [] && v.hosts[hk].back[0].host == hk
    requires r.status != InFlight && !h.inFlight
    ensures Flight(v.records[v.hosts[hk].back[0] := r], v.hosts[hk := h])
  {
    var k := v.hosts[hk].back[0];
    var records', hosts' := v.records[k := r], v.hosts[hk := h];
    forall x <- hosts' | hosts'[x].Fetching()
      ensures hosts'[x].back[0].host == x
      ensures hosts'[x].back[0] in records' && records'[hosts'[x].back[0]].status == InFlight
    {
      assert hosts'[x] == v.hosts[x];
    }
  }

  lemma AnswerCounted(c: Config, v: View, k: URLKey, r: Record)
    requires Counted(v.records, v.sent, c.stateOn, c.wheelOn, c.robotsOn)
    requires k in v.records && v.records[k].status == InFlight && Verdict(c, v.records[k], r)
    ensures Counted(v.records[k := r], v.sent, c.stateOn, c.wheelOn, c.robotsOn)
  {
  }

  // ---- robots ----

  // filterRobots: what the rules leave of a back queue, in order.
  function Kept(back: seq<URLKey>, refused: set<URLKey>): (kept: seq<URLKey>)
  {
    if back == [] then []
    else Kept(back[..|back| - 1], refused) + if back[|back| - 1] !in refused then [back[|back| - 1]] else []
  }

  lemma {:induction false} KeptCount(back: seq<URLKey>, refused: set<URLKey>)
    ensures forall k :: multiset(Kept(back, refused))[k] == if k !in refused then multiset(back)[k] else 0
  {
    if back != [] {
      var n := |back| - 1;
      KeptCount(back[..n], refused);
      assert back == back[..n] + [back[n]];
    }
  }

  function Dropped(back: seq<URLKey>, refused: set<URLKey>): set<URLKey> {
    set k | k in back && k in refused
  }

  function ExcludeAll(records: map<URLKey, Record>, dropped: set<URLKey>): map<URLKey, Record> {
    map k | k in records :: if k in dropped then records[k].(status := Excluded) else records[k]
  }

  function RuledHost(h: Host, refused: set<URLKey>, crawlFloor: nat, expiry: nat): Host {
    h.(back := Kept(h.back, refused), inFlight := false, rules := RulesReady, refused := refused,
       crawlFloor := crawlFloor, rulesExpiry := expiry)
  }

  // The view after a robots.txt answer. A queue the rules empty strands its host: it stays
  // active, in no pool.
  ghost function AfterRobots(v: View, hk: uint64, refused: set<URLKey>, crawlFloor: nat, expiry: nat): View
    requires hk in v.hosts
  {
    var h := v.hosts[hk];
    var dropped := Dropped(h.back, refused);
    v.(records := ExcludeAll(v.records, dropped),
       hosts := v.hosts[hk := RuledHost(h, refused, crawlFloor, expiry)],
       stranded := if Kept(h.back, refused) == [] then v.stranded + {hk} else v.stranded,
       loc := v.loc - dropped,
       trace := v.trace + [Done(hk)])
  }

  lemma LearnRules(c: Config, v: View, hk: uint64, refused: set<URLKey>, crawlFloor: nat, expiry: nat)
    requires Inv(c, v, {}) && hk in v.hosts && v.hosts[hk].rules == RulesPending && c.robotsOn
    ensures var v' := AfterRobots(v, hk, refused, crawlFloor, expiry);
            Inv(c, v', if v'.hosts[hk].back == [] then {} else {hk})
    ensures v.hosts[hk].inFlight && hk !in v.spot && hk !in v.stranded
  {
    hide UrlPart, TracePart;
    assert HostOk(v.hosts[hk], hk in v.spot, hk in v.stranded, c.robotsOn);
    hide HostPart;
    RobotsHosts(c, v, hk, refused, crawlFloor, expiry);
    RobotsUrls(c, v, hk, refused, crawlFloor, expiry);
    hide Kept;
    DoneTrace(v, hk, RuledHost(v.hosts[hk], refused, crawlFloor, expiry));
  }

  lemma RobotsHosts(c: Config, v: View, hk: uint64, refused: set<URLKey>, crawlFloor: nat, expiry: nat)
    requires HostPart(c, v.hosts, v.active, v.spot, v.stranded, v.clock, {})
    requires hk in v.hosts && v.hosts[hk].rules == RulesPending && c.robotsOn
    ensures var v' := AfterRobots(v, hk, refused, crawlFloor, expiry);
            HostPart(c, v'.hosts, v.active, v.spot, v'.stranded, v.clock, if v'.hosts[hk].back == [] then {} else {hk})
  {
    hide Kept, ExcludeAll, Dropped;
    assert HostOk(v.hosts[hk], hk in v.spot, hk in v.stranded, c.robotsOn);
    ActiveSame(v.hosts, v.hosts[hk := RuledHost(v.hosts[hk], refused, crawlFloor, expiry)]);
  }

  lemma RobotsUrls(c: Config, v: View, hk: uint64, refused: set<URLKey>, crawlFloor: nat, expiry: nat)
    requires UrlPart(c, v.records, v.hosts, v.loc, v.sent)
    requires hk in v.hosts && v.hosts[hk].rules == RulesPending && c.robotsOn
    ensures var v' := AfterRobots(v, hk, refused, crawlFloor, expiry); UrlPart(c, v'.records, v'.hosts, v'.loc, v'.sent)
  {
    hide StatusesOk, Flight, Counted, Kept, ExcludeAll;
    var dropped := Dropped(v.hosts[hk].back, refused);
    forall k <- dropped
      ensures k.host == hk && k in v.loc && v.loc[k] == AtBack
    {
      InBack(v, hk, k);
    }
    hide Dropped, BacksOk;
    RobotsBacks(v, hk, refused, RuledHost(v.hosts[hk], refused, crawlFloor, expiry));
    RobotsRecords(c, v, hk, dropped, RuledHost(v.hosts[hk], refused, crawlFloor, expiry));
  }

  lemma RobotsBacks(v: View, hk: uint64, refused: set<URLKey>, h: Host)
    requires BacksOk(v.hosts, v.loc) && hk in v.hosts && h.back == Kept(v.hosts[hk].back, refused)
    requires forall k <- Dropped(v.hosts[hk].back, refused) :: k.host == hk
    ensures BacksOk(v.hosts[hk := h], v.loc - Dropped(v.hosts[hk].back, refused))
  {
    hide Kept;
    var dropped := Dropped(v.hosts[hk].back, refused);
    var hosts', loc' := v.hosts[hk := h], v.loc - dropped;
    forall x <- hosts'
      ensures BackOk(hosts'[x].back, x, loc')
    {
      KeptCount(v.hosts[hk].back, refused);
      forall k
        ensures multiset(hosts'[x].back)[k] == if k.host == x then At(loc', AtBack, k) else 0
      {
        assert BackOk(v.hosts[x].back, x, v.loc);
        assert multiset(v.hosts[x].back)[k] == if k.host == x then At(v.loc, AtBack, k) else 0;
        assert k in v.hosts[hk].back <==> multiset(v.hosts[hk].back)[k] > 0;
      }
    }
  }

  lemma RobotsRecords(c: Config, v: View, hk: uint64, dropped: set<URLKey>, h: Host)
    requires StatusesOk(v.records, v.loc, c.wheelOn) && Flight(v.records, v.hosts)
    requires Counted(v.records, v.sent, c.stateOn, c.wheelOn, c.robotsOn)
    requires hk in v.hosts && v.hosts[hk].rules == RulesPending && c.robotsOn && !h.inFlight
    requires forall k <- dropped :: k.host == hk && k in v.loc && v.loc[k] == AtBack
    ensures StatusesOk(ExcludeAll(v.records, dropped), v.loc - dropped, c.wheelOn)
    ensures Flight(ExcludeAll(v.records, dropped), v.hosts[hk := h])
    ensures Counted(ExcludeAll(v.records, dropped), v.sent, c.stateOn, c.wheelOn, c.robotsOn)
  {
    DroppedWaiting(c, v, hk, dropped);
    RobotsStatuses(c, v, dropped);
    RobotsFlight(v, hk, dropped, h);
    RobotsCounted(c, v, dropped);
  }

  lemma DroppedWaiting(c: Config, v: View, hk: uint64, dropped: set<URLKey>)
    requires StatusesOk(v.records, v.loc, c.wheelOn) && Flight(v.records, v.hosts)
    requires hk in v.hosts && v.hosts[hk].rules == RulesPending
    requires forall k <- dropped :: k.host == hk && k in v.loc && v.loc[k] == AtBack
    ensures forall k <- dropped :: k in v.records && v.records[k].status in {Scheduled, DueRecrawl}
  {
    forall k <- dropped
      ensures k in v.records && v.records[k].status in {Scheduled, DueRecrawl}
    {
      assert StatusOk(v.records[k].status, k, v.loc, c.wheelOn);
    }
  }

  lemma RobotsStatuses(c: Config, v: View, dropped: set<URLKey>)
    requires StatusesOk(v.records, v.loc, c.wheelOn)
    ensures StatusesOk(ExcludeAll(v.records, dropped), v.loc - dropped, c.wheelOn)
  {
  }

  lemma RobotsFlight(v: View, hk: uint64, dropped: set<URLKey>, h: Host)
    requires Flight(v.records, v.hosts) && hk in v.hosts && v.hosts[hk].rules == RulesPending && !h.inFlight
    requires forall k <- dropped :: k in v.records && v.records[k].status in {Scheduled, DueRecrawl}
    ensures Flight(ExcludeAll(v.records, dropped), v.hosts[hk := h])
  {
  }

  lemma RobotsCounted(c: Config, v: View, dropped: set<URLKey>)
    requires Counted(v.records, v.sent, c.stateOn, c.wheelOn, c.robotsOn) && c.robotsOn
    requires forall k <- dropped :: k in v.records && v.records[k].status in {Scheduled, DueRecrawl}
    ensures Counted(ExcludeAll(v.records, dropped), v.sent, c.stateOn, c.wheelOn, c.robotsOn)
  {
  }
}
