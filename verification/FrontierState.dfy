// The state of frontier/frontier.go as values, the invariants every operation keeps, and the
// lemmas that say how one update moves each of them.
module FrontierState {
  import opened Wrappers
  import opened Bytes
  import opened Keys
  import opened Rings
  import opened MinHeap

  type Level = b: nat | b < LEVELS

  // URLStatus, without the two values the frontier never assigns (Discovered and Ready).
  datatype Status = Scheduled | InFlight | Crawled | DueRecrawl | Gone | Excluded | Trapped

  datatype Record = Record(status: Status, level: Level, retry: nat)

  datatype Rules = RulesNone | RulesPending | RulesReady

  // hostEntry: the fields the scheduler reads. ip 0 is the unresolved address.
  datatype Host = Host(back: seq<URLKey>, inFlight: bool, active: bool,
                       hostNext: nat, ip: nat, ipExpiry: nat, effective: nat, crawlFloor: nat,
                       rules: Rules, rulesExpiry: nat, refused: set<URLKey>)
  {
    // A content URL, the head of the back queue, is out.
    predicate Fetching() {
      inFlight && rules != RulesPending && back != []
    }
  }

  datatype WaitItem = WaitItem(hostKey: uint64, eligible: nat)

  // waitHeap.less: by eligible time, then by host key.
  function Rank(it: WaitItem): nat {
    it.eligible * TWO_64 + it.hostKey
  }

  // ---- politeness ----

  const SECOND: nat := 1_000_000_000

  // Durations are in nanoseconds.
  datatype Policy = Policy(baseline: nat, floor: nat, ceiling: nat, ipFloor: nat)

  function Max(a: nat, b: nat): nat {
    if a < b then b else a
  }

  function Clamp(d: nat, lo: nat, hi: nat): nat {
    var top := if hi < lo then lo else hi;
    if d < lo then lo else if d > top then top else d
  }

  function HostInterval(p: Policy, adaptive: nat, crawlDelay: nat): (d: nat)
    ensures p.floor <= d && crawlDelay <= d
    ensures d <= Max(p.ceiling, Max(p.floor, crawlDelay))
  {
    Clamp(adaptive, Max(p.floor, crawlDelay), p.ceiling)
  }

  // durSecs: whole seconds, at least one.
  function Secs(d: nat): (s: nat)
    ensures s >= 1 && s >= d / SECOND
  {
    if d / SECOND == 0 then 1 else d / SECOND
  }

  function IpNext(ips: map<nat, nat>, ip: nat): nat {
    if ip == 0 || ip !in ips then 0 else ips[ip]
  }

  // eligibleNow: the later of the host's own window and its address's.
  function Eligible(h: Host, ips: map<nat, nat>): nat {
    Max(h.hostNext, IpNext(ips, h.ip))
  }

  // ---- what has gone out ----

  datatype Event =
    | Sent(host: uint64, ip: nat, at: nat, step: nat, ipStep: nat)
    | Done(host: uint64)

  // Two requests to one host are apart by the step the first one spent, and two requests to one
  // resolved address by its step.
  ghost predicate Spaced(trace: seq<Event>) {
    forall i, j :: 0 <= i < j < |trace| && trace[i].Sent? && trace[j].Sent? ==> Apart(trace[i], trace[j])
  }

  ghost predicate Apart(a: Event, b: Event)
    requires a.Sent? && b.Sent?
  {
    && (a.host == b.host ==> a.at + a.step <= b.at)
    && (a.ip != 0 && a.ip == b.ip ==> a.at + a.ipStep <= b.at)
  }

  // The open windows remember every request.
  ghost predicate Windows(trace: seq<Event>, hosts: map<uint64, Host>, ips: map<nat, nat>) {
    forall i :: 0 <= i < |trace| && trace[i].Sent? ==> Covered(trace[i], hosts, ips)
  }

  ghost predicate Covered(e: Event, hosts: map<uint64, Host>, ips: map<nat, nat>)
    requires e.Sent?
  {
    && e.host in hosts && e.at + e.step <= hosts[e.host].hostNext
    && (e.ip != 0 ==> e.ip in ips && e.at + e.ipStep <= ips[e.ip])
  }

  // Requests to host h not yet answered.
  ghost function Open(trace: seq<Event>, h: uint64): int {
    if trace == [] then 0
    else Open(trace[..|trace| - 1], h) + Weight(trace[|trace| - 1], h)
  }

  ghost function Weight(e: Event, h: uint64): int {
    if e.host != h then 0 else if e.Sent? then 1 else -1
  }

  // At every moment of the run every host has at most one request out.
  ghost predicate OneAtATime(trace: seq<Event>) {
    forall n, h: uint64 :: 0 <= n <= |trace| ==> 0 <= Open(trace[..n], h) <= 1
  }

  ghost predicate OpenMatches(trace: seq<Event>, hosts: map<uint64, Host>) {
    forall h: uint64 :: Open(trace, h) == if h in hosts && hosts[h].inFlight then 1 else 0
  }

  // ---- pools ----

  datatype Spot = InReady | Parked(until: nat)

  // spot says where each pooled host is; the ready bank and the wait heap hold exactly that.
  ghost predicate Pools(ready: seq<Ring<nat>>, wait: seq<WaitItem>, spot: map<uint64, Spot>) {
    && ValidBank(ready) && |ready| > 0 && IsHeap(wait, Rank)
    && ReadyHolds(BankItems(ready), spot) && WaitHolds(multiset(wait), spot)
  }

  ghost predicate ReadyHolds(items: multiset<nat>, spot: map<uint64, Spot>) {
    && (forall hk: uint64 :: items[hk] == if hk in spot && spot[hk] == InReady then 1 else 0)
    && (forall hk: nat :: hk in items ==> hk < TWO_64)
  }

  ghost predicate WaitHolds(items: multiset<WaitItem>, spot: map<uint64, Spot>) {
    forall it :: items[it] == if it.hostKey in spot && spot[it.hostKey] == Parked(it.eligible) then 1 else 0
  }

  // ---- hosts ----

  ghost predicate HostOk(h: Host, pooled: bool, stray: bool, robotsOn: bool) {
    && (pooled ==> h.active && !h.inFlight && h.back != [])
    && (h.inFlight ==> h.active && h.back != [])
    && (h.rules == RulesPending ==> h.inFlight)
    && (!h.active ==> h.back == [])
    && (stray ==> h.active && !h.inFlight && !pooled)
    && (!robotsOn ==> h.rules == RulesNone && !stray)
  }

  // A host with work and nothing out waits in a pool.
  ghost predicate Settled(h: Host, pooled: bool, stray: bool) {
    h.active && !h.inFlight && !stray ==> pooled
  }

  // but is the host being moved, if any.
  ghost predicate HostsOk(hosts: map<uint64, Host>, spot: map<uint64, Spot>, stranded: set<uint64>,
                          but: set<uint64>, robotsOn: bool) {
    && spot.Keys <= hosts.Keys && stranded <= hosts.Keys
    && (forall hk <- hosts :: HostOk(hosts[hk], hk in spot, hk in stranded, robotsOn))
    && (forall hk <- hosts :: hk !in but ==> Settled(hosts[hk], hk in spot, hk in stranded))
  }

  ghost function Actives(hosts: map<uint64, Host>): set<uint64> {
    set hk | hk in hosts && hosts[hk].active
  }

  // With no resolver, ready hosts are due and parked hosts wait exactly for their own window.
  ghost predicate Timely(hosts: map<uint64, Host>, spot: map<uint64, Spot>, clock: nat, resolverOn: bool) {
    !resolverOn ==>
      && (forall hk <- hosts :: hosts[hk].ip == 0)
      && (forall hk <- spot :: hk in hosts && match spot[hk]
            case InReady => hosts[hk].hostNext <= clock
            case Parked(until) => until == hosts[hk].hostNext)
  }

  // A parked host waits for nothing but its own window and its address's.
  ghost predicate Parks(hosts: map<uint64, Host>, ips: map<nat, nat>, spot: map<uint64, Spot>) {
    forall hk <- spot :: hk in hosts && (spot[hk].Parked? ==> spot[hk].until <= Eligible(hosts[hk], ips))
  }

  // ---- URLs ----

  datatype Place = AtFront | AtBack | AtWheel

  ghost function At(loc: map<URLKey, Place>, p: Place, k: URLKey): nat {
    if k in loc && loc[k] == p then 1 else 0
  }

  // A queue holds exactly the URLs loc puts there, once each.
  ghost predicate Holds(q: multiset<URLKey>, loc: map<URLKey, Place>, p: Place) {
    forall k :: q[k] == At(loc, p, k)
  }

  ghost predicate BackOk(back: seq<URLKey>, hk: uint64, loc: map<URLKey, Place>) {
    forall k :: multiset(back)[k] == if k.host == hk then At(loc, AtBack, k) else 0
  }

  ghost predicate BacksOk(hosts: map<uint64, Host>, loc: map<URLKey, Place>) {
    && (forall hk <- hosts :: BackOk(hosts[hk].back, hk, loc))
    && (forall k <- loc :: loc[k] != AtWheel ==> k.host in hosts)
  }

  // Where a URL of a given status may be.
  ghost predicate StatusOk(s: Status, k: URLKey, loc: map<URLKey, Place>, wheelOn: bool) {
    match s
    case Scheduled => k in loc
    case DueRecrawl => k in loc && wheelOn
    case InFlight => k in loc && loc[k] == AtBack
    case Crawled => if wheelOn then k in loc && loc[k] == AtWheel else k !in loc
    case _ => k !in loc
  }

  ghost predicate StatusesOk(records: map<URLKey, Record>, loc: map<URLKey, Place>, wheelOn: bool) {
    && loc.Keys <= records.Keys
    && (forall k <- records :: StatusOk(records[k].status, k, loc, wheelOn))
  }

  ghost predicate Flight(records: map<URLKey, Record>, hosts: map<uint64, Host>) {
    && (forall hk <- hosts :: hosts[hk].Fetching() ==>
          hosts[hk].back[0].host == hk && hosts[hk].back[0] in records && records[hosts[hk].back[0]].status == InFlight)
    && (forall k <- records :: records[k].status == InFlight ==>
          k.host in hosts && hosts[k.host].Fetching() && hosts[k.host].back[0] == k)
  }

  const MAX_RETRIES: nat := 5

  // How often a URL has been sent, by its status. n counts content requests.
  ghost predicate Tally(r: Record, n: nat, stateOn: bool) {
    match r.status
    case Scheduled => n == r.retry
    case InFlight => n == r.retry + 1
    case Crawled => 1 <= n <= if stateOn then MAX_RETRIES else 1
    case Gone => 1 <= n <= if stateOn then MAX_RETRIES else 1
    case Excluded => n == r.retry
    case Trapped => n == 0
    case DueRecrawl => false
  }

  ghost predicate RetryOk(r: Record, stateOn: bool) {
    && r.retry <= MAX_RETRIES && (r.status != Gone ==> r.retry < MAX_RETRIES)
    && (!stateOn ==> r.retry == 0)
  }

  ghost predicate Counted(records: map<URLKey, Record>, sent: multiset<URLKey>, stateOn: bool, wheelOn: bool,
                          robotsOn: bool) {
    && (forall k :: k in sent ==> k in records)
    && (!robotsOn ==> forall k <- records :: records[k].status != Excluded)
    && (forall k <- records :: RetryOk(records[k], stateOn))
    && (!wheelOn ==> forall k <- records :: Tally(records[k], sent[k], stateOn))
  }

  // ---- lemmas ----

  lemma ParksSame(hosts: map<uint64, Host>, hosts': map<uint64, Host>, ips: map<nat, nat>, spot: map<uint64, Spot>)
    requires Parks(hosts, ips, spot) && hosts.Keys <= hosts'.Keys
    requires forall hk <- spot :: hk in hosts && hosts'[hk].hostNext == hosts[hk].hostNext && hosts'[hk].ip == hosts[hk].ip
    ensures Parks(hosts', ips, spot)
  {
  }

  lemma SendApart(trace: seq<Event>, hosts: map<uint64, Host>, ips: map<nat, nat>, e: Event)
    requires Spaced(trace) && Windows(trace, hosts, ips) && e.Sent? && e.host in hosts
    requires hosts[e.host].hostNext <= e.at && IpNext(ips, e.ip) <= e.at
    ensures Spaced(trace + [e])
  {
    var t := trace + [e];
    forall i, j | 0 <= i < j < |t| && t[i].Sent? && t[j].Sent?
      ensures Apart(t[i], t[j])
    {
      if j == |trace| {
        assert Covered(trace[i], hosts, ips);
      } else {
        assert t[i] == trace[i] && t[j] == trace[j];
      }
    }
  }

  lemma SendWindows(trace: seq<Event>, hosts: map<uint64, Host>, ips: map<nat, nat>, e: Event,
                    hosts': map<uint64, Host>, ips': map<nat, nat>)
    requires Windows(trace, hosts, ips) && e.Sent? && e.host in hosts
    requires hosts[e.host].hostNext <= e.at && IpNext(ips, e.ip) <= e.at
    requires hosts'.Keys == hosts.Keys && hosts'[e.host].hostNext == e.at + e.step
    requires forall hk <- hosts :: hk != e.host ==> hosts'[hk].hostNext == hosts[hk].hostNext
    requires ips' == if e.ip == 0 then ips else ips[e.ip := e.at + e.ipStep]
    ensures Windows(trace + [e], hosts', ips')
  {
    var t := trace + [e];
    forall i | 0 <= i < |t| && t[i].Sent?
      ensures Covered(t[i], hosts', ips')
    {
      if i < |trace| {
        assert t[i] == trace[i] && Covered(trace[i], hosts, ips);
      }
    }
  }

  // Windows survive any change that lets no window shrink.
  lemma KeepWindows(trace: seq<Event>, hosts: map<uint64, Host>, ips: map<nat, nat>, hosts': map<uint64, Host>)
    requires Windows(trace, hosts, ips) && hosts.Keys <= hosts'.Keys
    requires forall hk <- hosts :: hosts'[hk].hostNext == hosts[hk].hostNext
    ensures Windows(trace, hosts', ips)
  {
    forall i | 0 <= i < |trace| && trace[i].Sent?
      ensures Covered(trace[i], hosts', ips)
    {
      assert Covered(trace[i], hosts, ips);
    }
  }

  lemma DoneKeeps(trace: seq<Event>, hosts: map<uint64, Host>, ips: map<nat, nat>, hk: uint64)
    requires Spaced(trace) && Windows(trace, hosts, ips)
    ensures Spaced(trace + [Done(hk)]) && Windows(trace + [Done(hk)], hosts, ips)
  {
    var t := trace + [Done(hk)];
    assert forall i :: 0 <= i < |trace| ==> t[i] == trace[i];
  }

  lemma OpenAppend(trace: seq<Event>, e: Event)
    ensures forall h: uint64 :: Open(trace + [e], h) == Open(trace, h) + Weight(e, h)
  {
    assert (trace + [e])[..|trace|] == trace;
  }

  // Sending to an idle host and answering a busy one keep the alternation.
  lemma StepOpen(trace: seq<Event>, hosts: map<uint64, Host>, e: Event, hosts': map<uint64, Host>)
    requires OneAtATime(trace) && OpenMatches(trace, hosts) && e.host in hosts
    requires hosts[e.host].inFlight == e.Done?
    requires hosts'.Keys == hosts.Keys && hosts'[e.host].inFlight == e.Sent?
    requires forall hk <- hosts :: hk != e.host ==> hosts'[hk].inFlight == hosts[hk].inFlight
    ensures OneAtATime(trace + [e]) && OpenMatches(trace + [e], hosts')
  {
    OpenAppend(trace, e);
    var t := trace + [e];
    forall n, h: uint64 | 0 <= n <= |t|
      ensures 0 <= Open(t[..n], h) <= 1
    {
      if n <= |trace| {
        assert t[..n] == trace[..n];
      } else {
        assert t[..n] == t;
        assert Open(t, h) == Open(trace, h) + Weight(e, h);
        assert Open(trace, h) == if h in hosts && hosts[h].inFlight then 1 else 0;
      }
    }
    forall h: uint64
      ensures Open(t, h) == if h in hosts' && hosts'[h].inFlight then 1 else 0
    {
      assert Open(trace, h) == if h in hosts && hosts[h].inFlight then 1 else 0;
    }
  }

  lemma ActiveSame(hosts: map<uint64, Host>, hosts': map<uint64, Host>)
    requires hosts.Keys <= hosts'.Keys
    requires forall hk <- hosts' :: hosts'[hk].active <==> hk in hosts && hosts[hk].active
    ensures Actives(hosts') == Actives(hosts)
  {
  }

  lemma ActiveOn(hosts: map<uint64, Host>, hk: uint64, h: Host)
    requires hk in hosts && !hosts[hk].active && h.active
    ensures |Actives(hosts[hk := h])| == |Actives(hosts)| + 1
  {
    assert Actives(hosts[hk := h]) == Actives(hosts) + {hk};
  }

  lemma ActiveOff(hosts: map<uint64, Host>, hk: uint64, h: Host)
    requires hk in hosts && hosts[hk].active && !h.active
    ensures |Actives(hosts[hk := h])| == |Actives(hosts)| - 1
  {
    assert Actives(hosts[hk := h]) == Actives(hosts) - {hk};
    assert hk in Actives(hosts);
  }

  // A URL in no queue that joins one.
  lemma JoinQueue(q: multiset<URLKey>, loc: map<URLKey, Place>, p: Place, k: URLKey)
    requires Holds(q, loc, p) && k !in loc
    ensures Holds(q + multiset{k}, loc[k := p], p)
  {
  }

  lemma LeaveQueue(q: multiset<URLKey>, loc: map<URLKey, Place>, p: Place, k: URLKey)
    requires Holds(q + multiset{k}, loc, p)
    ensures k in loc && loc[k] == p && Holds(q, loc - {k}, p)
  {
    assert (q + multiset{k})[k] == At(loc, p, k);
    forall x
      ensures q[x] == At(loc - {k}, p, x)
    {
      assert (q + multiset{k})[x] == At(loc, p, x);
    }
  }

  // A move elsewhere does not disturb a queue.
  lemma OtherQueue(q: multiset<URLKey>, loc: map<URLKey, Place>, loc': map<URLKey, Place>, p: Place, k: URLKey)
    requires Holds(q, loc, p) && At(loc, p, k) == At(loc', p, k)
    requires forall x :: x != k ==> At(loc', p, x) == At(loc, p, x)
    ensures Holds(q, loc', p)
  {
    forall x
      ensures q[x] == At(loc', p, x)
    {
      assert q[x] == At(loc, p, x);
    }
  }
}
