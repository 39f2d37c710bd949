// Whole runs of the frontier: any sequence of seeds, discoveries, dispatches and reports.
module FrontierRuns {
  import opened Wrappers
  import opened Bytes
  import opened Keys
  import opened Rings
  import opened FrontierState
  import opened FrontierSteps
  import opened Scheduler

  datatype Command =
    | Seed(key: URLKey, level: Level, firstSeen: nat, nextDue: nat, crawlFloor: nat)
    | Discover(key: URLKey, level: Level, admitted: bool, at: nat)
    | Dispatch(at: nat, shard: nat, fired: seq<URLKey>, lookup: uint64 -> Option<nat>)
    | Report(o: Outcome, at: nat)

  // The clock does not go back, the wheel fires only what it holds, and a report answers a request
  // that is out or names no known URL.
  predicate Lawful(f: Frontier, cmd: Command, now: nat)
    reads f
  {
    match cmd
    case Dispatch(at, _, fired, _) => now <= at && multiset(fired) <= f.wheel
    case Report(o, at) => now <= at && (f.Expected(o.key) || f.Unknown(o.key))
    case _ => true
  }

  // What a caller sees of a command: a discovery's verdict, the request that went out if any, and
  // whether a report was one that a host waited for.
  datatype Reply =
    | Seeded
    | Discovered(fresh_: bool)
    | Requested(req: Option<Request>)
    | Noted(expected: bool)

  predicate Emits(reply: Reply) {
    (reply.Requested? && reply.req.Some?) || (reply.Noted? && reply.expected)
  }

  // The event that a command and its reply stand for.
  ghost predicate Shows(cmd: Command, reply: Reply, e: Option<Event>) {
    match (cmd, reply)
    case (Seed(_, _, _, _, _), Seeded) => e.None?
    case (Discover(_, _, _, _), Discovered(_)) => e.None?
    case (Dispatch(at, _, _, _), Requested(req)) =>
      if req.None? then e.None?
      else e.Some? && e.value.Sent? && e.value.host == req.value.key.host && e.value.ip == req.value.ip && e.value.at == at
    case (Report(o, _), Noted(expected)) => e == if expected then Some(Done(o.key.host)) else None
    case _ => false
  }

  // One command takes the trace from t to t'.
  ghost predicate Extends(t: seq<Event>, t': seq<Event>, cmd: Command, reply: Reply) {
    if Emits(reply) then |t'| == |t| + 1 && t <= t' && Shows(cmd, reply, Some(t'[|t|]))
    else t' == t && Shows(cmd, reply, None)
  }

  // The events are those of the commands and their replies, in order.
  ghost predicate Explains(events: seq<Event>, cmds: seq<Command>, replies: seq<Reply>)
    requires |cmds| == |replies|
    decreases |cmds|
  {
    if cmds == [] then events == []
    else
      var n, m := |cmds| - 1, |events| - 1;
      if Emits(replies[n]) then
        m >= 0 && Shows(cmds[n], replies[n], Some(events[m])) && Explains(events[..m], cmds[..n], replies[..n])
      else Shows(cmds[n], replies[n], None) && Explains(events, cmds[..n], replies[..n])
  }

  lemma ExplainsNext(t: seq<Event>, t': seq<Event>, b: nat, cmds: seq<Command>, replies: seq<Reply>, n: nat, reply: Reply)
    requires b <= |t| && n == |replies| < |cmds| && Explains(t[b..], cmds[..n], replies) && Extends(t, t', cmds[n], reply)
    ensures b <= |t'| && Explains(t'[b..], cmds[..n + 1], replies + [reply])
  {
    assert cmds[..n + 1][..n] == cmds[..n] && (replies + [reply])[..n] == replies;
    if Emits(reply) {
      assert t'[b..][..|t| - b] == t[b..];
    }
  }

  // The latest instant a run has come to.
  function Latest(start: nat, cmds: seq<Command>): nat
    decreases |cmds|
  {
    if cmds == [] then start
    else
      match cmds[|cmds| - 1]
      case Dispatch(at, _, _, _) => at
      case Report(_, at) => at
      case _ => Latest(start, cmds[..|cmds| - 1])
  }

  lemma LatestNext(start: nat, cmds: seq<Command>, n: nat)
    requires n < |cmds|
    ensures Latest(start, cmds[..n + 1]) ==
      match cmds[n] case Dispatch(at, _, _, _) => at case Report(_, at) => at case _ => Latest(start, cmds[..n])
  {
    assert cmds[..n + 1][..n] == cmds[..n];
  }

  // No request ever spent less than the policy's floors, rounded down to whole seconds.
  ghost predicate AllPolite(pol: Policy, trace: seq<Event>) {
    forall i :: 0 <= i < |trace| && trace[i].Sent? ==>
      trace[i].step >= Secs(pol.floor) && trace[i].ipStep >= trace[i].step && trace[i].ipStep >= Secs(pol.ipFloor)
  }

  // A host is at most once in the ready bank or the wait heap, and never while a request is out.
  ghost predicate OneSlot(f: Frontier, hk: uint64)
    reads f
  {
    && BankItems(f.ready)[hk] <= 1
    && (forall it :: it in multiset(f.wait) && it.hostKey == hk ==> multiset(f.wait)[it] == 1 && BankItems(f.ready)[hk] == 0)
    && (forall it, jt :: it in multiset(f.wait) && jt in multiset(f.wait) && it.hostKey == hk == jt.hostKey ==> it == jt)
    && (hk in f.hosts && f.hosts[hk].inFlight ==>
          BankItems(f.ready)[hk] == 0 && forall it :: it in multiset(f.wait) ==> it.hostKey != hk)
  }

  lemma PoolOnce(f: Frontier, hk: uint64)
    requires f.Valid()
    ensures OneSlot(f, hk)
  {
    hide UrlPart, TracePart, Actives, Timely, ValidBank, BankItems, Holds, Ring.Valid, Ring.Items;
    assert BankItems(f.ready)[hk] == if hk in f.spot && f.spot[hk] == InReady then 1 else 0;
    forall it | it in multiset(f.wait) && it.hostKey == hk
      ensures hk in f.spot && f.spot[hk] == Parked(it.eligible) && multiset(f.wait)[it] == 1
    {
      assert multiset(f.wait)[it] == if it.hostKey in f.spot && f.spot[it.hostKey] == Parked(it.eligible) then 1 else 0;
    }
    if hk in f.spot {
      assert HostOk(f.hosts[hk], true, hk in f.stranded, f.c.robotsOn);
    }
  }

  // Copies of URL k over every queue: the front bank, its host's back queue and the wheel.
  ghost function Copies(f: Frontier, k: URLKey): nat
    reads f
  {
    f.urlFront.Items()[k] + f.wheel[k] + if k.host in f.hosts then multiset(f.hosts[k.host].back)[k] else 0
  }

  // Nothing is lost and nothing is queued twice: a URL that wants a fetch is in exactly one queue,
  // and one that wants none is in no queue, save for a crawled URL waiting in the wheel.
  lemma QueuedOnce(f: Frontier, k: URLKey)
    requires f.Valid() && k in f.records
    ensures Copies(f, k) ==
      match f.records[k].status
      case Scheduled => 1
      case DueRecrawl => 1
      case InFlight => 1
      case Crawled => if f.c.wheelOn then 1 else 0
      case _ => 0
  {
    hide HostPart, TracePart, Pools, Flight, Counted, Ring.Valid, Ring.Items;
    var loc := f.loc;
    assert f.urlFront.Items()[k] == At(loc, AtFront, k);
    assert f.wheel[k] == At(loc, AtWheel, k);
    assert StatusOk(f.records[k].status, k, loc, f.c.wheelOn);
    if k.host in f.hosts {
      assert BackOk(f.hosts[k.host].back, k.host, loc);
      assert multiset(f.hosts[k.host].back)[k] == At(loc, AtBack, k);
    }
  }

  // With robots off no host is ever stranded: an active host with nothing out is in a pool.
  lemma ActiveIsPooled(f: Frontier, hk: uint64)
    requires f.Valid() && hk in f.hosts && f.hosts[hk].active && !f.hosts[hk].inFlight
    ensures hk in f.spot || hk in f.stranded
    ensures !f.c.robotsOn ==> hk in f.spot && f.hosts[hk].back != []
  {
    hide UrlPart, TracePart, Pools, Actives, Timely, Holds, Ring.Valid, Ring.Items;
    assert HostOk(f.hosts[hk], hk in f.spot, hk in f.stranded, f.c.robotsOn);
    assert Settled(f.hosts[hk], hk in f.spot, hk in f.stranded);
  }

  // Some request closed this address's window until then.
  ghost predicate Closed(trace: seq<Event>, ip: nat, until: nat) {
    exists i :: 0 <= i < |trace| && trace[i].Sent? && trace[i].ip == ip && trace[i].at + trace[i].ipStep == until
  }

  // The per-IP table holds nothing but what requests spent.
  ghost predicate Realized(trace: seq<Event>, ips: map<nat, nat>) {
    0 !in ips && forall ip <- ips :: Closed(trace, ip, ips[ip])
  }

  ghost predicate NotBefore(trace: seq<Event>, n: nat, start: nat) {
    forall i :: n <= i < |trace| && trace[i].Sent? ==> trace[i].at >= start
  }

  // The run goes on: nothing is unsaid, and what goes out from now on is dated from now on.
  ghost predicate Onward(a: View, v: View, start: nat) {
    && a.trace <= v.trace && NotBefore(v.trace, |a.trace|, start)
    && (Realized(a.trace, a.ips) ==> Realized(v.trace, v.ips))
  }

  lemma ClosedLater(trace: seq<Event>, e: Event, ip: nat, until: nat)
    requires Closed(trace, ip, until)
    ensures Closed(trace + [e], ip, until)
  {
    var i :| 0 <= i < |trace| && trace[i].Sent? && trace[i].ip == ip && trace[i].at + trace[i].ipStep == until;
    assert (trace + [e])[i] == trace[i];
  }

  lemma OnwardQuiet(a: View, v: View, start: nat)
    requires v.trace == a.trace && v.ips == a.ips
    ensures Onward(a, v, start)
  {
  }

  lemma OnwardStep(a: View, v: View, e: Event, start: nat)
    requires v.trace == a.trace + [e] && (e.Sent? ==> e.at >= start)
    requires v.ips == if e.Sent? then Spent(a.ips, e) else a.ips
    ensures Onward(a, v, start)
  {
    if Realized(a.trace, a.ips) {
      forall ip <- v.ips
        ensures Closed(v.trace, ip, v.ips[ip])
      {
        if ip in a.ips && v.ips[ip] == a.ips[ip] {
          ClosedLater(a.trace, e, ip, a.ips[ip]);
        } else {
          assert v.trace[|a.trace|] == e;
        }
      }
    }
  }

  lemma OnwardTrans(a: View, b: View, d: View, start: nat, later: nat)
    requires Onward(a, b, start) && Onward(b, d, later) && start <= later
    ensures Onward(a, d, start)
  {
    assert forall i :: |a.trace| <= i < |b.trace| ==> d.trace[i] == b.trace[i];
  }

  lemma OnwardSent(c: Config, robotsPath: uint64, a: View, v: View, r: Request, now: nat)
    requires SentOne(c, robotsPath, a, v, r, now)
    ensures Onward(a, v, now)
  {
    var e :| v.trace == a.trace + [e] && Polite(c, e, v.hosts[r.key.host], r, now) && v.ips == Spent(a.ips, e);
    OnwardStep(a, v, e, now);
  }

  lemma OnwardAnswered(a: View, v: View, hk: uint64, start: nat)
    requires Answered(a, v, hk)
    ensures Onward(a, v, start)
  {
    OnwardStep(a, v, Done(hk), start);
  }

  method Apply(f: Frontier, cmd: Command, now: nat) returns (later: nat, reply: Reply)
    requires f.Valid() && Lawful(f, cmd, now) && f.clock <= now && AllPolite(f.c.pol, f.trace)
    modifies f
    ensures f.Valid() && f.clock <= later && now <= later && AllPolite(f.c.pol, f.trace)
    ensures later == match cmd case Dispatch(at, _, _, _) => at case Report(_, at) => at case _ => now
    ensures Onward(old(f.V()), f.V(), now) && Extends(old(f.trace), f.trace, cmd, reply)
  {
    hide Inv, Pools, Holds, Quiet, SentOne, Answered, Judged, Onward, AllPolite, Ring.Valid, Ring.Items;
    ghost var v := f.V();
    later := now;
    match cmd {
      case Seed(key, level, firstSeen, nextDue, crawlFloor) =>
        f.Seed(key, level, firstSeen, nextDue, crawlFloor);
        reply := Seeded;
        OnwardQuiet(v, f.V(), now);
      case Discover(key, level, admitted, at) =>
        var fresh_ := f.Discover(key, level, admitted, at);
        reply := Discovered(fresh_);
        OnwardQuiet(v, f.V(), now);
      case Dispatch(at, shard, fired, lookup) =>
        later := at;
        var req := f.DispatchShard(at, shard, fired, lookup);
        reply := Requested(req);
        if req.None? {
          QuietTrace(v, f.V());
          OnwardQuiet(v, f.V(), now);
        } else {
          PoliteTrace(f.c, f.robotsPath, v, f.V(), req.value, at);
          OnwardSent(f.c, f.robotsPath, v, f.V(), req.value, at);
          SentShows(f.c, f.robotsPath, v, f.V(), req.value, at, cmd);
          Earlier(v, f.V(), now, at);
        }
      case Report(o, at) =>
        later := at;
        var expected := f.Expected(o.key);
        f.Report(o, at);
        reply := Noted(expected);
        if expected {
          AnsweredTrace(f.c.pol, v, f.V(), o.key.host);
          OnwardAnswered(v, f.V(), o.key.host, now);
          AnsweredShows(v, f.V(), o, at);
        } else {
          OnwardQuiet(v, f.V(), now);
        }
    }
  }

  lemma SentShows(c: Config, robotsPath: uint64, a: View, v: View, r: Request, now: nat, cmd: Command)
    requires SentOne(c, robotsPath, a, v, r, now) && cmd.Dispatch? && cmd.at == now
    ensures Extends(a.trace, v.trace, cmd, Requested(Some(r)))
  {
  }

  lemma AnsweredShows(a: View, v: View, o: Outcome, at: nat)
    requires Answered(a, v, o.key.host)
    ensures Extends(a.trace, v.trace, Report(o, at), Noted(true))
  {
  }

  lemma Earlier(a: View, v: View, start: nat, later: nat)
    requires Onward(a, v, later) && start <= later
    ensures Onward(a, v, start)
  {
  }

  lemma QuietTrace(v: View, v': View)
    requires Quiet(v, v')
    ensures v'.trace == v.trace && v'.ips == v.ips
  {
  }

  lemma PoliteTrace(c: Config, robotsPath: uint64, v: View, v': View, r: Request, now: nat)
    requires AllPolite(c.pol, v.trace) && SentOne(c, robotsPath, v, v', r, now)
    ensures AllPolite(c.pol, v'.trace) && v.trace <= v'.trace
  {
  }

  lemma AnsweredTrace(pol: Policy, v: View, v': View, hk: uint64)
    requires AllPolite(pol, v.trace) && Answered(v, v', hk)
    ensures AllPolite(pol, v'.trace) && v.trace <= v'.trace
  {
  }

  // Every run is safe. It takes the commands up to the first unlawful one, and what it adds to the
  // trace is exactly the requests it returned and the reports that were expected, in order. A host has
  // at most one request out at every moment, two requests to one host, or to one resolved address, are
  // apart by the step the first one spent, and no step is below the policy's floors in whole seconds.
  method Run(f: Frontier, start: nat, cmds: seq<Command>) returns (replies: seq<Reply>)
    requires f.Valid() && f.clock <= start && AllPolite(f.c.pol, f.trace)
    modifies f
    ensures f.Valid() && old(f.trace) <= f.trace && |replies| <= |cmds|
    ensures Explains(f.trace[|old(f.trace)|..], cmds[..|replies|], replies)
    ensures |replies| < |cmds| ==> !Lawful(f, cmds[|replies|], Latest(start, cmds[..|replies|]))
    ensures NotBefore(f.trace, |old(f.trace)|, start)
    ensures Spaced(f.trace) && OneAtATime(f.trace) && AllPolite(f.c.pol, f.trace)
    ensures old(Realized(f.trace, f.ips)) ==> Realized(f.trace, f.ips)
  {
    hide HostPart, UrlPart, Parks, Pools, Holds, Ring.Valid, Ring.Items, Spaced, OneAtATime, Windows, OpenMatches, Lawful, AllPolite, Realized,
      Explains, Extends, Latest;
    var now := start;
    replies := [];
    OnwardQuiet(f.V(), f.V(), start);
    NothingSaid(start, f.trace);
    while |replies| < |cmds|
      invariant f.Valid() && f.clock <= now && start <= now && AllPolite(f.c.pol, f.trace)
      invariant Onward(old(f.V()), f.V(), start) && |replies| <= |cmds|
      invariant Explains(f.trace[|old(f.trace)|..], cmds[..|replies|], replies) && now == Latest(start, cmds[..|replies|])
      decreases |cmds| - |replies|
    {
      var n := |replies|;
      if !Lawful(f, cmds[n], now) {
        return;
      }
      ghost var v := f.V();
      var later, reply := Apply(f, cmds[n], now);
      OnwardTrans(old(f.V()), v, f.V(), start, now);
      ExplainsNext(v.trace, f.trace, |old(f.trace)|, cmds, replies, n, reply);
      LatestNext(start, cmds, n);
      now, replies := later, replies + [reply];
    }
  }

  lemma NothingSaid(start: nat, trace: seq<Event>)
    ensures Explains(trace[|trace|..], [], []) && Latest(start, []) == start
  {
  }
}
