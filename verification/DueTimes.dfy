// The scheduler with its timing wheel: what the wheel fires at an hour is what the scheduler promotes.
// Scheduler leaves open which URLs are due; here the wheel of frontier/wheel.go says so.
module DueTimes {
  import opened Wrappers
  import opened Bytes
  import opened Keys
  import opened Rings
  import opened FrontierState
  import opened FrontierSteps
  import opened Scheduler
  import Wheel

  // The wheel waits to fire exactly these keys, each once, at these hours.
  ghost predicate Lists(pending: multiset<Wheel.OverItem<URLKey>>, due: map<URLKey, nat>) {
    forall it :: pending[it] == if it.key in due && due[it.key] == it.due then 1 else 0
  }

  // The scheduler counts the same keys as waiting.
  ghost predicate Joined(f: Frontier, w: Wheel.DueWheel<URLKey>, due: map<URLKey, nat>)
    reads f, w, w.ring
  {
    && f.Valid() && f.c.wheelOn && w.Valid() && Lists(w.Pending(), due)
    && forall k :: f.wheel[k] == if k in due then 1 else 0
  }

  method NewTimed(c: Config, shards: nat, robotsPath: uint64, created: nat) returns (f: Frontier, w: Wheel.DueWheel<URLKey>)
    requires c.wheelOn && created <= Wheel.MAX_HOUR
    ensures fresh(f) && fresh(w) && fresh(w.ring) && f.c == c && Joined(f, w, map[])
  {
    hide Inv, Pools, Holds, Wheel.DueWheel.OverFrom, Wheel.DueWheel.RingItems, Wheel.DueWheel.Pending;
    f := new Frontier(c, shards, robotsPath);
    w := new Wheel.DueWheel(created);
    WheelPlaces(f);
  }

  ghost function Later(due: map<URLKey, nat>, hour: nat): map<URLKey, nat> {
    map k | k in due && due[k] > hour :: due[k]
  }

  lemma {:induction false} FiredOnce(log: seq<Wheel.OverItem<URLKey>>, due: map<URLKey, nat>)
    requires forall it :: multiset(log)[it] <= if it.key in due && due[it.key] == it.due then 1 else 0
    ensures forall k :: multiset(Wheel.Keys(log))[k] == if k in due then multiset(log)[Wheel.OverItem(due[k], k)] else 0
  {
    if log != [] {
      var n := |log| - 1;
      assert log == log[..n] + [log[n]];
      assert multiset(log) == multiset(log[..n]) + multiset{log[n]};
      assert Wheel.Keys(log) == Wheel.Keys(log[..n]) + [log[n].key];
      FiredOnce(log[..n], due);
      assert multiset(log)[log[n]] >= 1;
    }
  }

  // What has fired is what was due, and what is left is the rest.
  lemma FiredIsDue(log: seq<Wheel.OverItem<URLKey>>, was: multiset<Wheel.OverItem<URLKey>>, left: multiset<Wheel.OverItem<URLKey>>,
                   due: map<URLKey, nat>, hour: nat)
    requires Lists(was, due) && was == multiset(log) + left
    requires (forall it :: it in multiset(log) ==> it.due <= hour) && forall it :: it in left ==> it.due > hour
    ensures Lists(left, Later(due, hour))
    ensures forall k :: multiset(Wheel.Keys(log))[k] == if k in due && due[k] <= hour then 1 else 0
  {
    forall it
      ensures multiset(log)[it] == if it.due <= hour then was[it] else 0
      ensures left[it] == if it.due > hour then was[it] else 0
    {
      assert was[it] == multiset(log)[it] + left[it];
    }
    FiredOnce(log, due);
  }

  // A dispatch at now promotes exactly the URLs due by its hour: they are out of the wheel and crawled no
  // more, and all others wait in it as before.
  method DispatchDue(f: Frontier, w: Wheel.DueWheel<URLKey>, ghost due: map<URLKey, nat>, now: nat, shard: nat,
                     lookup: uint64 -> Option<nat>)
    returns (req: Option<Request>)
    requires Joined(f, w, due) && f.clock <= now && now / 3600 <= Wheel.MAX_HOUR
    modifies f, w, w.ring
    ensures Joined(f, w, Later(due, now / 3600)) && f.clock == now
    ensures forall k <- due :: k in f.records && (due[k] > now / 3600 <==> k in f.loc && f.loc[k] == AtWheel)
    ensures forall k <- due :: due[k] <= now / 3600 ==> f.records[k].status != Crawled
    ensures req.None? ==> Quiet(old(f.V()), f.V()) && f.Blocked(now)
    ensures req.Some? ==> SentOne(f.c, f.robotsPath, old(f.V()), f.V(), req.value, now)
  {
    hide Inv, Frontier.Structs, Quiet, SentOne, Addressed, Frontier.Blocked, Lists, Later,
      Wheel.DueWheel.OverFrom, Wheel.DueWheel.RingItems, Wheel.DueWheel.Pending;
    WheelKnown(f, due);
    var fired := Fire(w, due, now / 3600);
    FiredFits(f.wheel, fired, due, now / 3600);
    ghost var v := f.V();
    req := f.DispatchShard(now, shard, fired, lookup);
    SameRecords(v, f.V(), lookup);
    Promoted(f, due, now / 3600);
  }

  method Fire(w: Wheel.DueWheel<URLKey>, ghost due: map<URLKey, nat>, hour: nat) returns (fired: seq<URLKey>)
    requires w.Valid() && Lists(w.Pending(), due) && hour <= Wheel.MAX_HOUR
    modifies w, w.ring
    ensures w.Valid() && Lists(w.Pending(), Later(due, hour))
    ensures forall k :: multiset(fired)[k] == if k in due && due[k] <= hour then 1 else 0
  {
    hide Lists, Wheel.DueWheel.OverFrom, Wheel.DueWheel.RingItems, Wheel.DueWheel.Pending;
    ghost var was := w.Pending();
    ghost var log;
    fired, log := w.FireDue(hour);
    FiredIsDue(log, was, w.Pending(), due, hour);
  }

  lemma FiredFits(wheel: multiset<URLKey>, fired: seq<URLKey>, due: map<URLKey, nat>, hour: nat)
    requires forall k :: wheel[k] == if k in due then 1 else 0
    requires forall k :: multiset(fired)[k] == if k in due && due[k] <= hour then 1 else 0
    ensures multiset(fired) <= wheel
    ensures forall k :: (wheel - multiset(fired))[k] == if k in Later(due, hour) then 1 else 0
  {
  }

  lemma Promoted(f: Frontier, due: map<URLKey, nat>, hour: nat)
    requires f.Valid() && f.c.wheelOn && forall k :: f.wheel[k] == if k in Later(due, hour) then 1 else 0
    requires forall k <- due :: k in f.records
    ensures forall k <- due :: due[k] > hour <==> k in f.loc && f.loc[k] == AtWheel
    ensures forall k <- due :: due[k] <= hour ==> f.records[k].status != Crawled
  {
    hide Inv, Frontier.Structs;
    WheelPlaces(f);
  }

  lemma SameRecords(v: View, v': View, lookup: uint64 -> Option<nat>)
    requires Addressed(v, v', lookup)
    ensures v'.records.Keys == v.records.Keys
  {
  }

  lemma WheelKnown(f: Frontier, due: map<URLKey, nat>)
    requires f.Valid() && forall k :: f.wheel[k] == if k in due then 1 else 0
    ensures forall k <- due :: k in f.records
  {
    hide HostPart, TracePart, Parks, Pools, BacksOk, Flight, Counted, Ring.Valid, Ring.Items;
    forall k <- due
      ensures k in f.records
    {
      assert f.wheel[k] == At(f.loc, AtWheel, k);
    }
  }

  // The wheel holds the URLs placed there, every crawled one among them.
  lemma WheelPlaces(f: Frontier)
    requires f.Valid() && f.c.wheelOn
    ensures forall k :: f.wheel[k] == if k in f.loc && f.loc[k] == AtWheel then 1 else 0
    ensures forall k <- f.records :: f.records[k].status == Crawled ==> f.wheel[k] == 1
  {
    hide HostPart, TracePart, Parks, Pools, BacksOk, Flight, Counted, Ring.Valid, Ring.Items;
    forall k
      ensures f.wheel[k] == if k in f.loc && f.loc[k] == AtWheel then 1 else 0
    {
      assert f.wheel[k] == At(f.loc, AtWheel, k);
    }
    forall k <- f.records | f.records[k].status == Crawled
      ensures f.wheel[k] == 1
    {
      assert StatusOk(f.records[k].status, k, f.loc, f.c.wheelOn);
    }
  }

  lemma OneMoreDue(pending: multiset<Wheel.OverItem<URLKey>>, due: map<URLKey, nat>, k: URLKey, hour: nat)
    requires Lists(pending, due) && k !in due
    ensures Lists(pending + multiset{Wheel.OverItem(hour, k)}, due[k := hour])
  {
  }

  // The hour at which a key filed now will fire.
  function FiredAt(cursor: nat, hour: nat): nat {
    if hour <= cursor then cursor else hour
  }

  // The scheduler has put a key in the wheel; the wheel files it.
  method FileDue(f: Frontier, w: Wheel.DueWheel<URLKey>, ghost due: map<URLKey, nat>, key: URLKey, hour: nat)
    returns (ghost later: map<URLKey, nat>)
    requires f.Valid() && f.c.wheelOn && w.Valid() && Lists(w.Pending(), due) && key !in due && hour <= Wheel.MAX_HOUR
    requires forall k :: f.wheel[k] == if k in due || k == key then 1 else 0
    modifies w, w.ring
    ensures later == due[key := FiredAt(old(w.cursor), hour)] && w.cursor == old(w.cursor) && Joined(f, w, later)
  {
    hide Inv, Frontier.Structs, Wheel.DueWheel.OverFrom, Wheel.DueWheel.RingItems, Wheel.DueWheel.Pending, Lists;
    OneMoreDue(w.Pending(), due, key, FiredAt(w.cursor, hour));
    later := due[key := FiredAt(w.cursor, hour)];
    w.Add(key, hour);
  }

  // The outcome of a content URL that is out.
  predicate Content(f: Frontier, key: URLKey)
    reads f
  {
    f.Expected(key) && f.hosts[key.host].rules != RulesPending
  }

  // Seed: a seed dated past its first-seen hour waits in the wheel until its own hour.
  method SeedDue(f: Frontier, w: Wheel.DueWheel<URLKey>, ghost due: map<URLKey, nat>, key: URLKey, level: Level, firstSeen: nat,
                 nextDue: nat, crawlFloor: nat)
    returns (ghost later: map<URLKey, nat>)
    requires Joined(f, w, due) && nextDue <= Wheel.MAX_HOUR
    modifies f, w, w.ring
    ensures Joined(f, w, later) && key in f.records
    ensures later == if key !in old(f.records) && nextDue > firstSeen then due[key := FiredAt(w.cursor, nextDue)] else due
  {
    hide Inv, Frontier.Structs, Wheel.DueWheel.OverFrom, Wheel.DueWheel.RingItems, Wheel.DueWheel.Pending, Lists, Added;
    var deferred := key !in f.records && nextDue > firstSeen;
    WheelKnown(f, due);
    WheelPlaces(f);
    ghost var v := f.V();
    f.Seed(key, level, firstSeen, nextDue, crawlFloor);
    WheelPlaces(f);
    AddedAt(f.c, v, key, level, Some(if nextDue > firstSeen then AtWheel else AtFront), crawlFloor);
    later := due;
    if deferred {
      later := FileDue(f, w, due, key, nextDue);
    }
  }

  lemma AddedAt(c: Config, v: View, k: URLKey, level: Level, place: Option<Place>, crawlFloor: nat)
    ensures Added(c, v, k, level, place, crawlFloor).loc == if place.Some? then v.loc[k := place.value] else v.loc
  {
  }

  // Report: an answered URL that ended crawled is filed under the hour of its next crawl; every other
  // answer leaves the wheel alone.
  method ReportDue(f: Frontier, w: Wheel.DueWheel<URLKey>, ghost due: map<URLKey, nat>, o: Outcome, now: nat, nextDue: nat)
    returns (ghost later: map<URLKey, nat>)
    requires Joined(f, w, due) && f.clock <= now && (f.Expected(o.key) || f.Unknown(o.key)) && nextDue <= Wheel.MAX_HOUR
    modifies f, w, w.ring
    ensures Joined(f, w, later) && f.clock == now
    ensures later == if old(Content(f, o.key)) && o.key in f.records && f.records[o.key].status == Crawled
                     then due[o.key := FiredAt(w.cursor, nextDue)] else due
  {
    hide Inv, Frontier.Structs, Answered, Judged, Wheel.DueWheel.OverFrom, Wheel.DueWheel.RingItems, Wheel.DueWheel.Pending, Lists;
    var content := Content(f, o.key);
    f.Report(o, now);
    WheelPlaces(f);
    later := due;
    if content && f.records[o.key].status == Crawled {
      assert f.wheel[o.key] == 1 && o.key !in due;
      later := FileDue(f, w, due, o.key, nextDue);
    }
  }

  // Discover leaves the wheel alone.
  method DiscoverDue(f: Frontier, w: Wheel.DueWheel<URLKey>, ghost due: map<URLKey, nat>, key: URLKey, level: Level, admitted: bool, now: nat)
    returns (fresh_: bool)
    requires Joined(f, w, due)
    modifies f
    ensures Joined(f, w, due) && fresh_ == (key !in old(f.records) && admitted)
  {
    hide Inv, Frontier.Structs, Wheel.DueWheel.OverFrom, Wheel.DueWheel.RingItems, Wheel.DueWheel.Pending, Lists, Added;
    WheelKnown(f, due);
    WheelPlaces(f);
    ghost var v := f.V();
    fresh_ := f.Discover(key, level, admitted, now);
    WheelPlaces(f);
    AddedAt(f.c, v, key, level, if admitted then Some(AtFront) else None, DEFAULT_FLOOR);
  }

  // NextEligible, with the wheel's own answer: the earliest instant at which a host's window opens or a
  // URL falls due, and none exactly when nothing waits.
  method NextInstant(f: Frontier, w: Wheel.DueWheel<URLKey>, ghost due: map<URLKey, nat>) returns (t: Option<nat>)
    requires Joined(f, w, due)
    ensures t.None? <==> NoneParked(f.spot) && due == map[]
    ensures t.Some? ==> forall hk <- f.spot :: f.spot[hk].Parked? ==> t.value <= f.spot[hk].until
    ensures t.Some? ==> forall k <- due :: t.value <= due[k] * 3600
    ensures t.Some? ==> ParkedAt(f.spot, t.value) || exists k :: k in due && due[k] * 3600 == t.value
  {
    hide Inv, Pools, Holds, Ring.Valid, Ring.Items, NoneParked, ParkedAt, Wheel.DueWheel.OverFrom, Wheel.DueWheel.RingItems, Wheel.DueWheel.Pending;
    var hour, ok := w.NextDue();
    FirstDue(w.Pending(), due);
    t := f.NextEligible(if ok then Some(hour) else None);
  }

  lemma FirstDue(pending: multiset<Wheel.OverItem<URLKey>>, due: map<URLKey, nat>)
    requires Lists(pending, due)
    ensures pending == multiset{} <==> due == map[]
    ensures forall it :: it in pending <==> it.key in due && due[it.key] == it.due
    ensures forall k <- due :: Wheel.OverItem(due[k], k) in pending
  {
    forall k <- due
      ensures Wheel.OverItem(due[k], k) in pending
    {
      assert pending[Wheel.OverItem(due[k], k)] == 1;
    }
    if due != map[] {
      var k :| k in due;
      assert Wheel.OverItem(due[k], k) in pending;
    }
  }
}
