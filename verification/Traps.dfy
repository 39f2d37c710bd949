// Model of the accumulation in dedup/trapdetect.go: trap signatures are counted per host and a host
// becomes a suspect when one kind reaches the threshold. Which signature a URL bears, and its base
// path, come from URL parsing and are part of each observation.
module Traps {
  import opened Wrappers

  datatype Kind = Calendar | Faceted | Session
  datatype Observation = Observation(host: int, key: int, kind: Kind, base: int)

  datatype HostTrap = HostTrap(cal: nat, fac: nat, session: map<int, nat>, flagged: set<Kind>, seen: set<int>)

  const UNSEEN := HostTrap(0, 0, map[], {}, {})

  // What counts toward a kind: all of a host's signatures for calendar and facet, those on one base
  // path for session.
  predicate Counts(o: Observation, host: int, kind: Kind, base: int) {
    o.host == host && o.kind == kind && (kind == Session ==> o.base == base)
  }

  // How many distinct URLs have counted. counted holds the first signature of each URL of a host.
  ghost function Tally(counted: seq<Observation>, host: int, kind: Kind, base: int): nat {
    if counted == [] then 0
    else Tally(counted[..|counted| - 1], host, kind, base) + if Counts(counted[|counted| - 1], host, kind, base) then 1 else 0
  }

  lemma TallyNext(counted: seq<Observation>, o: Observation)
    ensures forall h, k, b :: Tally(counted + [o], h, k, b) == Tally(counted, h, k, b) + (if Counts(o, h, k, b) then 1 else 0)
  {
    assert (counted + [o])[..|counted|] == counted;
  }

  ghost predicate Crossed(counted: seq<Observation>, host: int, kind: Kind, threshold: nat) {
    exists base :: Tally(counted, host, kind, base) >= threshold
  }

  // The host's entry says what the counted observations say.
  ghost predicate Reflects(t: HostTrap, counted: seq<Observation>, host: int, threshold: nat) {
    && (forall b :: Tally(counted, host, Calendar, b) == t.cal)
    && (forall b :: Tally(counted, host, Faceted, b) == t.fac)
    && (forall b :: Tally(counted, host, Session, b) == if b in t.session then t.session[b] else 0)
    && (forall k :: k in t.flagged <==> Crossed(counted, host, k, threshold))
    && (forall key :: key in t.seen <==> Known(counted, host, key))
  }

  ghost predicate Known(counted: seq<Observation>, host: int, key: int) {
    exists o :: o in counted && o.host == host && o.key == key
  }

  lemma KnownNext(counted: seq<Observation>, o: Observation)
    ensures forall h, k :: Known(counted + [o], h, k) <==> Known(counted, h, k) || (o.host == h && o.key == k)
  {
    forall h, k
      ensures Known(counted + [o], h, k) <==> Known(counted, h, k) || (o.host == h && o.key == k)
    {
      if Known(counted, h, k) {
        var x :| x in counted && x.host == h && x.key == k;
        assert x in counted + [o];
      }
      assert o in counted + [o];
    }
  }

  // Counting one more signature and raising its flag when its count reaches the threshold.
  function Counted(t: HostTrap, o: Observation, threshold: nat): HostTrap {
    var n := (if o.base in t.session then t.session[o.base] else 0) + 1;
    var u := match o.kind
      case Calendar => t.(cal := t.cal + 1)
      case Faceted => t.(fac := t.fac + 1)
      case Session => t.(session := t.session[o.base := n]);
    var reached := match o.kind case Calendar => u.cal >= threshold case Faceted => u.fac >= threshold case Session => n >= threshold;
    u.(seen := t.seen + {o.key}, flagged := if reached then t.flagged + {o.kind} else t.flagged)
  }

  // Only the observation's own kind can cross, and it does when its own count does.
  lemma CrossNext(t: HostTrap, counted: seq<Observation>, o: Observation, threshold: nat)
    requires Reflects(t, counted, o.host, threshold) && threshold >= 1
    ensures forall k :: Crossed(counted + [o], o.host, k, threshold) <==>
      Crossed(counted, o.host, k, threshold) || (k == o.kind && Tally(counted + [o], o.host, k, o.base) >= threshold)
  {
    TallyNext(counted, o);
    forall k
      ensures Crossed(counted + [o], o.host, k, threshold) <==>
        Crossed(counted, o.host, k, threshold) || (k == o.kind && Tally(counted + [o], o.host, k, o.base) >= threshold)
    {
      if Crossed(counted, o.host, k, threshold) {
        var b :| Tally(counted, o.host, k, b) >= threshold;
        assert Tally(counted + [o], o.host, k, b) >= threshold;
      }
      if Crossed(counted + [o], o.host, k, threshold) {
        var b :| Tally(counted + [o], o.host, k, b) >= threshold;
        if !Counts(o, o.host, k, b) {
          assert Tally(counted, o.host, k, b) >= threshold;
        } else {
          assert k != Session ==> Tally(counted + [o], o.host, k, o.base) == Tally(counted + [o], o.host, k, b);
        }
      }
    }
  }

  lemma CountedReflects(t: HostTrap, counted: seq<Observation>, o: Observation, threshold: nat)
    requires Reflects(t, counted, o.host, threshold) && threshold >= 1
    ensures Reflects(Counted(t, o, threshold), counted + [o], o.host, threshold)
  {
    TallyNext(counted, o);
    KnownNext(counted, o);
    CrossNext(t, counted, o, threshold);
    hide Tally, Crossed, Known;
  }

  lemma OthersReflect(t: HostTrap, counted: seq<Observation>, o: Observation, host: int, threshold: nat)
    requires Reflects(t, counted, host, threshold) && host != o.host
    ensures Reflects(t, counted + [o], host, threshold)
  {
    TallyNext(counted, o);
    KnownNext(counted, o);
    hide Tally, Known;
    assert forall k, b :: Tally(counted + [o], host, k, b) == Tally(counted, host, k, b);
    assert forall k :: Crossed(counted + [o], host, k, threshold) <==> Crossed(counted, host, k, threshold);
  }

  class Detector {
    const flagThreshold: nat
    var hosts: map<int, HostTrap>
    ghost var counted: seq<Observation>
    ghost var reported: multiset<int>   // the hosts Observe has called newly suspect

    function Of(host: int): HostTrap
      reads this
    {
      if host in hosts then hosts[host] else UNSEEN
    }

    // Suspect
    predicate Suspect(host: int)
      reads this
    {
      host in hosts && hosts[host].flagged != {}
    }

    ghost predicate Valid()
      reads this
    {
      && flagThreshold >= 1
      && (forall h :: Reflects(Of(h), counted, h, flagThreshold))
      && (forall h :: reported[h] == if Suspect(h) then 1 else 0)
    }

    constructor (threshold: nat)
      ensures Valid() && hosts == map[] && counted == []
    {
      flagThreshold := if threshold > 0 then threshold else 1;
      hosts, counted, reported := map[], [], multiset{};
      new;
      forall h
        ensures Reflects(UNSEEN, [], h, flagThreshold)
      {
      }
    }

    // Observe, of a URL that bears a signature. A URL seen before counts once only; a host is
    // reported in the observation that makes it a suspect, and never again.
    method Observe(o: Observation) returns (newly: bool)
      requires Valid()
      modifies this
      ensures Valid() && counted == if Known(old(counted), o.host, o.key) then old(counted) else old(counted) + [o]
      ensures newly <==> Suspect(o.host) && !old(Suspect(o.host))
      ensures forall h :: old(Suspect(h)) ==> Suspect(h)
      ensures Suspect(o.host) <==> exists k :: Crossed(counted, o.host, k, flagThreshold)
    {
      hide Counted, Known, Crossed, Tally;
      var t := Of(o.host);
      assert Reflects(t, counted, o.host, flagThreshold);
      assert t.flagged != {} <==> exists k :: k in t.flagged;
      if o.key in t.seen {
        return false;
      }
      var u := Counted(t, o, flagThreshold);
      newly := u.flagged != {} && t.flagged == {};
      Grows(t, o, flagThreshold);
      CountedReflects(t, counted, o, flagThreshold);
      forall h | h != o.host
        ensures Reflects(Of(h), counted + [o], h, flagThreshold)
      {
        OthersReflect(Of(h), counted, o, h, flagThreshold);
      }
      hide Reflects;
      hosts := hosts[o.host := u];
      counted := counted + [o];
      reported := reported + if newly then multiset{o.host} else multiset{};
      FlaggedIff(u, counted, o.host, flagThreshold);
      assert Of(o.host) == u && forall h :: h != o.host ==> Of(h) == old(Of(h));
      forall h
        ensures Reflects(Of(h), counted, h, flagThreshold) && reported[h] == if Suspect(h) then 1 else 0
      {
        assert old(reported)[h] == if old(Suspect(h)) then 1 else 0;
      }
    }
  }

  lemma Grows(t: HostTrap, o: Observation, threshold: nat)
    ensures t.flagged <= Counted(t, o, threshold).flagged
  {
  }

  lemma FlaggedIff(t: HostTrap, counted: seq<Observation>, host: int, threshold: nat)
    requires Reflects(t, counted, host, threshold)
    ensures t.flagged != {} <==> exists k :: Crossed(counted, host, k, threshold)
  {
    hide Crossed;
    assert t.flagged != {} <==> exists k :: k in t.flagged;
  }
}
