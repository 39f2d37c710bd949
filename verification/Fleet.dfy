// Model of distribute/rendezvous.go, control.go and failover.go: rendezvous placement of partitions on
// machines, the control plane that owns the partition map, and its answers to missed heartbeats and
// lost machines.
module Fleet {
  import opened Wrappers
  import opened Sorting

  // ---- rendezvous ----

  // weight 0 stands for unset.
  datatype Machine = Machine(id: nat, weight: real)

  // hashCombine of a partition and a machine id.
  datatype Hasher = Hasher(raw: (nat, nat) -> nat)
  {
    // The rendezvous weight, scaled by the machine's capacity or not.
    function Score(scaled: bool, partition: nat, m: Machine): real {
      raw(partition, m.id) as real * if scaled then m.weight else 1.0
    }
  }

  datatype Rank = Rank(w: real, id: nat)

  // Highest weight first, then lowest id.
  predicate Ahead(a: Rank, b: Rank) {
    if a.w != b.w then a.w > b.w else a.id < b.id
  }

  function Ranks(h: Hasher, scaled: bool, partition: nat, machines: seq<Machine>): (s: seq<Rank>)
    ensures |s| == |machines|
  {
    seq(|machines|, i requires 0 <= i < |machines| => Rank(h.Score(scaled, partition, machines[i]), machines[i].id))
  }

  // s ranks the machines for the partition.
  ghost predicate IsRanking(s: seq<Rank>, h: Hasher, scaled: bool, partition: nat, machines: seq<Machine>) {
    Sorted(s, Ahead) && Permutation(s, Ranks(h, scaled, partition, machines))
  }

  lemma AheadIsOrder()
    ensures StrictWeak(Ahead)
  {
  }

  // A set of machines has one ranking.
  lemma {:induction false} OneRanking(s: seq<Rank>, t: seq<Rank>)
    requires Sorted(s, Ahead) && Sorted(t, Ahead) && multiset(s) == multiset(t)
    ensures s == t
    decreases |s|
  {
    assert |s| == |multiset(s)| == |t|;
    if s != [] {
      SameFirst(s, t);
      assert s == [s[0]] + s[1..] && t == [t[0]] + t[1..];
      assert multiset(s[1..]) == multiset(s) - multiset{s[0]} && multiset(t[1..]) == multiset(t) - multiset{t[0]};
      OneRanking(s[1..], t[1..]);
    }
  }

  lemma SameFirst(s: seq<Rank>, t: seq<Rank>)
    requires Sorted(s, Ahead) && Sorted(t, Ahead) && multiset(s) == multiset(t) && |s| == |t| > 0
    ensures s[0] == t[0]
  {
    assert s[0] in multiset(t) && t[0] in multiset(s);
    var i :| 0 <= i < |t| && t[i] == s[0];
    var j :| 0 <= j < |s| && s[j] == t[0];
    assert i > 0 ==> !Ahead(t[i], t[0]);
    assert j > 0 ==> !Ahead(s[j], s[0]);
  }

  function Without(s: seq<Rank>, id: nat): seq<Rank> {
    if s == [] then [] else (if s[0].id == id then [] else [s[0]]) + Without(s[1..], id)
  }

  function Survivors(machines: seq<Machine>, id: nat): seq<Machine> {
    if machines == [] then [] else (if machines[0].id == id then [] else [machines[0]]) + Survivors(machines[1..], id)
  }

  lemma {:induction false} WithoutSorted(s: seq<Rank>, id: nat)
    requires Sorted(s, Ahead)
    ensures Sorted(Without(s, id), Ahead)
    ensures forall r :: r in Without(s, id) ==> r in s && r.id != id
  {
    if s != [] {
      WithoutSorted(s[1..], id);
      var rest := Without(s[1..], id);
      forall r | r in rest
        ensures !Ahead(r, s[0])
      {
        var j :| 0 <= j < |s[1..]| && s[1..][j] == r;
        assert s[j + 1] == r;
      }
    }
  }

  lemma {:induction false} WithoutMultiset(s: seq<Rank>, id: nat)
    ensures forall r :: multiset(Without(s, id))[r] == if r.id == id then 0 else multiset(s)[r]
  {
    if s != [] {
      WithoutMultiset(s[1..], id);
      assert s == [s[0]] + s[1..];
    }
  }

  lemma {:induction false} SurvivorRanks(h: Hasher, scaled: bool, partition: nat, machines: seq<Machine>, id: nat)
    ensures Ranks(h, scaled, partition, Survivors(machines, id)) == Without(Ranks(h, scaled, partition, machines), id)
  {
    if machines != [] {
      var all := Ranks(h, scaled, partition, machines);
      assert all[1..] == Ranks(h, scaled, partition, machines[1..]);
      SurvivorRanks(h, scaled, partition, machines[1..], id);
      var rest := Survivors(machines[1..], id);
      if machines[0].id != id {
        assert Ranks(h, scaled, partition, [machines[0]] + rest) == [all[0]] + Ranks(h, scaled, partition, rest);
      } else {
        assert [] + rest == rest;
      }
    }
  }

  // Losing a machine only strikes it from every ranking: no two survivors change places.
  lemma RankingWithout(s: seq<Rank>, t: seq<Rank>, h: Hasher, scaled: bool, partition: nat, machines: seq<Machine>, id: nat)
    requires IsRanking(s, h, scaled, partition, machines) && IsRanking(t, h, scaled, partition, Survivors(machines, id))
    ensures t == Without(s, id)
  {
    hide Sorted, Ahead, Without, Ranks, Survivors;
    SurvivorRanks(h, scaled, partition, machines, id);
    var all := Ranks(h, scaled, partition, machines);
    WithoutMultiset(s, id);
    WithoutMultiset(all, id);
    assert multiset(Without(s, id)) == multiset(Without(all, id));
    WithoutSorted(s, id);
    OneRanking(t, Without(s, id));
  }

  // preferenceList and weightedPreference: the first replicas + 1 machines of the ranking.
  method Preference(h: Hasher, scaled: bool, partition: nat, machines: seq<Machine>, replicas: nat) returns (out: seq<nat>)
    ensures forall s :: IsRanking(s, h, scaled, partition, machines) ==> out == Ids(Top(s, replicas))
    ensures machines != [] ==> out != []
  {
    AheadIsOrder();
    var ranked := SortBy(Ranks(h, scaled, partition, machines), Ahead);
    PermutationMembers(ranked, Ranks(h, scaled, partition, machines));
    forall s | IsRanking(s, h, scaled, partition, machines)
      ensures s == ranked
    {
      OneRanking(s, ranked);
    }
    out := Ids(Top(ranked, replicas));
  }

  function Top(s: seq<Rank>, replicas: nat): seq<Rank> {
    if |s| <= replicas + 1 then s else s[..replicas + 1]
  }

  function Ids(s: seq<Rank>): (ids: seq<nat>)
    ensures |ids| == |s| && forall i :: 0 <= i < |s| ==> ids[i] == s[i].id
  {
    seq(|s|, i requires 0 <= i < |s| => s[i].id)
  }

  // ---- the control plane ----

  datatype Health = Alive | Degraded | Failed
  datatype Meta = Meta(primary: nat, replicas: seq<nat>, health: Health)

  const FAIL_THRESHOLD: nat := 3

  // A fleet is placed by capacity when some machine has a weight other than one.
  predicate Scaled(machines: seq<Machine>) {
    machines != [] && ((machines[0].weight != 0.0 && machines[0].weight != 1.0) || Scaled(machines[1..]))
  }

  ghost predicate Placed(h: Hasher, machines: seq<Machine>, replicas: nat, partition: nat, meta: Meta) {
    forall s :: IsRanking(s, h, Scaled(machines), partition, machines) ==> [meta.primary] + meta.replicas == Ids(Top(s, replicas))
  }

  ghost predicate AllPlaced(h: Hasher, machines: seq<Machine>, replicas: int, partitions: seq<Meta>) {
    machines != [] && replicas > 0 ==> forall i :: 0 <= i < |partitions| ==> Placed(h, machines, replicas, i, partitions[i])
  }

  lemma RankingExists(h: Hasher, machines: seq<Machine>, partition: nat) returns (s: seq<Rank>)
    ensures IsRanking(s, h, Scaled(machines), partition, machines)
  {
    s := Rankings(Ranks(h, Scaled(machines), partition, machines));
  }

  lemma {:induction false} Rankings(r: seq<Rank>) returns (s: seq<Rank>)
    ensures Sorted(s, Ahead) && Permutation(s, r)
  {
    hide Ahead;
    s := [];
    if r != [] {
      var t := Rankings(r[1..]);
      s := Slot(t, r[0]);
      assert r == [r[0]] + r[1..];
    }
  }

  lemma {:induction false} Slot(t: seq<Rank>, x: Rank) returns (s: seq<Rank>)
    requires Sorted(t, Ahead)
    ensures Sorted(s, Ahead) && multiset(s) == multiset(t) + multiset{x}
  {
    AheadIsOrder();
    hide Ahead;
    if t == [] || !Ahead(t[0], x) {
      s := [x] + t;
      assert forall j :: 0 < j < |t| ==> !Ahead(t[j], t[0]);
    } else {
      var u := Slot(t[1..], x);
      s := [t[0]] + u;
      assert t == [t[0]] + t[1..];
      AllBehind(t, u, x);
    }
  }

  lemma AllBehind(t: seq<Rank>, u: seq<Rank>, x: Rank)
    requires Sorted(t, Ahead) && t != [] && Ahead(t[0], x) && multiset(u) == multiset(t[1..]) + multiset{x}
    ensures forall j :: 0 <= j < |u| ==> !Ahead(u[j], t[0])
  {
    AheadIsOrder();
    hide Ahead;
    forall j | 0 <= j < |u|
      ensures !Ahead(u[j], t[0])
    {
      assert u[j] in multiset(u);
      if u[j] != x {
        assert u[j] in t[1..];
        var i :| 0 <= i < |t[1..]| && t[1..][i] == u[j];
        assert t[i + 1] == u[j];
      }
    }
  }

  // A placement is determined by the machines.
  lemma SamePlace(h: Hasher, machines: seq<Machine>, replicas: nat, partition: nat, m: Meta, n: Meta)
    requires Placed(h, machines, replicas, partition, m) && Placed(h, machines, replicas, partition, n)
    ensures m.primary == n.primary && m.replicas == n.replicas
  {
    var s := RankingExists(h, machines, partition);
    assert ([m.primary] + m.replicas)[0] == ([n.primary] + n.replicas)[0];
    assert ([m.primary] + m.replicas)[1..] == ([n.primary] + n.replicas)[1..];
  }

  // The misses of a partition id since its last beat. True stands for a beat.
  ghost function MissesSince(log: seq<(bool, nat)>, id: nat): nat {
    if log == [] then 0
    else
      var (beat, who) := log[|log| - 1];
      if who != id then MissesSince(log[..|log| - 1], id)
      else if beat then 0 else MissesSince(log[..|log| - 1], id) + 1
  }

  lemma LogNext(log: seq<(bool, nat)>, beat: bool, id: nat)
    ensures forall x :: MissesSince(log + [(beat, id)], x) == (if x != id then MissesSince(log, x) else if beat then 0 else MissesSince(log, x) + 1)
  {
    assert (log + [(beat, id)])[..|log|] == log;
  }

  // The first entry of a preference list that is not the lost machine.
  function FirstOther(ids: seq<nat>, lost: nat): Option<nat> {
    if ids == [] then None else if ids[0] != lost then Some(ids[0]) else FirstOther(ids[1..], lost)
  }

  lemma {:induction false} FirstOfWithout(s: seq<Rank>, lost: nat)
    ensures Without(s, lost) != [] ==> FirstOther(Ids(s), lost) == Some(Without(s, lost)[0].id)
    ensures Without(s, lost) == [] ==> FirstOther(Ids(s), lost) == None
  {
    if s != [] {
      FirstOfWithout(s[1..], lost);
      assert Ids(s)[1..] == Ids(s[1..]);
    }
  }

  lemma {:induction false} FirstOfPrefix(ids: seq<nat>, n: nat, lost: nat)
    requires n <= |ids| && FirstOther(ids[..n], lost).Some?
    ensures FirstOther(ids, lost) == FirstOther(ids[..n], lost)
  {
    if ids[0] == lost {
      assert ids[..n][1..] == ids[1..][..n - 1];
      FirstOfPrefix(ids[1..], n - 1, lost);
    }
  }

  // The loss of a machine leaves the order of the others alone, whatever the hash: the fleet is placed
  // by capacity as before, or no other machine lacks a weight, or only one is left.
  predicate KeepsOrder(machines: seq<Machine>, lost: nat) {
    var left := Survivors(machines, lost);
    Scaled(left) == Scaled(machines) || (forall m :: m in left ==> m.weight != 0.0) || |left| == 1
  }

  // Where every other machine weighs one, scaling changes no rank.
  lemma SameRanks(h: Hasher, machines: seq<Machine>, lost: nat, partition: nat)
    requires KeepsOrder(machines, lost) && |Survivors(machines, lost)| != 1
    ensures var left := Survivors(machines, lost); Ranks(h, Scaled(left), partition, left) == Ranks(h, Scaled(machines), partition, left)
  {
    hide Survivors;
    var left := Survivors(machines, lost);
    if Scaled(left) != Scaled(machines) {
      MoreScaled(machines, lost);
      Unscaled(left);
    }
  }

  lemma {:induction false} Unscaled(machines: seq<Machine>)
    ensures !Scaled(machines) <==> forall m :: m in machines ==> m.weight == 0.0 || m.weight == 1.0
  {
    if machines != [] {
      Unscaled(machines[1..]);
      assert machines == [machines[0]] + machines[1..];
    }
  }

  lemma {:induction false} SurvivorIs(machines: seq<Machine>, lost: nat)
    ensures forall m :: m in Survivors(machines, lost) <==> m in machines && m.id != lost
  {
    if machines != [] {
      SurvivorIs(machines[1..], lost);
      assert machines == [machines[0]] + machines[1..];
    }
  }

  lemma MoreScaled(machines: seq<Machine>, lost: nat)
    ensures Scaled(Survivors(machines, lost)) ==> Scaled(machines)
  {
    SurvivorIs(machines, lost);
    Unscaled(machines);
    Unscaled(Survivors(machines, lost));
  }

  // The ranking of the machines left, as their order in the old one and as they are ranked now.
  lemma LeftRanking(s: seq<Rank>, t: seq<Rank>, h: Hasher, machines: seq<Machine>, lost: nat, partition: nat)
    requires IsRanking(s, h, Scaled(machines), partition, machines) && KeepsOrder(machines, lost)
    requires IsRanking(t, h, Scaled(Survivors(machines, lost)), partition, Survivors(machines, lost))
    ensures Ids(t) == Ids(Without(s, lost))
  {
    hide Survivors, Scaled, Without, Ranks, Sorted;
    if |Survivors(machines, lost)| != 1 {
      SameRanks(h, machines, lost, partition);
      RankingWithout(s, t, h, Scaled(machines), partition, machines, lost);
    } else {
      LoneRanking(s, t, h, machines, lost, partition);
    }
  }

  lemma LoneRanking(s: seq<Rank>, t: seq<Rank>, h: Hasher, machines: seq<Machine>, lost: nat, partition: nat)
    requires IsRanking(s, h, Scaled(machines), partition, machines) && |Survivors(machines, lost)| == 1
    requires IsRanking(t, h, Scaled(Survivors(machines, lost)), partition, Survivors(machines, lost))
    ensures Ids(t) == Ids(Without(s, lost))
  {
    hide Survivors, Scaled, Without, Ahead;
    var left := Survivors(machines, lost);
    WithoutSorted(s, lost);
    SurvivorRanks(h, Scaled(machines), partition, machines, lost);
    WithoutMultiset(s, lost);
    WithoutMultiset(Ranks(h, Scaled(machines), partition, machines), lost);
    assert multiset(Without(s, lost)) == multiset(Ranks(h, Scaled(machines), partition, left));
    hide Sorted;
    Single(Without(s, lost), Ranks(h, Scaled(machines), partition, left));
    Single(t, Ranks(h, Scaled(left), partition, left));
  }

  lemma Single(s: seq<Rank>, r: seq<Rank>)
    requires multiset(s) == multiset(r) && |r| == 1
    ensures s == r
  {
    assert |s| == |multiset(s)| == 1 && r[0] in multiset(s);
  }

  // When the order is kept, a partition's new primary is the first survivor of its old preference
  // list.
  lemma FirstSurvivorWins(h: Hasher, machines: seq<Machine>, lost: nat, replicas: nat, partition: nat, m: Meta, n: Meta)
    requires Survivors(machines, lost) != [] && KeepsOrder(machines, lost)
    requires Placed(h, machines, replicas, partition, m) && Placed(h, Survivors(machines, lost), replicas, partition, n)
    ensures FirstOther([m.primary] + m.replicas, lost).Some? ==> FirstOther([m.primary] + m.replicas, lost) == Some(n.primary)
    ensures n.primary == m.primary <==> m.primary != lost
  {
    hide Without, FirstOther, Survivors, Scaled, IsRanking, KeepsOrder;
    var s := RankingExists(h, machines, partition);
    var t := RankingExists(h, Survivors(machines, lost), partition);
    assert [m.primary] + m.replicas == Ids(Top(s, replicas)) && [n.primary] + n.replicas == Ids(Top(t, replicas));
    LeftRanking(s, t, h, machines, lost, partition);
    hide Placed;
    FirstRanked(s, m, replicas);
    FirstRanked(t, n, replicas);
    FirstOfWithout(s, lost);
    WithoutLost(s, lost);
    var left := Without(s, lost);
    assert left[0] in left && Ids(left)[0] == left[0].id == n.primary;
    if FirstOther([m.primary] + m.replicas, lost).Some? {
      FirstOfPrefix(Ids(s), |Top(s, replicas)|, lost);
    }
    KeepsFirst(s, lost);
  }

  lemma FirstRanked(s: seq<Rank>, m: Meta, replicas: nat)
    requires [m.primary] + m.replicas == Ids(Top(s, replicas))
    ensures s != [] && s[0].id == m.primary && [m.primary] + m.replicas == Ids(s)[..|Top(s, replicas)|]
  {
    assert ([m.primary] + m.replicas)[0] == m.primary && |Top(s, replicas)| >= 1;
  }

  lemma KeepsFirst(s: seq<Rank>, lost: nat)
    requires s != []
    ensures s[0].id != lost ==> Without(s, lost) != [] && Without(s, lost)[0] == s[0]
  {
  }

  lemma {:induction false} WithoutLost(s: seq<Rank>, lost: nat)
    ensures forall r :: r in Without(s, lost) ==> r.id != lost
  {
    if s != [] {
      WithoutLost(s[1..], lost);
    }
  }

  class Control {
    const h: Hasher
    var epoch: nat
    var replicas: int
    var machines: seq<Machine>
    var partitions: seq<Meta>
    var overrides: map<nat, nat>
    var misses: map<nat, nat>
    ghost var log: seq<(bool, nat)>

    // Every partition is placed where rendezvous puts it, once there are machines and replicas, and
    // the miss counters say what the heartbeat log says.
    ghost predicate Valid()
      reads this
    {
      && partitions != [] && AllPlaced(h, machines, replicas, partitions)
      && forall id :: MissesSince(log, id) == if id in misses then misses[id] else 0
    }

    constructor (h: Hasher)
      ensures Valid() && this.h == h && epoch == 1 && |partitions| == 1 && machines == [] && log == []
    {
      this.h := h;
      epoch, replicas, machines := 1, 0, [];
      partitions, overrides, misses, log := [Meta(0, [], Alive)], map[], map[], [];
    }

    // replace: place every partition again. With no machines or no replica factor it clears the
    // replica sets and leaves every primary where it was.
    method Replace()
      modifies `partitions
      ensures |partitions| == |old(partitions)| && AllPlaced(h, machines, replicas, partitions)
      ensures forall i :: 0 <= i < |partitions| ==> partitions[i].health == old(partitions)[i].health
      ensures machines == [] || replicas <= 0 ==>
        forall i :: 0 <= i < |partitions| ==> partitions[i].primary == old(partitions)[i].primary && partitions[i].replicas == []
    {
      hide IsRanking, Top;
      var placed: seq<Meta> := [];
      for i := 0 to |partitions|
        invariant partitions == old(partitions) && |placed| == i
        invariant forall j :: 0 <= j < i ==> placed[j].health == partitions[j].health
        invariant machines != [] && replicas > 0 ==> forall j :: 0 <= j < i ==> Placed(h, machines, replicas, j, placed[j])
        invariant machines == [] || replicas <= 0 ==>
          forall j :: 0 <= j < i ==> placed[j].primary == partitions[j].primary && placed[j].replicas == []
      {
        if machines == [] || replicas <= 0 {
          placed := placed + [partitions[i].(replicas := [])];
        } else {
          var pref := Preference(h, Scaled(machines), i, machines, replicas);
          assert [pref[0]] + pref[1..] == pref;
          placed := placed + [partitions[i].(primary := pref[0], replicas := pref[1..])];
        }
      }
      partitions := placed;
    }

    // Placement depends on the machines alone, so replacing moves nothing that was placed.
    lemma Settled(before: seq<Meta>, after: seq<Meta>)
      requires machines != [] && replicas > 0 && |before| <= |after|
      requires AllPlaced(h, machines, replicas, before) && AllPlaced(h, machines, replicas, after)
      requires forall i :: 0 <= i < |before| ==> after[i].health == before[i].health
      ensures before <= after
    {
      forall i | 0 <= i < |before|
        ensures before[i] == after[i]
      {
        SamePlace(h, machines, replicas, i, before[i], after[i]);
      }
    }

    // AddPartition: one more at the high end. No other partition moves.
    method AddPartition() returns (id: nat)
      requires Valid()
      modifies this
      ensures Valid() && id == |old(partitions)| && |partitions| == id + 1 && partitions[id].health == Alive
      ensures epoch == old(epoch) + 1 && machines == old(machines) && replicas == old(replicas)
      ensures machines != [] && replicas > 0 ==> partitions[..id] == old(partitions)
      ensures forall i :: 0 <= i < id ==> partitions[i].health == old(partitions)[i].health
      ensures overrides == old(overrides) && misses == old(misses) && log == old(log)
    {
      hide Placed;
      id := |partitions|;
      partitions := partitions + [Meta(0, [], Alive)];
      epoch := epoch + 1;
      Replace();
      if machines != [] && replicas > 0 {
        Settled(old(partitions), partitions);
        assert old(partitions) <= partitions;
      }
    }

    // RemovePartition: the highest one, unless it is the last.
    method RemovePartition() returns (removed: Option<nat>)
      requires Valid()
      modifies this
      ensures Valid() && machines == old(machines) && replicas == old(replicas) && misses == old(misses) && log == old(log)
      ensures overrides == old(overrides)
      ensures removed.None? <==> |old(partitions)| == 1
      ensures removed.None? ==> partitions == old(partitions) && epoch == old(epoch)
      ensures removed.Some? ==> removed.value == |partitions| == |old(partitions)| - 1 && epoch == old(epoch) + 1
      ensures removed.Some? && machines != [] && replicas > 0 ==> partitions == old(partitions)[..|partitions|]
    {
      hide Placed;
      if |partitions| <= 1 {
        return None;
      }
      var id := |partitions| - 1;
      ghost var left := partitions[..id];
      partitions := partitions[..id];
      epoch := epoch + 1;
      Replace();
      if machines != [] && replicas > 0 {
        Settled(left, partitions);
      }
      return Some(id);
    }

    // SetReplicas: placed partitions keep their primaries, and their replica lists are cut or go on;
    // a factor of zero clears the lists. The epoch does not move.
    method SetReplicas(n: int)
      requires Valid()
      modifies this
      ensures Valid() && replicas == n && machines == old(machines) && epoch == old(epoch) && |partitions| == |old(partitions)|
      ensures overrides == old(overrides) && misses == old(misses) && log == old(log)
      ensures forall i :: 0 <= i < |partitions| ==> partitions[i].health == old(partitions)[i].health
      ensures n <= 0 || old(replicas) > 0 || machines == [] ==>
        forall i :: 0 <= i < |partitions| ==> partitions[i].primary == old(partitions)[i].primary
      ensures n <= 0 || machines == [] ==> forall i :: 0 <= i < |partitions| ==> partitions[i].replicas == []
      ensures machines != [] && 0 < old(replicas) <= n ==>
        forall i :: 0 <= i < |partitions| ==> old(partitions)[i].replicas <= partitions[i].replicas
      ensures machines != [] && 0 < n <= old(replicas) ==>
        forall i :: 0 <= i < |partitions| ==> partitions[i].replicas <= old(partitions)[i].replicas
    {
      hide Placed;
      replicas := n;
      Replace();
      if machines != [] && old(replicas) > 0 && n > 0 {
        forall i | 0 <= i < |partitions|
          ensures partitions[i].primary == old(partitions)[i].primary
          ensures old(replicas) <= n ==> old(partitions)[i].replicas <= partitions[i].replicas
          ensures n <= old(replicas) ==> partitions[i].replicas <= old(partitions)[i].replicas
        {
          if old(replicas) <= n {
            Extends(h, machines, old(replicas), n, i, old(partitions)[i], partitions[i]);
          }
          if n <= old(replicas) {
            Extends(h, machines, n, old(replicas), i, partitions[i], old(partitions)[i]);
          }
        }
      }
    }

    // SetMachines: the same machines change nothing that was placed, and a machine that joins takes
    // over partitions for itself alone while the order of the others is kept. The epoch does not move.
    method SetMachines(ms: seq<Machine>)
      requires Valid()
      modifies this
      ensures Valid() && machines == ms && replicas == old(replicas) && epoch == old(epoch) && |partitions| == |old(partitions)|
      ensures overrides == old(overrides) && misses == old(misses) && log == old(log)
      ensures forall i :: 0 <= i < |partitions| ==> partitions[i].health == old(partitions)[i].health
      ensures ms == [] || replicas <= 0 ==> forall i :: 0 <= i < |partitions| ==> partitions[i].primary == old(partitions)[i].primary
      ensures ms == old(machines) != [] && replicas > 0 ==> partitions == old(partitions)
      ensures old(machines) != [] && replicas > 0 ==> forall id :: old(machines) == Survivors(ms, id) && KeepsOrder(ms, id) ==>
        forall i :: 0 <= i < |partitions| ==> (partitions[i].primary == old(partitions)[i].primary <==> partitions[i].primary != id)
    {
      hide Placed, Survivors, KeepsOrder;
      ghost var was := machines;
      machines := ms;
      Replace();
      if ms == was != [] && replicas > 0 {
        Settled(old(partitions), partitions);
        assert old(partitions) <= partitions;
      }
      if was != [] && replicas > 0 {
        forall id | was == Survivors(ms, id) && KeepsOrder(ms, id)
          ensures forall i :: 0 <= i < |partitions| ==> (partitions[i].primary == old(partitions)[i].primary <==> partitions[i].primary != id)
        {
          Joins(h, ms, id, replicas, old(partitions), partitions);
        }
      }
    }

    // Pin
    method Pin(host: nat, to: nat)
      requires Valid()
      modifies this
      ensures Valid() && overrides == old(overrides)[host := to] && epoch == old(epoch) + 1 && partitions == old(partitions)
      ensures machines == old(machines) && replicas == old(replicas) && misses == old(misses) && log == old(log)
    {
      overrides := overrides[host := to];
      epoch := epoch + 1;
    }

    // Heartbeat: a beat clears the misses and brings the partition back; the epoch moves when the
    // health does.
    method Heartbeat(id: nat)
      requires Valid()
      modifies this
      ensures Valid() && log == old(log) + [(true, id)] && MissesSince(log, id) == 0
      ensures machines == old(machines) && replicas == old(replicas) && overrides == old(overrides)
      ensures |partitions| == |old(partitions)|
      ensures forall i :: 0 <= i < |partitions| ==> partitions[i] == if i == id then old(partitions)[i].(health := Alive) else old(partitions)[i]
      ensures epoch == old(epoch) + if partitions == old(partitions) then 0 else 1
    {
      LogNext(log, true, id);
      misses := misses - {id};
      log := log + [(true, id)];
      if id < |partitions| && partitions[id].health != Alive {
        WithHealth(h, machines, replicas, partitions, id, Alive);
        assert partitions[id] != partitions[id].(health := Alive);
        partitions := partitions[id := partitions[id].(health := Alive)];
        epoch := epoch + 1;
      }
    }

    // MissHeartbeat: the verdict is Failed exactly when FAIL_THRESHOLD misses have gone by without a
    // beat. Ownership does not move.
    method MissHeartbeat(id: nat) returns (health: Health)
      requires Valid()
      modifies this
      ensures Valid() && machines == old(machines) && replicas == old(replicas) && overrides == old(overrides)
      ensures log == old(log) + [(false, id)] && MissesSince(log, id) == MissesSince(old(log), id) + 1
      ensures health == if MissesSince(log, id) >= FAIL_THRESHOLD then Failed else Degraded
      ensures |partitions| == |old(partitions)|
      ensures forall i :: 0 <= i < |partitions| ==> partitions[i] == if i == id then old(partitions)[i].(health := health) else old(partitions)[i]
      ensures epoch == old(epoch) + if partitions == old(partitions) then 0 else 1
    {
      LogNext(log, false, id);
      var n := (if id in misses then misses[id] else 0) + 1;
      misses := misses[id := n];
      log := log + [(false, id)];
      health := if n >= FAIL_THRESHOLD then Failed else Degraded;
      if id < |partitions| && partitions[id].health != health {
        WithHealth(h, machines, replicas, partitions, id, health);
        assert partitions[id] != partitions[id].(health := health);
        partitions := partitions[id := partitions[id].(health := health)];
        epoch := epoch + 1;
      }
    }

    // FailMachine: the lost machine's partitions go to the first survivor of their preference list,
    // and no other partition moves, as long as the loss leaves the order of the others alone.
    method FailMachine(lost: nat) returns (promoted: seq<nat>)
      requires Valid()
      modifies this
      ensures Valid() && |partitions| == |old(partitions)| && machines == Survivors(old(machines), lost)
      ensures replicas == old(replicas) && overrides == old(overrides) && misses == old(misses) && log == old(log)
      ensures machines == old(machines) ==> promoted == [] && epoch == old(epoch) && partitions == old(partitions)
      ensures machines != old(machines) ==> epoch == old(epoch) + 1
      ensures forall i :: i in promoted <==> 0 <= i < |partitions| && partitions[i].primary != old(partitions)[i].primary
      ensures forall i, j :: 0 <= i < j < |promoted| ==> promoted[i] < promoted[j]
      ensures machines != [] && replicas > 0 && KeepsOrder(old(machines), lost) ==> Promotion(old(partitions), partitions, lost)
      ensures machines == [] || replicas <= 0 ==> promoted == []
    {
      hide Placed;
      var was := partitions;
      ghost var fleet := machines;
      var kept: seq<Machine> := [];
      assert machines[..0] == [];
      for i := 0 to |machines|
        invariant Valid() && machines == fleet && partitions == was && epoch == old(epoch) && replicas == old(replicas)
        invariant overrides == old(overrides) && misses == old(misses) && log == old(log)
        invariant kept == Survivors(machines[..i], lost)
      {
        SurvivorsNext(machines, i, lost);
        if machines[i].id != lost {
          kept := kept + [machines[i]];
        }
      }
      assert machines[..|machines|] == machines;
      SurvivorsFewer(machines, lost);
      if |kept| == |machines| {
        if machines != [] && replicas > 0 {
          Promotes(h, fleet, lost, replicas, was, was);
        }
        return [];
      }
      machines := kept;
      Replace();
      epoch := epoch + 1;
      if machines != [] && replicas > 0 && KeepsOrder(fleet, lost) {
        Promotes(h, fleet, lost, replicas, was, partitions);
      }
      promoted := Moved(was, partitions);
      assert promoted != [] ==> promoted[0] in promoted;
    }
  }

  // The partitions whose primary changed, in order.
  method Moved(before: seq<Meta>, after: seq<Meta>) returns (moved: seq<nat>)
    requires |before| == |after|
    ensures forall i :: i in moved <==> 0 <= i < |after| && after[i].primary != before[i].primary
    ensures forall i, j :: 0 <= i < j < |moved| ==> moved[i] < moved[j]
  {
    moved := [];
    for i := 0 to |after|
      invariant forall j :: j in moved <==> 0 <= j < i && after[j].primary != before[j].primary
      invariant forall j :: 0 <= j < |moved| ==> moved[j] < i
      invariant forall j, k :: 0 <= j < k < |moved| ==> moved[j] < moved[k]
    {
      if after[i].primary != before[i].primary {
        moved := moved + [i];
      }
    }
  }

  lemma WithHealth(h: Hasher, machines: seq<Machine>, replicas: int, partitions: seq<Meta>, id: nat, health: Health)
    requires id < |partitions| && AllPlaced(h, machines, replicas, partitions)
    ensures AllPlaced(h, machines, replicas, partitions[id := partitions[id].(health := health)])
  {
    hide IsRanking, Top;
  }

  lemma {:induction false} SurvivorsNext(machines: seq<Machine>, i: nat, lost: nat)
    requires i < |machines|
    ensures Survivors(machines[..i + 1], lost) == Survivors(machines[..i], lost) + if machines[i].id == lost then [] else [machines[i]]
    decreases i
  {
    if i > 0 {
      SurvivorsNext(machines[1..], i - 1, lost);
      assert machines[1..][..i - 1] == machines[..i][1..] && machines[1..][..i] == machines[..i + 1][1..];
    }
  }

  lemma {:induction false} SurvivorsFewer(machines: seq<Machine>, lost: nat)
    ensures |Survivors(machines, lost)| <= |machines|
    ensures |Survivors(machines, lost)| == |machines| <==> Survivors(machines, lost) == machines
  {
    if machines != [] {
      SurvivorsFewer(machines[1..], lost);
    }
  }

  // Exactly the lost machine's partitions moved, each to the first survivor it had listed.
  ghost predicate Promotion(before: seq<Meta>, after: seq<Meta>, lost: nat)
    requires |before| == |after|
  {
    forall i :: 0 <= i < |before| ==>
      && (after[i].primary != before[i].primary <==> before[i].primary == lost)
      && (before[i].primary == lost && FirstOther(before[i].replicas, lost).Some? ==>
            after[i].primary == FirstOther(before[i].replicas, lost).value)
  }

  lemma Promotes(h: Hasher, fleet: seq<Machine>, lost: nat, replicas: nat, before: seq<Meta>, after: seq<Meta>)
    requires replicas > 0 && Survivors(fleet, lost) != [] && KeepsOrder(fleet, lost)
    requires |before| == |after| && AllPlaced(h, fleet, replicas, before) && AllPlaced(h, Survivors(fleet, lost), replicas, after)
    ensures Promotion(before, after, lost)
  {
    hide Placed;
    forall i | 0 <= i < |before|
      ensures after[i].primary != before[i].primary <==> before[i].primary == lost
      ensures before[i].primary == lost && FirstOther(before[i].replicas, lost).Some? ==>
        after[i].primary == FirstOther(before[i].replicas, lost).value
    {
      FirstSurvivorWins(h, fleet, lost, replicas, i, before[i], after[i]);
      assert ([before[i].primary] + before[i].replicas)[1..] == before[i].replicas;
    }
  }

  // Exactly the partitions that moved have the machine that joined for their primary.
  lemma Joins(h: Hasher, fleet: seq<Machine>, joined: nat, replicas: nat, before: seq<Meta>, after: seq<Meta>)
    requires replicas > 0 && Survivors(fleet, joined) != [] && KeepsOrder(fleet, joined)
    requires |before| == |after| && AllPlaced(h, fleet, replicas, after) && AllPlaced(h, Survivors(fleet, joined), replicas, before)
    ensures forall i :: 0 <= i < |after| ==> (after[i].primary == before[i].primary <==> after[i].primary != joined)
  {
    SurvivorIs(fleet, joined);
    assert Survivors(fleet, joined)[0] in fleet;
    hide Placed, Survivors, KeepsOrder;
    forall i | 0 <= i < |after|
      ensures after[i].primary == before[i].primary <==> after[i].primary != joined
    {
      FirstSurvivorWins(h, fleet, joined, replicas, i, after[i], before[i]);
    }
  }

  lemma Extends(h: Hasher, machines: seq<Machine>, few: nat, many: nat, partition: nat, m: Meta, n: Meta)
    requires Placed(h, machines, few, partition, m) && Placed(h, machines, many, partition, n) && few <= many
    ensures n.primary == m.primary && m.replicas <= n.replicas
  {
    var s := RankingExists(h, machines, partition);
    hide IsRanking;
    var a, b := [m.primary] + m.replicas, [n.primary] + n.replicas;
    assert a == b[..|a|];
    assert a[0] == b[0] && m.replicas == a[1..] && n.replicas == b[1..];
    assert b[..|a|][1..] == b[1..][..|a| - 1];
  }

  // What a call of FailMachine leaves: the placement of the whole fleet, then that of the others.
  ghost predicate Replaced(h: Hasher, fleet: seq<Machine>, lost: nat, replicas: nat, before: seq<Meta>, after: seq<Meta>) {
    |before| == |after| && AllPlaced(h, fleet, replicas, before) && AllPlaced(h, Survivors(fleet, lost), replicas, after)
  }

  // Only the lost machine's partitions move, whatever the hash, exactly when the order is kept.
  lemma PromotionIff(fleet: seq<Machine>, lost: nat, replicas: nat)
    requires DistinctIds(fleet) && Survivors(fleet, lost) != [] && replicas > 0
    ensures KeepsOrder(fleet, lost) <==>
      forall h, before, after :: Replaced(h, fleet, lost, replicas, before, after) ==> Promotion(before, after, lost)
  {
    hide Survivors, KeepsOrder, AllPlaced, Promotion, DistinctIds;
    if KeepsOrder(fleet, lost) {
      forall h, before, after | Replaced(h, fleet, lost, replicas, before, after)
        ensures Promotion(before, after, lost)
      {
        Promotes(h, fleet, lost, replicas, before, after);
      }
    } else {
      var h, a, b := Scramble(fleet, lost);
      var before, after := PlaceOne(h, fleet, lost, replicas);
      Scrambled(h, fleet, lost, replicas, before, after, a, b);
    }
  }

  ghost predicate DistinctIds(machines: seq<Machine>) {
    forall i, j :: 0 <= i < j < |machines| ==> machines[i].id != machines[j].id
  }

  lemma PlaceOne(h: Hasher, fleet: seq<Machine>, lost: nat, replicas: nat) returns (before: seq<Meta>, after: seq<Meta>)
    requires Survivors(fleet, lost) != [] && replicas > 0
    ensures Replaced(h, fleet, lost, replicas, before, after) && |before| == 1
  {
    SurvivorIs(fleet, lost);
    assert Survivors(fleet, lost)[0] in fleet;
    hide Survivors, IsRanking, Scaled;
    var m := PlacementExists(h, fleet, replicas, 0);
    var n := PlacementExists(h, Survivors(fleet, lost), replicas, 0);
    hide Placed;
    before, after := [m], [n];
  }

  lemma PlacementExists(h: Hasher, machines: seq<Machine>, replicas: nat, partition: nat) returns (m: Meta)
    requires machines != []
    ensures Placed(h, machines, replicas, partition, m)
  {
    hide Sorted;
    var s := RankingExists(h, machines, partition);
    assert |s| == |multiset(s)| == |machines|;
    var ids := Ids(Top(s, replicas));
    m := Meta(ids[0], ids[1..], Alive);
    forall t | IsRanking(t, h, Scaled(machines), partition, machines)
      ensures t == s
    {
      OneRanking(t, s);
    }
    assert [ids[0]] + ids[1..] == ids;
  }

  // ---- when the order is not kept ----

  // The machine is first in every ranking for partition 0.
  ghost predicate Leads(h: Hasher, scaled: bool, left: seq<Machine>, id: nat) {
    forall t: seq<Rank> :: IsRanking(t, h, scaled, 0, left) ==> t != [] && t[0].id == id
  }

  lemma Leader(h: Hasher, scaled: bool, left: seq<Machine>, m: Machine)
    requires m in left
    requires forall x :: x in left && x != m ==> Ahead(Rank(h.Score(scaled, 0, m), m.id), Rank(h.Score(scaled, 0, x), x.id))
    ensures Leads(h, scaled, left, m.id)
  {
    hide Ahead, Hasher.Score;
    forall t: seq<Rank> | IsRanking(t, h, scaled, 0, left)
      ensures t != [] && t[0].id == m.id
    {
      var ranks := Ranks(h, scaled, 0, left);
      assert |t| == |multiset(t)| == |left|;
      assert t[0] in multiset(ranks);
      var i :| 0 <= i < |left| && left[i] == m;
      assert ranks[i] in multiset(t);
      var j :| 0 <= j < |t| && t[j] == ranks[i];
      var k :| 0 <= k < |ranks| && ranks[k] == t[0];
      assert left[k] in left;
      assert j > 0 ==> !Ahead(t[j], t[0]);
    }
  }

  lemma {:induction false} LeastId(left: seq<Machine>) returns (m: Machine)
    requires left != []
    ensures m in left && forall x :: x in left ==> m.id <= x.id
  {
    m := left[0];
    if |left| > 1 {
      var y := LeastId(left[1..]);
      m := if y.id < m.id then y else m;
      assert left == [left[0]] + left[1..];
    }
  }

  ghost predicate UniqueIds(left: seq<Machine>) {
    forall m, x :: m in left && x in left && m.id == x.id ==> m == x
  }

  // Of the machines left, which weigh one or have no weight, a and b: b leads without scaling and,
  // for want of a weight, not with it.
  lemma Scramble(fleet: seq<Machine>, lost: nat) returns (h: Hasher, a: nat, b: nat)
    requires DistinctIds(fleet) && Survivors(fleet, lost) != [] && !KeepsOrder(fleet, lost)
    ensures Scaled(fleet) && !Scaled(Survivors(fleet, lost)) && a != b
    ensures Leads(h, true, Survivors(fleet, lost), a) && Leads(h, false, Survivors(fleet, lost), b)
  {
    MoreScaled(fleet, lost);
    hide Scaled, UniqueIds, Leads;
    var x, y := Unweighted(fleet, lost);
    hide Survivors, KeepsOrder, DistinctIds;
    var left := Survivors(fleet, lost);
    if y.weight == 1.0 {
      h := OneWeighted(left, x, y);
      a, b := y.id, x.id;
    } else if x.id > y.id {
      h, a := NoneWeighted(left, x, y);
      b := x.id;
    } else {
      h, a := NoneWeighted(left, y, x);
      b := y.id;
    }
  }

  lemma Unweighted(fleet: seq<Machine>, lost: nat) returns (x: Machine, y: Machine)
    requires DistinctIds(fleet) && Survivors(fleet, lost) != [] && !KeepsOrder(fleet, lost)
    ensures var left := Survivors(fleet, lost);
      && UniqueIds(left) && x in left && y in left && x.id != y.id && x.weight == 0.0 && y.weight in {0.0, 1.0}
  {
    var left := Survivors(fleet, lost);
    MoreScaled(fleet, lost);
    Unscaled(left);
    x :| x in left && x.weight == 0.0;
    StillDistinct(fleet, lost);
    hide Survivors, Scaled;
    Unique(left);
    y := Another(left, x);
  }

  lemma Another(left: seq<Machine>, x: Machine) returns (y: Machine)
    requires DistinctIds(left) && |left| > 1
    ensures y in left && y.id != x.id
  {
    y := if left[0].id == x.id then left[1] else left[0];
    assert left[0].id != left[1].id;
  }

  lemma Unique(machines: seq<Machine>)
    requires DistinctIds(machines)
    ensures UniqueIds(machines)
  {
    forall m, x | m in machines && x in machines && m.id == x.id
      ensures m == x
    {
      var i :| 0 <= i < |machines| && machines[i] == m;
      var j :| 0 <= j < |machines| && machines[j] == x;
      assert i == j;
    }
  }

  lemma {:induction false} StillDistinct(fleet: seq<Machine>, lost: nat)
    requires DistinctIds(fleet)
    ensures DistinctIds(Survivors(fleet, lost)) && |Survivors(fleet, lost)| >= |fleet| - 1
    ensures |Survivors(fleet, lost)| == |fleet| || exists m :: m in fleet && m.id == lost
  {
    if fleet != [] {
      StillDistinct(fleet[1..], lost);
      SurvivorIs(fleet[1..], lost);
      FirstDiffers(fleet);
      if fleet[0].id != lost {
        DistinctMore(fleet[0], Survivors(fleet[1..], lost));
      } else {
        assert [] + Survivors(fleet[1..], lost) == Survivors(fleet[1..], lost);
        assert fleet[0] in fleet;
      }
      assert forall m :: m in fleet[1..] ==> m in fleet;
    }
  }

  lemma FirstDiffers(fleet: seq<Machine>)
    requires DistinctIds(fleet) && fleet != []
    ensures DistinctIds(fleet[1..]) && forall m :: m in fleet[1..] ==> m.id != fleet[0].id
  {
    forall m | m in fleet[1..]
      ensures m.id != fleet[0].id
    {
      var i :| 0 <= i < |fleet[1..]| && fleet[1..][i] == m;
      assert fleet[i + 1] == m;
    }
  }

  lemma DistinctMore(m: Machine, rest: seq<Machine>)
    requires DistinctIds(rest) && forall x :: x in rest ==> x.id != m.id
    ensures DistinctIds([m] + rest)
  {
    assert forall i :: 0 <= i < |rest| ==> rest[i] in rest;
  }

  // x has no weight and y weighs one: x hashes above y, and both above the others.
  lemma OneWeighted(left: seq<Machine>, x: Machine, y: Machine) returns (h: Hasher)
    requires UniqueIds(left) && x in left && y in left && x.id != y.id && x.weight == 0.0 && y.weight == 1.0
    ensures Leads(h, true, left, y.id) && Leads(h, false, left, x.id)
  {
    h := Hasher((p: nat, id: nat) => if id == x.id then 2 else if id == y.id then 1 else 0);
    Leader(h, true, left, y);
    Leader(h, false, left, x);
  }

  // Neither has a weight: only x hashes above zero, and with scaling all tie.
  lemma NoneWeighted(left: seq<Machine>, x: Machine, y: Machine) returns (h: Hasher, a: nat)
    requires UniqueIds(left) && x in left && y in left && x.id > y.id && x.weight == 0.0
    ensures Leads(h, true, left, a) && Leads(h, false, left, x.id) && a != x.id
  {
    h := Hasher((p: nat, id: nat) => if id == x.id then 1 else 0);
    var z := LeastId(left);
    a := z.id;
    Leader(h, true, left, z);
    Leader(h, false, left, x);
  }

  lemma Scrambled(h: Hasher, fleet: seq<Machine>, lost: nat, replicas: nat, before: seq<Meta>, after: seq<Meta>, a: nat, b: nat)
    requires DistinctIds(fleet) && Survivors(fleet, lost) != [] && replicas > 0 && a != b
    requires Scaled(fleet) && !Scaled(Survivors(fleet, lost)) && |Survivors(fleet, lost)| > 1
    requires Leads(h, true, Survivors(fleet, lost), a) && Leads(h, false, Survivors(fleet, lost), b)
    requires Replaced(h, fleet, lost, replicas, before, after) && before != []
    ensures !Promotion(before, after, lost)
  {
    var left := Survivors(fleet, lost);
    SurvivorIs(fleet, lost);
    assert left[0] in fleet;
    var m, n := before[0], after[0];
    assert Placed(h, fleet, replicas, 0, m) && Placed(h, left, replicas, 0, n);
    hide Survivors, Scaled, Without, IsRanking, AllPlaced;
    var s := RankingExists(h, fleet, 0);
    var u := RankingExists(h, left, 0);
    assert [m.primary] + m.replicas == Ids(Top(s, replicas)) && [n.primary] + n.replicas == Ids(Top(u, replicas));
    hide Placed;
    FirstRanked(s, m, replicas);
    FirstRanked(u, n, replicas);
    assert n.primary == b;
    ListedSurvivor(h, fleet, lost, replicas, s, a);
    assert ([m.primary] + m.replicas)[1..] == m.replicas;
  }

  // The first survivor of the old preference list is the one that leads with scaling.
  lemma ListedSurvivor(h: Hasher, fleet: seq<Machine>, lost: nat, replicas: nat, s: seq<Rank>, a: nat)
    requires DistinctIds(fleet) && |Survivors(fleet, lost)| > 1 && replicas > 0
    requires IsRanking(s, h, true, 0, fleet) && Leads(h, true, Survivors(fleet, lost), a)
    ensures FirstOther(Ids(Top(s, replicas)), lost) == Some(a)
  {
    hide Survivors, Without, FirstOther, Leads;
    var left := Survivors(fleet, lost);
    var t := Rankings(Ranks(h, true, 0, left));
    RankingWithout(s, t, h, true, 0, fleet, lost);
    assert t != [] && t[0].id == a by {
      LeadsNow(h, true, left, a, t);
    }
    assert |s| == |multiset(s)| == |fleet|;
    assert |t| == |multiset(t)| == |left|;
    StillDistinct(fleet, lost);
    SurvivorsFewer(fleet, lost);
    FirstOfWithout(s, lost);
    NotBothLost(s, lost);
    var n := |Top(s, replicas)|;
    assert Ids(Top(s, replicas)) == Ids(s)[..n] && n >= 2;
    SomeOther(Ids(s)[..n], lost);
    FirstOfPrefix(Ids(s), n, lost);
  }

  lemma LeadsNow(h: Hasher, scaled: bool, left: seq<Machine>, id: nat, t: seq<Rank>)
    requires Leads(h, scaled, left, id) && IsRanking(t, h, scaled, 0, left)
    ensures t != [] && t[0].id == id
  {
  }

  lemma SomeOther(ids: seq<nat>, lost: nat)
    requires |ids| >= 2 && (ids[0] != lost || ids[1] != lost)
    ensures FirstOther(ids, lost).Some?
  {
    assert FirstOther(ids[1..], lost).Some? || ids[0] != lost;
  }

  lemma NotBothLost(s: seq<Rank>, lost: nat)
    requires |s| >= 2 && |Without(s, lost)| >= |s| - 1
    ensures s[0].id != lost || s[1].id != lost
  {
    WithoutFewer(s[1..][1..], lost);
  }

  lemma {:induction false} WithoutFewer(s: seq<Rank>, lost: nat)
    ensures |Without(s, lost)| <= |s|
  {
    if s != [] {
      WithoutFewer(s[1..], lost);
    }
  }

  // Losing the one machine with a capacity weight, when another has none: partition 0 moves from
  // machine 2, which is not lost, to machine 1.
  const UNEVEN: seq<Machine> := [Machine(1, 0.0), Machine(2, 1.0), Machine(3, 2.0)]
  const EVEN: seq<Machine> := [Machine(1, 0.0), Machine(2, 1.0)]

  function Flipping(): Hasher {
    Hasher((p: nat, id: nat) => if id == 1 then 2 else if id == 2 then 1 else 0)
  }

  method RescalingMovesOthers() returns (c: Control, was: nat, promoted: seq<nat>)
    ensures fresh(c) && c.Valid() && c.machines == EVEN
    ensures was == 2 && 0 in promoted && c.partitions[0].primary == 1
  {
    hide AllPlaced, Placed, Leads, Scaled, Survivors, MissesSince;
    ScalesOf();
    UnevenRanking();
    EvenRanking();
    c := new Control(Flipping());
    c.SetReplicas(1);
    c.SetMachines(UNEVEN);
    LedBy(c.h, UNEVEN, 1, c.partitions, 2);
    was := c.partitions[0].primary;
    promoted := c.FailMachine(3);
    LedBy(c.h, EVEN, 1, c.partitions, 1);
  }

  lemma LedBy(h: Hasher, machines: seq<Machine>, replicas: nat, partitions: seq<Meta>, id: nat)
    requires AllPlaced(h, machines, replicas, partitions) && machines != [] && partitions != [] && replicas > 0
    requires Leads(h, Scaled(machines), machines, id)
    ensures partitions[0].primary == id
  {
    hide IsRanking;
    assert Placed(h, machines, replicas, 0, partitions[0]);
    var s := RankingExists(h, machines, 0);
    FirstRanked(s, partitions[0], replicas);
  }

  lemma UnevenRanking()
    ensures Leads(Flipping(), true, UNEVEN, 2)
  {
    Leader(Flipping(), true, UNEVEN, Machine(2, 1.0));
  }

  lemma EvenRanking()
    ensures Leads(Flipping(), false, EVEN, 1)
  {
    Leader(Flipping(), false, EVEN, Machine(1, 0.0));
  }

  lemma ScalesOf()
    ensures Scaled(UNEVEN) && !Scaled(EVEN) && Survivors(UNEVEN, 3) == EVEN
  {
    var a, b, c := Machine(1, 0.0), Machine(2, 1.0), Machine(3, 2.0);
    assert UNEVEN[1..] == [b, c] && [b, c][1..] == [c] && [c][1..] == [];
    assert EVEN[1..] == [b] && [b][1..] == [];
    assert Scaled([c]) && Scaled([b, c]) && !Scaled([b]);
    assert Survivors([c], 3) == [];
    assert Survivors([b, c], 3) == [b] + Survivors([c], 3) == [b];
    assert Survivors(UNEVEN, 3) == [a] + Survivors([b, c], 3);
  }

  // The miss counter outlives its partition: a partition id that is given out again starts with the
  // misses of the one before it.
  method NewPartitionFails(c: Control) returns (health: Health)
    requires c.Valid()
    modifies c
    ensures c.Valid() && health == Failed
  {
    var id := c.AddPartition();
    var first := c.MissHeartbeat(id);
    var second := c.MissHeartbeat(id);
    var gone := c.RemovePartition();
    var again := c.AddPartition();
    assert again == id && c.partitions[id].health == Alive;
    health := c.MissHeartbeat(again);
  }
}
