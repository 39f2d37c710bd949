// Model of distribute/elasticity.go: the control loop that adds and removes partitions on backlog.
module Elasticity {
  import opened Wrappers
  import opened Fleet

  datatype Config = Config(highWater: int, lowWater: int, minPartitions: int, maxPartitions: int, breaches: int, cooldown: int)

  datatype Scale = Hold | Up | Down

  // One control interval as seen from outside: the mean backlog and what the loop did.
  datatype Interval = Interval(load: int, scale: Scale)

  // The defaults NewElasticity fills in.
  function Filled(c: Config): Config {
    var lo := if c.minPartitions < 1 then 1 else c.minPartitions;
    Config(if c.highWater < 1 then 1 else c.highWater, c.lowWater, lo,
           if c.maxPartitions < lo then lo else c.maxPartitions, if c.breaches < 1 then 1 else c.breaches, c.cooldown)
  }

  function Sum(b: seq<int>): int {
    if b == [] then 0 else Sum(b[..|b| - 1]) + b[|b| - 1]
  }

  // meanBacklog; Go's division truncates toward zero.
  function Mean(b: seq<int>): int {
    if b == [] then 0 else if Sum(b) >= 0 then Sum(b) / |b| else -(-Sum(b) / |b|)
  }

  function Pause(c: Config): nat {
    if c.cooldown < 0 then 0 else c.cooldown
  }

  predicate Over(c: Config, load: int) {
    load > c.highWater
  }

  predicate Under(c: Config, load: int) {
    c.lowWater > 0 && load < c.lowWater && !Over(c, load)
  }

  // ---- what the loop promises of its whole history ----

  // Two resizes are at least a cooldown and a full run of breaches apart.
  ghost predicate Paced(c: Config, past: seq<Interval>) {
    forall i, j :: 0 <= i < j < |past| && past[i].scale != Hold && past[j].scale != Hold ==> j - i >= Pause(c) + c.breaches
  }

  // The last n intervals were all over the high mark, or all under the low one.
  ghost predicate RunOver(c: Config, past: seq<Interval>, n: nat) {
    n <= |past| && forall i :: |past| - n <= i < |past| ==> Over(c, past[i].load)
  }

  ghost predicate RunUnder(c: Config, past: seq<Interval>, n: nat) {
    n <= |past| && forall i :: |past| - n <= i < |past| ==> Under(c, past[i].load)
  }

  // Every resize answers a breach that held for the whole run of intervals up to it.
  ghost predicate Justified(c: Config, past: seq<Interval>)
    requires c.breaches >= 1
  {
    forall j :: 0 <= j < |past| ==>
      && (past[j].scale == Up ==> RunOver(c, past[..j + 1], c.breaches))
      && (past[j].scale == Down ==> RunUnder(c, past[..j + 1], c.breaches))
  }

  // Intervals since the last resize, or since the start.
  ghost function Since(past: seq<Interval>): nat {
    if past == [] || past[|past| - 1].scale != Hold then 0 else Since(past[..|past| - 1]) + 1
  }

  lemma SinceNext(past: seq<Interval>, x: Interval)
    ensures Since(past + [x]) == if x.scale != Hold then 0 else Since(past) + 1
  {
    assert (past + [x])[..|past|] == past;
  }

  // Has the loop resized at all?
  ghost predicate Resized(past: seq<Interval>) {
    exists i :: 0 <= i < |past| && past[i].scale != Hold
  }

  lemma {:induction false} SinceBound(past: seq<Interval>)
    ensures Since(past) <= |past|
    ensures forall i :: 0 <= i < |past| && past[i].scale != Hold ==> i + Since(past) < |past|
    ensures Resized(past) ==> Since(past) < |past|
  {
    if past != [] && past[|past| - 1].scale == Hold {
      SinceBound(past[..|past| - 1]);
      var before := past[..|past| - 1];
      forall i | 0 <= i < |past| && past[i].scale != Hold
        ensures i + Since(past) < |past|
      {
        assert before[i] == past[i];
      }
    }
  }

  // The cooldown counts down from the last resize, and a streak cannot be longer than the intervals
  // after the cooldown.
  ghost predicate InStep(c: Config, past: seq<Interval>, high: int, low: int, cooldown: int) {
    var since := Since(past);
    && c.breaches >= 1 && high >= 0 && low >= 0
    && (Resized(past) ==> if since < Pause(c) then cooldown == Pause(c) - since else cooldown <= 0)
    && (Resized(past) ==> high <= since && low <= since && (since < Pause(c) ==> high == low == 0))
    && (Resized(past) && since >= Pause(c) ==> high + Pause(c) <= since && low + Pause(c) <= since)
    && RunOver(c, past, high) && RunUnder(c, past, low)
  }

  lemma HoldStep(c: Config, past: seq<Interval>, x: Interval)
    requires c.breaches >= 1 && Paced(c, past) && Justified(c, past) && x.scale == Hold
    ensures Paced(c, past + [x]) && Justified(c, past + [x])
  {
    var after := past + [x];
    forall j | 0 <= j < |past|
      ensures after[j] == past[j] && after[..j + 1] == past[..j + 1]
    {
    }
  }

  lemma ActStep(c: Config, past: seq<Interval>, x: Interval, high: int, low: int, cooldown: int)
    requires InStep(c, past, high, low, cooldown) && cooldown <= 0 && Paced(c, past) && Justified(c, past)
    requires (x.scale == Up && Over(c, x.load) && high + 1 >= c.breaches) || (x.scale == Down && Under(c, x.load) && low + 1 >= c.breaches)
    ensures Paced(c, past + [x]) && Justified(c, past + [x])
  {
    var after := past + [x];
    SinceBound(past);
    forall j | 0 <= j < |past|
      ensures after[j] == past[j] && after[..j + 1] == past[..j + 1]
    {
    }
    assert after[..|past| + 1] == after;
    forall i | 0 <= i < |past| && past[i].scale != Hold
      ensures |past| - i >= Pause(c) + c.breaches
    {
      assert Resized(past);
    }
  }

  lemma ResizedNext(past: seq<Interval>, x: Interval)
    ensures Resized(past + [x]) <==> Resized(past) || x.scale != Hold
  {
    var after := past + [x];
    if Resized(past) {
      var i :| 0 <= i < |past| && past[i].scale != Hold;
      assert after[i].scale != Hold;
    }
    assert after[|past|] == x;
  }

  lemma StepCount(c: Config, past: seq<Interval>, x: Interval, high: int, low: int, cooldown: int, high': int, low': int, cooldown': int)
    requires InStep(c, past, high, low, cooldown)
    requires
      if x.scale != Hold then high' == low' == 0 && cooldown' == c.cooldown
      else if cooldown > 0 then high' == low' == 0 && cooldown' == cooldown - 1
      else && cooldown' == cooldown
           && high' == (if Over(c, x.load) then high + 1 else 0)
           && low' == (if Under(c, x.load) then low + 1 else 0)
    ensures InStep(c, past + [x], high', low', cooldown')
  {
    SinceNext(past, x);
    ResizedNext(past, x);
    var after := past + [x];
    assert forall i :: 0 <= i < |past| ==> after[i] == past[i];
  }

  class Loop {
    const c: Config
    const ctl: Control
    var highStreak: int
    var lowStreak: int
    var cooldown: int
    ghost var past: seq<Interval>

    ghost predicate Valid()
      reads this, ctl
    {
      && ctl.Valid() && c == Filled(c)
      && InStep(c, past, highStreak, lowStreak, cooldown) && Paced(c, past) && Justified(c, past)
    }

    constructor (cfg: Config, ctl: Control)
      requires ctl.Valid()
      ensures Valid() && this.ctl == ctl && c == Filled(cfg) && past == []
    {
      c, this.ctl := Filled(cfg), ctl;
      highStreak, lowStreak, cooldown, past := 0, 0, 0, [];
    }

    // The count of partitions after a decision, when it starts within the limits.
    predicate Within(n: int) {
      c.minPartitions <= n <= c.maxPartitions
    }

    // Tick: at most one resize, by one partition, within the limits, no sooner than the pacing
    // allows and only on a sustained breach.
    method Tick(backlog: seq<int>) returns (s: Scale)
      requires Valid()
      modifies this, ctl
      ensures Valid() && past == old(past) + [Interval(Mean(backlog), s)]
      ensures |ctl.partitions| == |old(ctl.partitions)| + match s case Hold => 0 case Up => 1 case Down => -1
      ensures Within(|old(ctl.partitions)|) ==> Within(|ctl.partitions|)
    {
      hide InStep, Paced, Justified, Control.Valid;
      var load := Mean(backlog);
      s := Decide(load);
      past := past + [Interval(load, s)];
    }

    method Decide(load: int) returns (s: Scale)
      requires Valid()
      modifies this, ctl
      ensures ctl.Valid() && past == old(past)
      ensures var after := past + [Interval(load, s)];
        InStep(c, after, highStreak, lowStreak, cooldown) && Paced(c, after) && Justified(c, after)
      ensures |ctl.partitions| == |old(ctl.partitions)| + match s case Hold => 0 case Up => 1 case Down => -1
      ensures Within(|old(ctl.partitions)|) ==> Within(|ctl.partitions|)
    {
      Streaks();
      hide InStep, Paced, Justified, Control.Valid;
      ghost var high, low, left := highStreak, lowStreak, cooldown;
      HoldStep(c, past, Interval(load, Hold));
      if cooldown > 0 {
        cooldown := cooldown - 1;
        highStreak, lowStreak := 0, 0;
        StepCount(c, past, Interval(load, Hold), high, low, left, 0, 0, cooldown);
        return Hold;
      }
      var n := |ctl.partitions|;
      if load > c.highWater {
        highStreak, lowStreak := highStreak + 1, 0;
      } else if c.lowWater > 0 && load < c.lowWater {
        lowStreak, highStreak := lowStreak + 1, 0;
      } else {
        highStreak, lowStreak := 0, 0;
      }
      if highStreak >= c.breaches && n < c.maxPartitions {
        ActStep(c, past, Interval(load, Up), high, low, left);
        StepCount(c, past, Interval(load, Up), high, low, left, 0, 0, c.cooldown);
        var id := ctl.AddPartition();
        AfterAction();
        return Up;
      }
      if lowStreak >= c.breaches && n > c.minPartitions {
        ActStep(c, past, Interval(load, Down), high, low, left);
        StepCount(c, past, Interval(load, Down), high, low, left, 0, 0, c.cooldown);
        var removed := ctl.RemovePartition();
        AfterAction();
        return Down;
      }
      StepCount(c, past, Interval(load, Hold), high, low, left, highStreak, lowStreak, cooldown);
      return Hold;
    }

    // Breaches is at least one, so a streak that meets it was extended by this interval.
    lemma Streaks()
      requires Valid()
      ensures highStreak >= 0 && lowStreak >= 0 && c.breaches >= 1 && c.minPartitions >= 1
    {
    }

    // afterAction
    method AfterAction()
      modifies `highStreak, `lowStreak, `cooldown
      ensures highStreak == lowStreak == 0 && cooldown == c.cooldown
    {
      highStreak, lowStreak := 0, 0;
      cooldown := c.cooldown;
    }
  }

  // Whatever the backlog does, the loop's whole history is paced and justified and the fleet stays
  // within its limits.
  method Run(l: Loop, backlogs: seq<seq<int>>)
    requires l.Valid() && l.Within(|l.ctl.partitions|)
    modifies l, l.ctl
    ensures l.Valid() && l.Within(|l.ctl.partitions|) && |l.past| == |old(l.past)| + |backlogs|
    ensures Paced(l.c, l.past) && Justified(l.c, l.past)
  {
    for i := 0 to |backlogs|
      invariant l.Valid() && l.Within(|l.ctl.partitions|) && |l.past| == |old(l.past)| + i
    {
      var s := l.Tick(backlogs[i]);
    }
  }
}
