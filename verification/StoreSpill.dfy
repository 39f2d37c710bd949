// Eviction against the checkpoint protocol of store/store.go. A row out of memory is read back by its
// offset in the open log. commit swaps that log and leaves the offsets alone, so a row written before
// the last commit and evicted is out of reach. This machine adds eviction to the one of StoreCrash; it
// is that machine exactly while no evicted row is out of reach.
module StoreSpill {
  import opened Wrappers
  import opened StoreCrash

  // core.image is what the store means: what its callers wrote. evicted holds the URL rows that are
  // not in memory, recent those whose last write is in the open log.
  datatype Spill = Spill(core: State, evicted: set<nat>, recent: set<nat>)

  // misread is what reads through stale offsets return: nothing, or some other row's body.
  datatype Move =
    | Core(e: Event, misread: map<nat, int>)
    | Evict(key: nat)
    | Load(key: nat, val: int)   // GetURL of an evicted row, which becomes resident

  function Unreachable(v: Spill): set<nat> {
    v.evicted - v.recent
  }

  // snapshotPartition: the rows in memory, those the open log gives back, and what a stale offset
  // happens to give; a row whose read fails is left out.
  function Snapshot(v: Spill, misread: map<nat, int>): Image {
    v.core.image.(urls := (v.core.image.urls - Unreachable(v)) + misread)
  }

  predicate MoveEnabled(v: Spill, m: Move) {
    match m
    case Core(e, misread) => Enabled(v.core, e) && misread.Keys <= Unreachable(v)
    case Evict(k) => v.core.phase.Idle? && k in v.core.image.urls && k !in v.evicted
    case Load(k, val) =>
      v.core.phase.Idle? && k in v.evicted && k in v.core.image.urls && (k in v.recent ==> val == v.core.image.urls[k])
  }

  // The rows that replay finds a frame for.
  function Written(ops: seq<Op>): set<nat> {
    set op | op in ops && op.PutUrl? :: op.key
  }

  function CoreMove(v: Spill, e: Event, misread: map<nat, int>): Spill
    requires Enabled(v.core, e)
  {
    match e
    case Append(PutUrl(k, _)) => Spill(Step(v.core, e), v.evicted - {k}, v.recent + {k})
    case Append(DelUrl(k)) => Spill(Step(v.core, e), v.evicted - {k}, v.recent - {k})
    case EndSnap => v.(core := SnapStep(v.core, Some(Snapshot(v, misread)), WroteSnap))
    case EndSlot => Spill(Step(v.core, e), v.evicted, {})
    case Crash(_, _, _, _) => Spill(Step(v.core, e), {}, {})
    case Recover => Spill(Step(v.core, e), {}, Written(Ops(Replay(LogOf(v.core.disk, v.core.gen + 1).chunks))))
    case _ => v.(core := Step(v.core, e))
  }

  function MoveStep(v: Spill, m: Move): Spill
    requires MoveEnabled(v, m)
  {
    match m
    case Core(e, misread) => CoreMove(v, e, misread)
    case Evict(k) => v.(evicted := v.evicted + {k})
    case Load(k, val) =>
      v.(evicted := v.evicted - {k}, core := v.core.(image := v.core.image.(urls := v.core.image.urls[k := val])))
  }

  // The guard: a commit finds every row in memory, and only rows written since are evicted. A store
  // without a resident budget meets it always; one with a budget meets it while Resident stays below.
  predicate Spares(v: Spill, m: Move) {
    match m
    case Core(e, _) => e.EndSlot? ==> v.evicted == {}
    case Evict(k) => k in v.recent
    case Load(_, _) => true
  }

  ghost predicate Within(v: Spill) {
    v.evicted <= v.core.image.urls.Keys
  }

  // No evicted row is out of reach.
  ghost predicate Sound(v: Spill) {
    Within(v) && Unreachable(v) == {}
  }

  // Such a store takes the steps of the plain protocol, or stands still.
  lemma Refines(v: Spill, m: Move)
    requires Sound(v) && MoveEnabled(v, m) && Spares(v, m)
    ensures Sound(MoveStep(v, m))
    ensures if m.Core? then MoveStep(v, m).core == Step(v.core, m.e) else MoveStep(v, m).core == v.core
  {
    match m
    case Core(e, misread) => RefinesCore(v, e, misread);
    case Evict(k) =>
    case Load(k, val) =>
      assert k !in Unreachable(v);
      assert v.core.image.urls[k := val] == v.core.image.urls;
  }

  lemma RefinesCore(v: Spill, e: Event, misread: map<nat, int>)
    requires Sound(v) && Enabled(v.core, e) && misread == map[] && (e.EndSlot? ==> v.evicted == {})
    ensures Sound(CoreMove(v, e, misread)) && CoreMove(v, e, misread).core == Step(v.core, e)
  {
    hide CrashStep, Restart;
    match e
    case EndSnap => assert v.core.image.urls - {} + map[] == v.core.image.urls;
    case _ =>
  }

  ghost predicate IsSpillRun(states: seq<Spill>, moves: seq<Move>) {
    && |states| == |moves| + 1 && states[0] == Spill(FRESH, {}, {})
    && forall i :: 0 <= i < |moves| ==> MoveEnabled(states[i], moves[i]) && states[i + 1] == MoveStep(states[i], moves[i])
  }

  ghost predicate AlwaysSpares(states: seq<Spill>, moves: seq<Move>)
    requires |states| == |moves| + 1
  {
    forall i :: 0 <= i < |moves| ==> Spares(states[i], moves[i])
  }

  // Consistency of the evicting store: a guarded run, with crashes and torn writes anywhere, always
  // holds exactly the updates of its history, every one of them within reach.
  lemma {:induction false} EvictingStoreIsAPrefix(states: seq<Spill>, moves: seq<Move>, k: nat)
    requires IsSpillRun(states, moves) && AlwaysSpares(states, moves) && k < |states|
    ensures Sound(states[k]) && Inv(states[k].core)
    ensures var s := states[k].core;
      !s.phase.Down? ==> s.image == Fold(EMPTY, s.history) && s.nextLSN == |s.history| + 1
  {
    hide MoveStep, MoveEnabled, Spares, OnDisk;
    if k > 0 {
      EvictingStoreIsAPrefix(states, moves, k - 1);
      Refines(states[k - 1], moves[k - 1]);
      MoveKeepsInv(states[k - 1], moves[k - 1]);
    } else {
      FreshHolds();
    }
  }

  lemma FreshHolds()
    ensures Inv(FRESH) && Sound(Spill(FRESH, {}, {}))
  {
  }

  lemma MoveKeepsInv(v: Spill, m: Move)
    requires Sound(v) && MoveEnabled(v, m) && Spares(v, m) && Inv(v.core)
    ensures Inv(MoveStep(v, m).core)
  {
    Refines(v, m);
    hide Inv, MoveStep, Step;
    if m.Core? {
      StepInv(v.core, m.e);
    }
  }

  // Durability of the evicting store: a guarded run whose fsyncs find the open log clean loses no
  // acknowledged update.
  lemma {:induction false} EvictingStoreLosesNothing(states: seq<Spill>, moves: seq<Move>, k: nat)
    requires IsSpillRun(states, moves) && AlwaysSpares(states, moves) && k < |states|
    requires forall i :: 0 <= i < |moves| && moves[i].Core? && moves[i].e.Fsync? ==>
      Clean(LogOf(states[i].core.disk, states[i].core.gen + 1).chunks)
    ensures Safe(states[k].core)
  {
    hide MoveStep, MoveEnabled, Spares, Inv, Safe;
    if k > 0 {
      EvictingStoreLosesNothing(states, moves, k - 1);
      EvictingStoreIsAPrefix(states, moves, k - 1);
      Refines(states[k - 1], moves[k - 1]);
      if moves[k - 1].Core? {
        CoreEnabled(states[k - 1], moves[k - 1]);
        SafeStep(states[k - 1].core, moves[k - 1].e);
      }
    } else {
      FreshIsSafe();
    }
  }

  lemma CoreEnabled(v: Spill, m: Move)
    requires MoveEnabled(v, m) && m.Core?
    ensures Enabled(v.core, m.e)
  {
  }

  // ---- what the guard is worth ----

  // Whatever the stale reads return, the snapshot is the store's contents: exactly when no evicted
  // row is out of reach.
  lemma SnapshotWholeIff(v: Spill)
    requires Within(v)
    ensures (forall misread: map<nat, int> :: misread.Keys <= Unreachable(v) ==> Snapshot(v, misread) == v.core.image) <==> Unreachable(v) == {}
  {
    if Unreachable(v) == {} {
      forall misread: map<nat, int> | misread.Keys <= Unreachable(v)
        ensures Snapshot(v, misread) == v.core.image
      {
        assert misread == map[];
        assert v.core.image.urls - {} + map[] == v.core.image.urls;
      }
    } else {
      var k :| k in Unreachable(v);
      var none: map<nat, int> := map[];
      assert none.Keys <= Unreachable(v);
      assert k !in Snapshot(v, none).urls && k in v.core.image.urls;
    }
  }

  // After a commit every row that was not in memory is out of reach, and no other.
  lemma CommitStrands(v: Spill)
    requires Within(v) && v.core.phase.WritingSlot?
    ensures Unreachable(CoreMove(v, EndSlot, map[])) == v.evicted
    ensures Within(CoreMove(v, EndSlot, map[]))
  {
  }

  // The next step of a checkpoint, in a store that does nothing else.
  function NextMove(v: Spill): Move {
    Core(match v.core.phase
         case Idle => BeginSnap
         case WritingSnap => EndSnap
         case WroteSnap => OpenNextLog
         case OpenedLog => BeginSlot
         case WritingSlot => EndSlot
         case Published => RemoveLog
         case RemovedLog => RemoveSnap
         case Down => Recover, map[])
  }

  function Turn(v: Spill): Spill {
    if MoveEnabled(v, NextMove(v)) then MoveStep(v, NextMove(v)) else v
  }

  function Advance(v: Spill, n: nat): Spill
    decreases n
  {
    if n == 0 then v else Advance(Turn(v), n - 1)
  }

  // A row evicted at one checkpoint is missing from the snapshot of the next, though nothing crashed
  // and nobody deleted it; the snapshot that had it is then removed, and recovery comes up without it.
  lemma SecondCheckpointDropsRow(v: Spill, k: nat) returns (w: Spill)
    requires Sound(v) && Inv(v.core) && v.core.phase.Idle? && k in v.evicted
    ensures w == Advance(v, 12) && w.core.phase.Published?
    ensures w.core.history == v.core.history && k in Fold(EMPTY, w.core.history).urls
    ensures k !in Recovered(w.core.disk).0.urls
  {
    hide Turn, Inv, Fold, Advance, Recovered;
    var a := Advance(v, 2);
    var b := Advance(a, 3);
    var c := Advance(b, 4);
    w := Advance(c, 3);
    AdvanceSum(v, 2, 3);
    AdvanceSum(v, 5, 4);
    AdvanceSum(v, 9, 3);
    ToSnapshot(v);
    ToSlot(a);
    RowIsThere(v, k);
    FromSlot(b, k);
    ToSlot(c);
    NextLogIsNew(v.core);
    RecoversFrom(w.core.disk, w.core.gen, k);
  }

  function SlotAt(d: Disk, g: nat): Slot {
    if g % 2 == 0 then d.slotA else d.slotB
  }

  lemma NextLogIsNew(s: State)
    requires Inv(s)
    ensures LogOf(s.disk, s.gen + 3) == NEW_LOG
  {
    hide Running, SlotsOk, SnapOk;
  }

  // Recovery from the newer of two slots, over an empty log, is that slot's snapshot.
  lemma RecoversFrom(d: Disk, g: nat, k: nat)
    requires g > 0 && SlotAt(d, g).Good? && SlotAt(d, g).meta.gen == g
    requires SlotAt(d, g + 1).Good? && SlotAt(d, g + 1).meta.gen < g
    requires g in d.snaps && d.snaps[g].Some? && k !in d.snaps[g].value.urls && LogOf(d, g + 1) == NEW_LOG
    ensures k !in Recovered(d).0.urls
  {
    assert ReadSuperblock(d).gen == g;
    assert Replay([]) == [] && Ops([]) == [];
  }

  lemma RowIsThere(v: Spill, k: nat)
    requires Sound(v) && Inv(v.core) && v.core.phase.Idle? && k in v.evicted
    ensures k in v.core.image.urls && v.core.image == Fold(EMPTY, v.core.history)
  {
    hide OnDisk;
  }

  lemma {:induction false} AdvanceSum(v: Spill, m: nat, n: nat)
    ensures Advance(v, m + n) == Advance(Advance(v, m), n)
    decreases m
  {
    hide Turn;
    if m > 0 {
      AdvanceSum(Turn(v), m - 1, n);
    }
  }

  lemma AdvanceOne(v: Spill)
    ensures Advance(v, 1) == Turn(v)
  {
    hide Turn;
    assert Advance(Turn(v), 0) == Turn(v);
  }

  lemma Twice(v: Spill)
    ensures Advance(v, 2) == Turn(Turn(v))
  {
    hide Turn;
    AdvanceOne(v);
    AdvanceOne(Turn(v));
    AdvanceSum(v, 1, 1);
  }

  lemma ToSnapshot(v: Spill)
    requires v.core.phase.Idle?
    ensures var a := Advance(v, 2);
      && a.core.phase.WroteSnap? && a.evicted == v.evicted && a.recent == v.recent
      && a.core.image == v.core.image && a.core.history == v.core.history && a.core.gen == v.core.gen
      && a.core.gen + 1 in a.core.disk.snaps && a.core.disk.snaps[a.core.gen + 1] == Some(Snapshot(v, map[]))
      && a.core.disk.slotA == v.core.disk.slotA && a.core.disk.slotB == v.core.disk.slotB && a.core.disk.logs == v.core.disk.logs
  {
    Twice(v);
    hide Advance;
  }

  lemma ToSlot(a: Spill)
    requires a.core.phase.WroteSnap?
    ensures var b := Advance(a, 3);
      && b.core.phase.Published? && b.evicted == a.evicted && b.recent == {}
      && b.core.image == a.core.image && b.core.history == a.core.history && b.core.gen == a.core.gen + 1
      && b.core.disk.snaps == a.core.disk.snaps && (forall n :: LogOf(b.core.disk, n) == LogOf(a.core.disk, n))
      && SlotAt(b.core.disk, b.core.gen) == Good(Meta(b.core.gen, a.core.nextLSN))
      && SlotAt(b.core.disk, b.core.gen + 1) == SlotAt(a.core.disk, b.core.gen + 1)
  {
    Twice(a);
    AdvanceSum(a, 2, 1);
    AdvanceOne(Advance(a, 2));
    hide Advance;
  }

  lemma FromSlot(b: Spill, k: nat)
    requires b.core.phase.Published? && k in b.evicted && b.recent == {} && k in b.core.image.urls
    ensures var w := Advance(b, 4);
      && w.core.phase.WroteSnap? && w.core.history == b.core.history && w.core.gen == b.core.gen
      && w.core.gen + 1 in w.core.disk.snaps && w.core.disk.snaps[w.core.gen + 1].Some?
      && k !in w.core.disk.snaps[w.core.gen + 1].value.urls
      && w.core.disk.slotA == b.core.disk.slotA && w.core.disk.slotB == b.core.disk.slotB
      && forall n :: n > b.core.gen ==> LogOf(w.core.disk, n) == LogOf(b.core.disk, n)
  {
    AdvanceSum(b, 2, 2);
    Reclaim(b);
    hide Advance, Turn;
    ToSnapshot(Advance(b, 2));
  }

  lemma Reclaim(b: Spill)
    requires b.core.phase.Published?
    ensures var c := Advance(b, 2);
      && c.core.phase.Idle? && c.evicted == b.evicted && c.recent == b.recent
      && c.core.image == b.core.image && c.core.history == b.core.history && c.core.gen == b.core.gen
      && c.core.disk.slotA == b.core.disk.slotA && c.core.disk.slotB == b.core.disk.slotB
      && forall n :: n > b.core.gen ==> LogOf(c.core.disk, n) == LogOf(b.core.disk, n)
  {
    Twice(b);
    hide Advance;
  }
}
