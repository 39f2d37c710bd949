// Model of the durability protocol of store/store.go, store/log.go and store/superblock.go as a
// state machine: appends and fsyncs of the journal, the steps of a checkpoint commit, crashes at
// any point, and redo recovery. What is issued to the store is its history; the store's state is
// always the fold of a prefix of it.
module StoreCrash {
  import opened Wrappers
  import opened Bytes
  import opened Arena

  // ---- updates and the state they build ----

  datatype Op =
    | PutUrl(key: nat, rec: int)
    | DelUrl(key: nat)
    | PutHost(host: nat, rec: int)
    | Intern(entry: bytes)

  // The live records and the arena: a snapshot, or the store's resident state.
  datatype Image = Image(urls: map<nat, int>, hosts: map<nat, int>, arena: bytes)

  const EMPTY := Image(map[], map[], [0])

  function Apply(m: Image, op: Op): Image {
    match op
    case PutUrl(k, r) => m.(urls := m.urls[k := r])
    case DelUrl(k) => m.(urls := m.urls - {k})
    case PutHost(h, r) => m.(hosts := m.hosts[h := r])
    case Intern(e) => m.(arena := m.arena + e)
  }

  function Fold(m: Image, ops: seq<Op>): Image {
    if ops == [] then m else Apply(Fold(m, ops[..|ops| - 1]), ops[|ops| - 1])
  }

  lemma {:induction false} FoldConcat(m: Image, a: seq<Op>, b: seq<Op>)
    ensures Fold(m, a + b) == Fold(Fold(m, a), b)
  {
    if b == [] {
      assert a + b == a;
    } else {
      var n := |b| - 1;
      assert (a + b)[..|a| + n] == a + b[..n];
      FoldConcat(m, a, b[..n]);
    }
  }

  // The arena only grows, so a prefix of the history leaves a prefix of the arena.
  lemma {:induction false} ArenaGrows(h: seq<Op>, p: nat)
    requires p <= |h|
    ensures Fold(EMPTY, h[..p]).arena <= Fold(EMPTY, h).arena
    decreases |h|
  {
    if p == |h| {
      assert h[..p] == h;
    } else {
      var n := |h| - 1;
      ArenaGrows(h[..n], p);
      assert h[..n][..p] == h[..p];
    }
  }

  // ---- files ----

  datatype Frame = Frame(lsn: nat, op: Op)

  // A log file is a run of frames, some of which may be torn. The first durable chunks survive any
  // crash.
  datatype Chunk = Whole(frame: Frame) | Torn
  datatype LogFile = LogFile(chunks: seq<Chunk>, durable: nat)

  const NEW_LOG := LogFile([], 0)

  // replay: the intact frames up to the first torn one.
  function Replay(chunks: seq<Chunk>): (fs: seq<Frame>)
    ensures |fs| <= |chunks|
  {
    if chunks == [] || chunks[0].Torn? then [] else [chunks[0].frame] + Replay(chunks[1..])
  }

  predicate Clean(chunks: seq<Chunk>) {
    forall i :: 0 <= i < |chunks| ==> chunks[i].Whole?
  }

  // Checkpoint g names snapshot snap-g and log log-(g+1); generation 0 has no snapshot.
  datatype Meta = Meta(gen: nat, frontier: nat)

  // A superblock slot: a torn or never written one fails its checksum.
  datatype Slot = Bad | Good(meta: Meta)

  // A snapshot file is None while its bytes are incomplete.
  datatype Disk = Disk(slotA: Slot, slotB: Slot, snaps: map<nat, Option<Image>>, logs: map<nat, LogFile>)

  // readSuperblock: the valid slot with the higher generation, or a fresh store.
  function ReadSuperblock(d: Disk): Meta {
    match (d.slotA, d.slotB)
    case (Good(a), Good(b)) => if a.gen >= b.gen then a else b
    case (Good(a), Bad) => a
    case (Bad, Good(b)) => b
    case (Bad, Bad) => Meta(0, 1)
  }

  // writeSuperblock: an even generation lands in slot A, an odd one in slot B.
  function WriteSlot(d: Disk, gen: nat, s: Slot): Disk {
    if gen % 2 == 0 then d.(slotA := s) else d.(slotB := s)
  }

  function LogOf(d: Disk, n: nat): LogFile {
    if n in d.logs then d.logs[n] else NEW_LOG
  }

  // ---- the machine ----

  // Where a checkpoint commit has got to.
  datatype Phase = Idle | WritingSnap | WroteSnap | OpenedLog | WritingSlot | Published | RemovedLog | Down

  // image, gen and nextLSN are the running store's; history, cut and acked exist for the proof:
  // history is every update issued and not lost, cut the length the current checkpoint covers, acked
  // how many an fsync has covered, and lostAcked whether a recovery ever came back with fewer.
  datatype State = State(disk: Disk, phase: Phase, image: Image, gen: nat, nextLSN: nat,
                         history: seq<Op>, cut: nat, acked: nat, lostAcked: bool)

  // What a crash in the middle of a slot write leaves in that slot.
  datatype SlotFate = Old | Damaged | New

  datatype Event =
    | Append(op: Op)      // log.append
    | Fsync               // log.fsync over everything written
    | BeginSnap | EndSnap // writeFileSync of the snapshot
    | OpenNextLog         // openLog of the fresh log
    | BeginSlot | EndSlot // writeSuperblock, then the in-memory swap
    | RemoveLog | RemoveSnap
    | Crash(keep: nat, torn: bool, settled: nat, fate: SlotFate)
    | Recover

  predicate Enabled(s: State, e: Event) {
    match e
    case Append(_) => s.phase.Idle?
    case Fsync => s.phase.Idle?
    case BeginSnap => s.phase.Idle?
    case EndSnap => s.phase.WritingSnap?
    case OpenNextLog => s.phase.WroteSnap?
    case BeginSlot => s.phase.OpenedLog?
    case EndSlot => s.phase.WritingSlot?
    case RemoveLog => s.phase.Published?
    case RemoveSnap => s.phase.RemovedLog?
    case Crash(keep, torn, settled, _) =>
      var log := LogOf(s.disk, s.gen + 1);
      !s.phase.Down? && log.durable <= keep <= |log.chunks| && log.durable <= settled <= keep + if torn then 1 else 0
    case Recover => s.phase.Down?
  }

  // log.append of one update's frame.
  function AppendStep(s: State, op: Op): State {
    var log := LogOf(s.disk, s.gen + 1);
    var log' := log.(chunks := log.chunks + [Whole(Frame(s.nextLSN, op))]);
    s.(disk := s.disk.(logs := s.disk.logs[s.gen + 1 := log']), image := Apply(s.image, op),
       nextLSN := s.nextLSN + 1, history := s.history + [op])
  }

  function FsyncStep(s: State): State {
    var log := LogOf(s.disk, s.gen + 1);
    s.(disk := s.disk.(logs := s.disk.logs[s.gen + 1 := log.(durable := |log.chunks|)]), acked := |s.history|)
  }

  // The bytes of the snapshot file, complete or not.
  function SnapStep(s: State, img: Option<Image>, phase: Phase): State {
    s.(disk := s.disk.(snaps := s.disk.snaps[s.gen + 1 := img]), phase := phase)
  }

  function OpenNextLogStep(s: State): State {
    s.(disk := s.disk.(logs := s.disk.logs[s.gen + 2 := LogOf(s.disk, s.gen + 2)]), phase := OpenedLog)
  }

  // The slot is on the device: the store swaps to the new log and generation.
  function EndSlotStep(s: State): State {
    s.(disk := WriteSlot(s.disk, s.gen + 1, Good(Meta(s.gen + 1, s.nextLSN))), phase := Published,
       gen := s.gen + 1, cut := |s.history|)
  }

  function RemoveLogStep(s: State): State {
    s.(disk := s.disk.(logs := s.disk.logs - {s.gen}), phase := RemovedLog)
  }

  function RemoveSnapStep(s: State): State {
    s.(disk := if s.gen > 1 then s.disk.(snaps := s.disk.snaps - {s.gen - 1}) else s.disk, phase := Idle)
  }

  // The current log keeps at least its durable chunks, then perhaps a torn one. Of what is left the
  // first settled chunks are on the device: all of them after a loss of power, and no more than before
  // when only the process died and the rest is still in the page cache. A slot being written keeps its
  // old content, is damaged, or is complete.
  function CutLog(d: Disk, n: nat, keep: nat, torn: bool, settled: nat): Disk
    requires keep <= |LogOf(d, n).chunks|
  {
    var left := LogOf(d, n).chunks[..keep] + if torn then [Torn] else [];
    d.(logs := d.logs[n := LogFile(left, settled)])
  }

  function CrashStep(s: State, keep: nat, torn: bool, settled: nat, fate: SlotFate): State
    requires keep <= |LogOf(s.disk, s.gen + 1).chunks|
  {
    var d := CutLog(s.disk, s.gen + 1, keep, torn, settled);
    if !s.phase.WritingSlot? || fate.Old? then s.(disk := d, phase := Down)
    else if fate.Damaged? then s.(disk := WriteSlot(d, s.gen + 1, Bad), phase := Down)
    else s.(disk := WriteSlot(d, s.gen + 1, Good(Meta(s.gen + 1, s.nextLSN))), phase := Down,
            gen := s.gen + 1, cut := |s.history|)
  }

  function Step(s: State, e: Event): State
    requires Enabled(s, e)
  {
    match e
    case Append(op) => AppendStep(s, op)
    case Fsync => FsyncStep(s)
    case BeginSnap => SnapStep(s, None, WritingSnap)
    case EndSnap => SnapStep(s, Some(s.image), WroteSnap)
    case OpenNextLog => OpenNextLogStep(s)
    case BeginSlot => s.(phase := WritingSlot)
    case EndSlot => EndSlotStep(s)
    case RemoveLog => RemoveLogStep(s)
    case RemoveSnap => RemoveSnapStep(s)
    case Crash(keep, torn, settled, fate) => CrashStep(s, keep, torn, settled, fate)
    case Recover => Restart(s)
  }

  // recover: load the snapshot the superblock names, redo the log's frames over it, and resume past
  // the highest sequence number seen.
  function Recovered(d: Disk): (Image, nat, nat) {
    var meta := ReadSuperblock(d);
    var base := if meta.gen in d.snaps && d.snaps[meta.gen].Some? then d.snaps[meta.gen].value else EMPTY;
    var fs := Replay(LogOf(d, meta.gen + 1).chunks);
    (Fold(base, Ops(fs)), meta.gen, if meta.frontier > MaxLSN(fs) + 1 then meta.frontier else MaxLSN(fs) + 1)
  }

  function Restart(s: State): State {
    var (image, gen, nextLSN) := Recovered(s.disk);
    var log := LogOf(s.disk, gen + 1);
    var n := s.cut + |Replay(log.chunks)|;
    s.(disk := s.disk.(logs := s.disk.logs[gen + 1 := log]), phase := Idle, image := image, gen := gen, nextLSN := nextLSN,
       history := if n <= |s.history| then s.history[..n] else s.history,
       acked := if s.acked <= n then s.acked else n, lostAcked := s.lostAcked || n < s.acked)
  }

  function Ops(fs: seq<Frame>): (ops: seq<Op>)
    ensures |ops| == |fs|
  {
    seq(|fs|, i requires 0 <= i < |fs| => fs[i].op)
  }

  function MaxLSN(fs: seq<Frame>): nat {
    if fs == [] then 0
    else
      var m := MaxLSN(fs[..|fs| - 1]);
      if fs[|fs| - 1].lsn > m then fs[|fs| - 1].lsn else m
  }

  const FRESH := State(Disk(Bad, Bad, map[], map[]), Down, EMPTY, 0, 1, [], 0, 0, false)

  // A run from an empty directory: it starts with the first Recover.
  ghost predicate IsRun(states: seq<State>, events: seq<Event>) {
    && |states| == |events| + 1 && states[0] == FRESH
    && forall i :: 0 <= i < |events| ==> Enabled(states[i], events[i]) && states[i + 1] == Step(states[i], events[i])
  }

  // ---- the invariant ----

  // fs are the frames of updates c, c + 1, ... of the history, with the sequence numbers in step.
  ghost predicate FramesOf(fs: seq<Frame>, h: seq<Op>, c: nat) {
    c + |fs| <= |h| && forall i :: 0 <= i < |fs| ==> fs[i] == Frame(c + i + 1, h[c + i])
  }

  // The superblock names checkpoint g.
  ghost predicate SlotsOk(d: Disk, c: nat, g: nat) {
    && (g == 0 ==> c == 0 && d.slotA.Bad? && d.slotB.Bad?)
    && (g > 0 ==> (if g % 2 == 0 then d.slotA else d.slotB) == Good(Meta(g, c + 1)))
    && (g > 0 && (if g % 2 == 0 then d.slotB else d.slotA).Good? ==> (if g % 2 == 0 then d.slotB else d.slotA).meta.gen < g)
  }

  // Snapshot g folds the first c updates.
  ghost predicate SnapOk(snaps: map<nat, Option<Image>>, h: seq<Op>, c: nat, g: nat) {
    && c <= |h| && 0 !in snaps && (g == 0 ==> c == 0)
    && (g > 0 ==> g in snaps && snaps[g] == Some(Fold(EMPTY, h[..c])))
  }

  // Log g + 1 holds frames that follow them, and later logs have not been written.
  ghost predicate LogsOk(d: Disk, h: seq<Op>, c: nat, g: nat) {
    && FramesOf(Replay(LogOf(d, g + 1).chunks), h, c)
    && LogOf(d, g + 1).durable <= |LogOf(d, g + 1).chunks|
    && (forall n :: n in d.logs && n > g + 1 ==> d.logs[n] == NEW_LOG)
  }

  // Recovery would find checkpoint g with its cut c and log.
  ghost predicate OnDisk(d: Disk, h: seq<Op>, c: nat, g: nat) {
    SlotsOk(d, c, g) && SnapOk(d.snaps, h, c, g) && LogsOk(d, h, c, g)
  }

  lemma ReadsBack(d: Disk, c: nat, g: nat)
    requires SlotsOk(d, c, g)
    ensures ReadSuperblock(d) == Meta(g, c + 1)
  {
  }

  // With no torn frame, the log holds every update since the checkpoint.
  ghost predicate LogComplete(s: State) {
    var log := LogOf(s.disk, s.gen + 1);
    Clean(log.chunks) ==> |s.history| == s.cut + |log.chunks|
  }

  // With no torn frame on the device, the acknowledged updates are.
  ghost predicate AckedOnDevice(log: LogFile, c: nat, acked: nat) {
    log.durable <= |log.chunks| && (Clean(log.chunks[..log.durable]) ==> acked <= c + log.durable)
  }

  ghost predicate Running(s: State) {
    && s.image == Fold(EMPTY, s.history) && s.nextLSN == |s.history| + 1
    && LogComplete(s)
    && (s.phase.WroteSnap? || s.phase.OpenedLog? || s.phase.WritingSlot? ==>
          s.gen + 1 in s.disk.snaps && s.disk.snaps[s.gen + 1] == Some(s.image))
  }

  ghost predicate Inv(s: State) {
    && OnDisk(s.disk, s.history, s.cut, s.gen)
    && s.acked <= |s.history|
    && AckedOnDevice(LogOf(s.disk, s.gen + 1), s.cut, s.acked)
    && (!s.phase.Down? ==> Running(s))
  }

  // ---- replay ----

  lemma {:induction false} ReplayClean(chunks: seq<Chunk>)
    requires Clean(chunks)
    ensures |Replay(chunks)| == |chunks|
    ensures forall i :: 0 <= i < |chunks| ==> Replay(chunks)[i] == chunks[i].frame
  {
    if chunks != [] {
      ReplayClean(chunks[1..]);
    }
  }

  // A frame written after a torn one is never replayed.
  lemma {:induction false} ReplayAppend(chunks: seq<Chunk>, f: Frame)
    ensures Clean(chunks) ==> Replay(chunks + [Whole(f)]) == Replay(chunks) + [f]
    ensures !Clean(chunks) ==> Replay(chunks + [Whole(f)]) == Replay(chunks)
  {
    if chunks == [] {
      assert (chunks + [Whole(f)])[1..] == [];
    } else {
      ReplayAppend(chunks[1..], f);
      assert (chunks + [Whole(f)])[1..] == chunks[1..] + [Whole(f)];
      assert forall i :: 0 < i < |chunks| ==> chunks[i] == chunks[1..][i - 1];
    }
  }

  // What a crash leaves of a log replays to a prefix of what the log would have.
  lemma {:induction false} ReplayCut(chunks: seq<Chunk>, k: nat, torn: bool)
    requires k <= |chunks|
    ensures
      var fs, left := Replay(chunks), Replay(chunks[..k] + if torn then [Torn] else []);
      |left| == (if k <= |fs| then k else |fs|) && left == fs[..|left|]
  {
    var left := chunks[..k] + if torn then [Torn] else [];
    if k > 0 && chunks[0].Whole? {
      ReplayCut(chunks[1..], k - 1, torn);
      assert left[1..] == chunks[1..][..k - 1] + if torn then [Torn] else [];
    } else if k == 0 && torn {
      assert left[0].Torn?;
    }
  }

  lemma {:induction false} MaxLSNOf(fs: seq<Frame>, h: seq<Op>, c: nat)
    requires FramesOf(fs, h, c)
    ensures MaxLSN(fs) == if fs == [] then 0 else c + |fs|
  {
    if fs != [] {
      MaxLSNOf(fs[..|fs| - 1], h, c);
    }
  }

  lemma ReplayedState(fs: seq<Frame>, h: seq<Op>, c: nat)
    requires FramesOf(fs, h, c)
    ensures Fold(Fold(EMPTY, h[..c]), Ops(fs)) == Fold(EMPTY, h[..c + |fs|])
  {
    assert h[..c + |fs|] == h[..c] + Ops(fs);
    FoldConcat(EMPTY, h[..c], Ops(fs));
  }

  // ---- every step keeps the invariant ----

  lemma AppendInv(s: State, op: Op)
    requires Inv(s) && s.phase.Idle?
    ensures Inv(AppendStep(s, op))
  {
    hide OnDisk, Replay, Fold, Clean, Apply, AckedOnDevice;
    var log := LogOf(s.disk, s.gen + 1);
    var f := Frame(s.nextLSN, op);
    FoldSnoc(EMPTY, s.history, op);
    CleanSnoc(log.chunks, f);
    AckedAppend(log, s.cut, s.acked, Whole(f));
    AppendOnDisk(s.disk, s.history, s.cut, s.gen, op);
  }

  lemma AppendOnDisk(d: Disk, h: seq<Op>, c: nat, g: nat, op: Op)
    requires OnDisk(d, h, c, g) && (Clean(LogOf(d, g + 1).chunks) ==> |h| == c + |LogOf(d, g + 1).chunks|)
    ensures
      var log := LogOf(d, g + 1);
      OnDisk(d.(logs := d.logs[g + 1 := log.(chunks := log.chunks + [Whole(Frame(|h| + 1, op))])]), h + [op], c, g)
  {
    hide Replay, Fold, Clean, FramesOf;
    AppendedLog(LogOf(d, g + 1), h, c, op);
    assert (h + [op])[..c] == h[..c];
  }

  lemma FoldSnoc(m: Image, h: seq<Op>, op: Op)
    ensures Fold(m, h + [op]) == Apply(Fold(m, h), op)
  {
    assert (h + [op])[..|h|] == h;
  }

  lemma CleanSnoc(chunks: seq<Chunk>, f: Frame)
    ensures Clean(chunks + [Whole(f)]) <==> Clean(chunks)
  {
    assert forall i :: 0 <= i < |chunks| ==> (chunks + [Whole(f)])[i] == chunks[i];
  }

  lemma AppendedLog(log: LogFile, h: seq<Op>, c: nat, op: Op)
    requires FramesOf(Replay(log.chunks), h, c)
    requires Clean(log.chunks) ==> |h| == c + |log.chunks|
    ensures FramesOf(Replay(log.chunks + [Whole(Frame(|h| + 1, op))]), h + [op], c)
  {
    ReplayAppend(log.chunks, Frame(|h| + 1, op));
    if Clean(log.chunks) {
      ReplayClean(log.chunks);
    }
  }

  lemma EndSlotInv(s: State)
    requires Inv(s) && s.phase.WritingSlot?
    ensures Inv(EndSlotStep(s))
  {
    Publish(s.disk, s.history, s.cut, s.gen);
    assert s.history[..|s.history|] == s.history;
  }

  // Writing the slot of generation g + 1 publishes it, whatever the slot held.
  lemma Publish(d: Disk, h: seq<Op>, c: nat, g: nat)
    requires OnDisk(d, h, c, g)
    ensures SlotsOk(WriteSlot(d, g + 1, Good(Meta(g + 1, |h| + 1))), |h|, g + 1)
    ensures SlotsOk(WriteSlot(d, g + 1, Bad), c, g)
    ensures LogOf(d, g + 2) == NEW_LOG
  {
  }

  lemma CutLogOk(d: Disk, h: seq<Op>, c: nat, g: nat, keep: nat, torn: bool, settled: nat)
    requires OnDisk(d, h, c, g) && keep <= |LogOf(d, g + 1).chunks| && settled <= keep + if torn then 1 else 0
    ensures OnDisk(CutLog(d, g + 1, keep, torn, settled), h, c, g)
    ensures CutLog(d, g + 1, keep, torn, settled).snaps == d.snaps
    ensures LogOf(CutLog(d, g + 1, keep, torn, settled), g + 1)
      == LogFile(LogOf(d, g + 1).chunks[..keep] + (if torn then [Torn] else []), settled)
  {
    ReplayCut(LogOf(d, g + 1).chunks, keep, torn);
    hide Replay, Fold;
  }

  // What reaches the device only grows, and a torn frame on it stays.
  lemma AckedStays(log: LogFile, c: nat, acked: nat, keep: nat, torn: bool, settled: nat)
    requires AckedOnDevice(log, c, acked) && log.durable <= keep <= |log.chunks|
    requires log.durable <= settled <= keep + if torn then 1 else 0
    ensures AckedOnDevice(LogFile(log.chunks[..keep] + (if torn then [Torn] else []), settled), c, acked)
  {
    var left := log.chunks[..keep] + if torn then [Torn] else [];
    if Clean(left[..settled]) {
      forall i | 0 <= i < log.durable
        ensures log.chunks[..log.durable][i].Whole?
      {
        assert left[..settled][i] == log.chunks[i];
      }
    }
  }

  lemma AckedAppend(log: LogFile, c: nat, acked: nat, f: Chunk)
    requires AckedOnDevice(log, c, acked)
    ensures AckedOnDevice(log.(chunks := log.chunks + [f]), c, acked)
  {
    assert (log.chunks + [f])[..log.durable] == log.chunks[..log.durable];
  }

  lemma CrashInv(s: State, keep: nat, torn: bool, settled: nat, fate: SlotFate)
    requires Inv(s) && Enabled(s, Crash(keep, torn, settled, fate))
    ensures Inv(CrashStep(s, keep, torn, settled, fate))
  {
    hide OnDisk, Replay, Fold, Clean, AckedOnDevice, Running;
    CutLogOk(s.disk, s.history, s.cut, s.gen, keep, torn, settled);
    AckedStays(LogOf(s.disk, s.gen + 1), s.cut, s.acked, keep, torn, settled);
    var d := CutLog(s.disk, s.gen + 1, keep, torn, settled);
    CrashPlain(s, d);
    if s.phase.WritingSlot? {
      CrashAtSlot(s, d);
    }
  }

  lemma CrashPlain(s: State, d: Disk)
    requires Inv(s) && OnDisk(d, s.history, s.cut, s.gen)
    requires AckedOnDevice(LogOf(d, s.gen + 1), s.cut, s.acked)
    ensures Inv(s.(disk := d, phase := Down))
  {
  }

  lemma CrashAtSlot(s: State, d: Disk)
    requires Inv(s) && s.phase.WritingSlot? && OnDisk(d, s.history, s.cut, s.gen)
    requires AckedOnDevice(LogOf(d, s.gen + 1), s.cut, s.acked)
    requires d.snaps == s.disk.snaps
    ensures Inv(s.(disk := WriteSlot(d, s.gen + 1, Bad), phase := Down))
    ensures Inv(s.(disk := WriteSlot(d, s.gen + 1, Good(Meta(s.gen + 1, s.nextLSN))), phase := Down,
                   gen := s.gen + 1, cut := |s.history|))
  {
    Publish(d, s.history, s.cut, s.gen);
    assert s.history[..|s.history|] == s.history;
    hide Fold, Replay, Clean;
    SlotAlone(d, s.gen + 1, Bad);
    SlotAlone(d, s.gen + 1, Good(Meta(s.gen + 1, s.nextLSN)));
    NothingReplayed();
    hide WriteSlot;
  }

  lemma SlotAlone(d: Disk, g: nat, slot: Slot)
    ensures WriteSlot(d, g, slot).snaps == d.snaps && WriteSlot(d, g, slot).logs == d.logs
  {
  }

  lemma NothingReplayed()
    ensures Replay([]) == []
  {
  }

  lemma BaseOf(snaps: map<nat, Option<Image>>, h: seq<Op>, c: nat, g: nat)
    requires SnapOk(snaps, h, c, g)
    ensures (if g in snaps && snaps[g].Some? then snaps[g].value else EMPTY) == Fold(EMPTY, h[..c])
  {
    assert g == 0 ==> h[..c] == [];
  }

  // Recovery finds the fold of the updates the checkpoint and the log's intact frames hold.
  lemma RecoveredPrefix(d: Disk, h: seq<Op>, c: nat, g: nat)
    requires OnDisk(d, h, c, g)
    ensures
      var n := c + |Replay(LogOf(d, g + 1).chunks)|;
      n <= |h| && Recovered(d) == (Fold(EMPTY, h[..n]), g, n + 1)
  {
    ReadsBack(d, c, g);
    BaseOf(d.snaps, h, c, g);
    var fs := Replay(LogOf(d, g + 1).chunks);
    MaxLSNOf(fs, h, c);
    ReplayedState(fs, h, c);
  }

  // The files still describe the history after what was lost is cut off it.
  lemma CutHistory(d: Disk, h: seq<Op>, c: nat, g: nat)
    requires OnDisk(d, h, c, g)
    ensures
      var log := LogOf(d, g + 1);
      var n := c + |Replay(log.chunks)|;
      n <= |h| && OnDisk(d.(logs := d.logs[g + 1 := log]), h[..n], c, g)
  {
    var n := c + |Replay(LogOf(d, g + 1).chunks)|;
    assert h[..n][..c] == h[..c];
  }

  lemma RestartIs(s: State)
    requires OnDisk(s.disk, s.history, s.cut, s.gen)
    ensures
      var log := LogOf(s.disk, s.gen + 1);
      var n := s.cut + |Replay(log.chunks)|;
      n <= |s.history| &&
      Restart(s) == s.(disk := s.disk.(logs := s.disk.logs[s.gen + 1 := log]), phase := Idle,
                       image := Fold(EMPTY, s.history[..n]), nextLSN := n + 1, history := s.history[..n],
                       acked := if s.acked <= n then s.acked else n, lostAcked := s.lostAcked || n < s.acked)
  {
    RecoveredPrefix(s.disk, s.history, s.cut, s.gen);
  }

  lemma RecoverInv(s: State)
    requires Inv(s) && s.phase.Down?
    ensures Inv(Restart(s))
  {
    hide Restart, OnDisk, Replay, Fold, Clean, AckedOnDevice, LogComplete;
    RestartIs(s);
    CutHistory(s.disk, s.history, s.cut, s.gen);
    RecoveredLog(s);
    AckedLess(LogOf(s.disk, s.gen + 1), s.cut, s.acked, Restart(s).acked);
  }

  lemma AckedLess(log: LogFile, c: nat, acked: nat, fewer: nat)
    requires AckedOnDevice(log, c, acked) && fewer <= acked
    ensures AckedOnDevice(log, c, fewer)
  {
  }

  lemma RecoveredLog(s: State)
    requires Inv(s) && s.phase.Down?
    requires Restart(s).disk.logs == s.disk.logs[s.gen + 1 := LogOf(s.disk, s.gen + 1)] && Restart(s).gen == s.gen
    requires |Restart(s).history| == s.cut + |Replay(LogOf(s.disk, s.gen + 1).chunks)|
    ensures LogComplete(Restart(s))
  {
    var log := LogOf(s.disk, s.gen + 1);
    assert LogOf(Restart(s).disk, s.gen + 1) == log;
    if Clean(log.chunks) {
      ReplayClean(log.chunks);
    }
  }

  lemma FsyncInv(s: State)
    requires Inv(s) && s.phase.Idle?
    ensures Inv(FsyncStep(s))
  {
  }

  // Writing the next snapshot does not touch the current one.
  lemma SnapInv(s: State, img: Option<Image>)
    requires Inv(s)
    ensures s.phase.Idle? ==> Inv(SnapStep(s, img, WritingSnap))
    ensures s.phase.WritingSnap? && img == Some(s.image) ==> Inv(SnapStep(s, img, WroteSnap))
  {
  }

  lemma OpenNextLogInv(s: State)
    requires Inv(s) && s.phase.WroteSnap?
    ensures Inv(OpenNextLogStep(s))
  {
  }

  lemma RemoveInv(s: State)
    requires Inv(s)
    ensures s.phase.OpenedLog? ==> Inv(s.(phase := WritingSlot))
    ensures s.phase.Published? ==> Inv(RemoveLogStep(s))
    ensures s.phase.RemovedLog? ==> Inv(RemoveSnapStep(s))
  {
    hide Replay, Fold, FramesOf, Clean;
  }

  lemma StepInv(s: State, e: Event)
    requires Inv(s) && Enabled(s, e)
    ensures Inv(Step(s, e))
  {
    match e
    case Append(op) => AppendInv(s, op);
    case Fsync => FsyncInv(s);
    case BeginSnap => SnapInv(s, None);
    case EndSnap => SnapInv(s, Some(s.image));
    case OpenNextLog => OpenNextLogInv(s);
    case EndSlot => EndSlotInv(s);
    case Crash(keep, torn, settled, fate) => CrashInv(s, keep, torn, settled, fate);
    case Recover => RecoverInv(s);
    case _ => RemoveInv(s);
  }

  // ---- theorems over whole runs ----

  lemma {:induction false} RunInv(states: seq<State>, events: seq<Event>, k: nat)
    requires IsRun(states, events) && k < |states|
    ensures Inv(states[k])
  {
    if k > 0 {
      RunInv(states, events, k - 1);
      StepInv(states[k - 1], events[k - 1]);
    }
  }

  // Consistency: after every step of every run, with crashes and torn writes anywhere, a running
  // store holds exactly the updates of its history, and its next sequence number is above them all.
  // A recovery keeps a prefix of the history it had.
  lemma AlwaysAPrefix(states: seq<State>, events: seq<Event>, k: nat)
    requires IsRun(states, events) && k < |states|
    ensures !states[k].phase.Down? ==>
      states[k].image == Fold(EMPTY, states[k].history) && states[k].nextLSN == |states[k].history| + 1
    ensures k < |events| && events[k].Recover? ==> states[k + 1].history <= states[k].history
    ensures k < |events| && !events[k].Recover? ==> states[k].history <= states[k + 1].history
  {
    RunInv(states, events, k);
    if k < |events| && events[k].Recover? {
      RestartIs(states[k]);
    }
  }

  // Every reference that was readable in the surviving prefix reads the same bytes before the crash
  // and after the recovery.
  lemma ArenaOffsetsSurvive(s: State, off: nat)
    requires Inv(s) && s.phase.Down?
    ensures
      var arena := Restart(s).image.arena;
      ArenaRead(arena, off).Some? ==> ArenaRead(Fold(EMPTY, s.history).arena, off) == ArenaRead(arena, off)
  {
    RestartIs(s);
    var n := s.cut + |Replay(LogOf(s.disk, s.gen + 1).chunks)|;
    ArenaGrows(s.history, n);
    if ArenaRead(Restart(s).image.arena, off).Some? {
      ArenaReadExtends(Restart(s).image.arena, Fold(EMPTY, s.history).arena, off);
    }
  }

  lemma LogAfterCrash(s: State, keep: nat, torn: bool, settled: nat, fate: SlotFate)
    requires Inv(s) && Enabled(s, Crash(keep, torn, settled, fate))
    ensures
      var c := CrashStep(s, keep, torn, settled, fate);
      if c.gen == s.gen then
        LogOf(c.disk, c.gen + 1).chunks == LogOf(s.disk, s.gen + 1).chunks[..keep] + (if torn then [Torn] else [])
      else c.gen == s.gen + 1 && c.cut == |s.history| && LogOf(c.disk, c.gen + 1) == NEW_LOG
  {
    hide Running, AckedOnDevice, SlotsOk, SnapOk, Replay, Fold, FramesOf;
  }

  // How much of the history a crash and the recovery after it keep: everything, when the crash hits
  // a slot write that completed; otherwise what the checkpoint covers and the intact frames of what
  // the crash left of the log.
  function Survivors(s: State, keep: nat, fate: SlotFate): nat {
    var fs := Replay(LogOf(s.disk, s.gen + 1).chunks);
    if s.phase.WritingSlot? && fate.New? then |s.history| else s.cut + if keep <= |fs| then keep else |fs|
  }

  lemma CrashRecover(s: State, keep: nat, torn: bool, settled: nat, fate: SlotFate) returns (c: State, t: State)
    requires Inv(s) && Enabled(s, Crash(keep, torn, settled, fate))
    ensures c == CrashStep(s, keep, torn, settled, fate) && t == Restart(c)
    ensures Survivors(s, keep, fate) <= |s.history| && t.history == s.history[..Survivors(s, keep, fate)]
    ensures t.acked == if s.acked <= Survivors(s, keep, fate) then s.acked else Survivors(s, keep, fate)
    ensures t.lostAcked <==> s.lostAcked || Survivors(s, keep, fate) < s.acked
  {
    hide CrashStep, Restart, Replay, Inv, OnDisk;
    c := CrashStep(s, keep, torn, settled, fate);
    t := Restart(c);
    CrashedOnDisk(s, keep, torn, settled, fate);
    LogAfterCrash(s, keep, torn, settled, fate);
    CrashedFields(s, keep, torn, settled, fate);
    hide Survivors;
    SurvivorsOf(s, c, keep, torn, settled, fate);
    RestartFields(c);
  }

  lemma CrashedOnDisk(s: State, keep: nat, torn: bool, settled: nat, fate: SlotFate)
    requires Inv(s) && Enabled(s, Crash(keep, torn, settled, fate))
    ensures var c := CrashStep(s, keep, torn, settled, fate); OnDisk(c.disk, c.history, c.cut, c.gen)
  {
    hide CrashStep, OnDisk, Running;
    CrashInv(s, keep, torn, settled, fate);
  }

  // The intact frames a crash leaves, counted.
  lemma SurvivorsOf(s: State, c: State, keep: nat, torn: bool, settled: nat, fate: SlotFate)
    requires keep <= |LogOf(s.disk, s.gen + 1).chunks|
    requires
      if s.phase.WritingSlot? && fate.New? then c.cut == |s.history| && LogOf(c.disk, c.gen + 1) == NEW_LOG
      else c.cut == s.cut &&
           LogOf(c.disk, c.gen + 1).chunks == LogOf(s.disk, s.gen + 1).chunks[..keep] + if torn then [Torn] else []
    ensures c.cut + |Replay(LogOf(c.disk, c.gen + 1).chunks)| == Survivors(s, keep, fate)
  {
    ReplayCut(LogOf(s.disk, s.gen + 1).chunks, keep, torn);
  }

  lemma RestartFields(c: State)
    requires OnDisk(c.disk, c.history, c.cut, c.gen)
    ensures
      var n := c.cut + |Replay(LogOf(c.disk, c.gen + 1).chunks)|;
      var t := Restart(c);
      && n <= |c.history| && t.history == c.history[..n]
      && t.acked == (if c.acked <= n then c.acked else n)
      && (t.lostAcked <==> c.lostAcked || n < c.acked)
  {
    RestartIs(c);
  }

  lemma CrashedFields(s: State, keep: nat, torn: bool, settled: nat, fate: SlotFate)
    requires Enabled(s, Crash(keep, torn, settled, fate))
    ensures
      var c := CrashStep(s, keep, torn, settled, fate);
      && c.history == s.history && c.acked == s.acked && c.lostAcked == s.lostAcked
      && (if s.phase.WritingSlot? && fate.New? then c.gen == s.gen + 1 && c.cut == |s.history|
          else c.gen == s.gen && c.cut == s.cut)
  {
  }

  // Durability: a crash at any step, leaving any part of the unsynced tail with or without a torn
  // frame, and any outcome of a slot write, loses no fsynced update when the open log has no torn
  // frame in it.
  lemma CrashKeepsAcked(s: State, keep: nat, torn: bool, settled: nat, fate: SlotFate)
    requires Inv(s) && Enabled(s, Crash(keep, torn, settled, fate))
    requires Clean(LogOf(s.disk, s.gen + 1).chunks)
    ensures
      var t := Restart(CrashStep(s, keep, torn, settled, fate));
      && t.history <= s.history && s.acked <= |t.history|
      && t.acked == s.acked && t.lostAcked == s.lostAcked
  {
    AckedWithin(s);
    hide CrashStep, Restart, Inv, OnDisk, Replay, Clean;
    var c, t := CrashRecover(s, keep, torn, settled, fate);
    ReplayClean(LogOf(s.disk, s.gen + 1).chunks);
  }

  lemma AckedWithin(s: State)
    requires Inv(s) && Clean(LogOf(s.disk, s.gen + 1).chunks)
    ensures s.acked <= s.cut + LogOf(s.disk, s.gen + 1).durable && s.acked <= |s.history|
  {
    hide OnDisk, Running;
  }

  function Least(a: nat, b: nat): nat {
    if a <= b then a else b
  }

  // Every acknowledged update is in the checkpoint, or in a frame that no crash can take and that
  // replay reaches.
  ghost predicate Safe(s: State) {
    var log := LogOf(s.disk, s.gen + 1);
    !s.lostAcked && s.acked <= s.cut + Least(log.durable, |Replay(log.chunks)|)
  }

  lemma SafeStep(s: State, e: Event)
    requires Inv(s) && Safe(s) && Enabled(s, e)
    requires e.Fsync? ==> Clean(LogOf(s.disk, s.gen + 1).chunks)
    ensures Safe(Step(s, e))
  {
    hide Inv, Safe, CrashStep, Restart, AppendStep, FsyncStep, EndSlotStep;
    match e
    case Append(op) => SafeAppend(s, op);
    case Fsync => SafeFsync(s);
    case EndSlot => SafeEndSlot(s);
    case Crash(keep, torn, settled, fate) => SafeCrash(s, keep, torn, settled, fate);
    case Recover => SafeRecover(s);
    case _ => SafeOther(s, e);
  }

  lemma SafeAppend(s: State, op: Op)
    requires Inv(s) && Safe(s) && s.phase.Idle?
    ensures Safe(AppendStep(s, op))
  {
    ReplayAppend(LogOf(s.disk, s.gen + 1).chunks, Frame(s.nextLSN, op));
    hide Inv, Replay, Apply;
  }

  lemma SafeFsync(s: State)
    requires Inv(s) && Safe(s) && s.phase.Idle? && Clean(LogOf(s.disk, s.gen + 1).chunks)
    ensures Safe(FsyncStep(s))
  {
    ReplayClean(LogOf(s.disk, s.gen + 1).chunks);
    hide Replay, OnDisk;
  }

  lemma SafeEndSlot(s: State)
    requires Inv(s) && Safe(s) && s.phase.WritingSlot?
    ensures Safe(EndSlotStep(s))
  {
    hide Running, SlotsOk, SnapOk, Replay;
  }

  lemma SafeCrash(s: State, keep: nat, torn: bool, settled: nat, fate: SlotFate)
    requires Inv(s) && Safe(s) && Enabled(s, Crash(keep, torn, settled, fate))
    ensures Safe(CrashStep(s, keep, torn, settled, fate))
  {
    var log := LogOf(s.disk, s.gen + 1);
    AckedAreIssued(s);
    CrashedOnDisk(s, keep, torn, settled, fate);
    LogAfterCrash(s, keep, torn, settled, fate);
    CrashedFields(s, keep, torn, settled, fate);
    CrashedDurable(s, keep, torn, settled, fate);
    hide CrashStep, Inv, OnDisk;
    ReplayCut(log.chunks, keep, torn);
    hide Replay;
  }

  lemma AckedAreIssued(s: State)
    requires Inv(s)
    ensures s.acked <= |s.history|
  {
    hide OnDisk, Running;
  }

  // What was on the device before a crash is there after it.
  lemma CrashedDurable(s: State, keep: nat, torn: bool, settled: nat, fate: SlotFate)
    requires Inv(s) && Enabled(s, Crash(keep, torn, settled, fate))
    ensures
      var c := CrashStep(s, keep, torn, settled, fate);
      c.gen == s.gen ==> LogOf(c.disk, c.gen + 1).durable >= LogOf(s.disk, s.gen + 1).durable
  {
  }

  lemma CrashedDown(s: State, keep: nat, torn: bool, settled: nat, fate: SlotFate)
    requires Enabled(s, Crash(keep, torn, settled, fate))
    ensures CrashStep(s, keep, torn, settled, fate).phase.Down?
  {
  }

  lemma SafeRecover(s: State)
    requires Inv(s) && Safe(s) && s.phase.Down?
    ensures Safe(Restart(s))
  {
    RestartedLog(s);
    RestartFields(s);
    RestartedCut(s);
    hide Restart, Replay;
  }

  lemma RestartedCut(s: State)
    ensures Restart(s).cut == s.cut
  {
  }

  lemma SafeOther(s: State, e: Event)
    requires Inv(s) && Safe(s) && Enabled(s, e)
    requires !e.Append? && !e.Fsync? && !e.EndSlot? && !e.Crash? && !e.Recover?
    ensures Safe(Step(s, e))
  {
    hide Fold, Apply, Replay, FramesOf;
  }

  // No acknowledged update is lost in any run whose fsyncs find the open log clean, whatever its
  // crashes tear: a torn log only has to be checkpointed before the next fsync is trusted.
  lemma {:induction false} NoAckedUpdateLost(states: seq<State>, events: seq<Event>, k: nat)
    requires IsRun(states, events) && k < |states|
    requires forall i :: 0 <= i < |events| && events[i].Fsync? ==> Clean(LogOf(states[i].disk, states[i].gen + 1).chunks)
    ensures Safe(states[k]) && states[k].acked <= |states[k].history|
  {
    hide Safe, Step, Inv;
    RunInv(states, events, k);
    AckedAreIssued(states[k]);
    if k > 0 {
      NoAckedUpdateLost(states, events, k - 1);
      RunInv(states, events, k - 1);
      SafeStep(states[k - 1], events[k - 1]);
    } else {
      FreshIsSafe();
    }
  }

  lemma FreshIsSafe()
    ensures Safe(FRESH)
  {
  }

  // An update appended and fsynced to a reopened log survives the next crash exactly when the log
  // had no torn frame: openLog appends after the torn bytes, and replay stops at them.
  lemma FsyncedSurvivesIffClean(s: State, op: Op) returns (t: State, u: State)
    requires Inv(s) && s.phase.Idle?
    ensures t == FsyncStep(AppendStep(s, op))
    ensures Enabled(t, Crash(|LogOf(t.disk, t.gen + 1).chunks|, false, |LogOf(t.disk, t.gen + 1).chunks|, Old))
    ensures u == Restart(CrashStep(t, |LogOf(t.disk, t.gen + 1).chunks|, false, |LogOf(t.disk, t.gen + 1).chunks|, Old))
    ensures u.history == t.history <==> Clean(LogOf(s.disk, s.gen + 1).chunks)
    ensures u.lostAcked <==> s.lostAcked || !Clean(LogOf(s.disk, s.gen + 1).chunks)
  {
    hide Inv, AppendStep, FsyncStep, CrashStep, Restart, Replay;
    t := FsyncStep(AppendStep(s, op));
    AppendedFields(s, op);
    AppendInv(s, op);
    FsyncInv(AppendStep(s, op));
    FsyncedFields(s, op);
    var log, log' := LogOf(s.disk, s.gen + 1), LogOf(t.disk, t.gen + 1);
    var c;
    c, u := CrashRecover(t, |log'.chunks|, false, |log'.chunks|, Old);
    ReplayAppend(log.chunks, Frame(s.nextLSN, op));
    LogReplays(s);
    AllKept(t);
  }

  // A crash that loses no byte keeps everything replay can reach.
  lemma AllKept(t: State)
    requires t.phase.Idle?
    ensures Survivors(t, |LogOf(t.disk, t.gen + 1).chunks|, Old) == t.cut + |Replay(LogOf(t.disk, t.gen + 1).chunks)|
  {
  }

  lemma FsyncedFields(s: State, op: Op)
    requires s.phase.Idle?
    ensures
      var t := FsyncStep(AppendStep(s, op));
      && t.phase.Idle? && t.gen == s.gen && t.cut == s.cut && t.lostAcked == s.lostAcked
      && |t.history| == |s.history| + 1 == t.acked
      && LogOf(t.disk, t.gen + 1).chunks == LogOf(s.disk, s.gen + 1).chunks + [Whole(Frame(s.nextLSN, op))]
      && LogOf(t.disk, t.gen + 1).durable == |LogOf(t.disk, t.gen + 1).chunks|
  {
  }

  lemma LogReplays(s: State)
    requires Inv(s) && s.phase.Idle?
    ensures
      var log := LogOf(s.disk, s.gen + 1);
      && s.cut + |Replay(log.chunks)| <= |s.history|
      && (Clean(log.chunks) ==> s.cut + |Replay(log.chunks)| == |s.history|)
  {
    if Clean(LogOf(s.disk, s.gen + 1).chunks) {
      ReplayClean(LogOf(s.disk, s.gen + 1).chunks);
    }
  }

  // Two crashes are enough: the first leaves a torn frame, and the update fsynced after the restart
  // is gone after the second, which damaged nothing.
  lemma TornTailLosesAcked(op: Op) returns (s: State, t: State, u: State)
    ensures s == Restart(CrashStep(AppendStep(Restart(FRESH), op), 0, true, 1, Old)) && t == FsyncStep(AppendStep(s, op))
    ensures Enabled(t, Crash(|LogOf(t.disk, t.gen + 1).chunks|, false, |LogOf(t.disk, t.gen + 1).chunks|, Old))
    ensures u == Restart(CrashStep(t, |LogOf(t.disk, t.gen + 1).chunks|, false, |LogOf(t.disk, t.gen + 1).chunks|, Old))
    ensures !t.lostAcked && t.acked == |t.history| && u.lostAcked
  {
    s := FirstTornTail(op);
    FsyncedFields(s, op);
    t, u := FsyncedSurvivesIffClean(s, op);
  }

  lemma FreshStart() returns (a: State)
    ensures a == Restart(FRESH) && Inv(a)
    ensures a.phase.Idle? && a.acked == 0 && !a.lostAcked && LogOf(a.disk, a.gen + 1) == NEW_LOG
  {
    assert Inv(FRESH);
    a := Restart(FRESH);
    RecoverInv(FRESH);
    RestartIs(FRESH);
  }

  lemma FirstTornTail(op: Op) returns (s: State)
    ensures s == Restart(CrashStep(AppendStep(Restart(FRESH), op), 0, true, 1, Old))
    ensures Inv(s) && s.phase.Idle? && !s.lostAcked
    ensures !Clean(LogOf(s.disk, s.gen + 1).chunks)
  {
    hide AppendStep, CrashStep, Restart, Inv, Clean;
    var a := FreshStart();
    var b := AppendStep(a, op);
    AppendInv(a, op);
    AppendedFields(a, op);
    TornRestart(b, 0, 1);
    var c;
    c, s := CrashRecover(b, 0, true, 1, Old);
  }

  lemma AppendedFields(a: State, op: Op)
    requires a.phase.Idle?
    ensures
      var b := AppendStep(a, op);
      && b.phase.Idle? && b.gen == a.gen && b.acked == a.acked && b.lostAcked == a.lostAcked
      && LogOf(b.disk, a.gen + 1).durable == LogOf(a.disk, a.gen + 1).durable
  {
  }

  // A torn frame left by a crash is still in the log after the restart.
  lemma TornRestart(b: State, keep: nat, settled: nat)
    requires Inv(b) && b.phase.Idle? && Enabled(b, Crash(keep, true, settled, Old))
    ensures
      var s := Restart(CrashStep(b, keep, true, settled, Old));
      Inv(s) && s.phase.Idle? && !Clean(LogOf(s.disk, s.gen + 1).chunks)
  {
    hide Inv, OnDisk, CrashStep, Restart, Replay;
    var c := CrashStep(b, keep, true, settled, Old);
    CrashInv(b, keep, true, settled, Old);
    CrashedDown(b, keep, true, settled, Old);
    CrashedOnDisk(b, keep, true, settled, Old);
    CrashedFields(b, keep, true, settled, Old);
    LogAfterCrash(b, keep, true, settled, Old);
    RecoverInv(c);
    RestartedLog(c);
    assert LogOf(c.disk, c.gen + 1).chunks[keep] == Torn;
  }

  // Reopening a log changes nothing in it.
  lemma RestartedLog(c: State)
    requires OnDisk(c.disk, c.history, c.cut, c.gen)
    ensures Restart(c).gen == c.gen && Restart(c).phase.Idle?
    ensures LogOf(Restart(c).disk, c.gen + 1) == LogOf(c.disk, c.gen + 1)
  {
    RestartIs(c);
  }
}
