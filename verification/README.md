# A model of the meguri crawl frontier

meguri keeps the list of everything a crawler still has to fetch, decides what is fetched next without
ever crowding a host, and stores that list so that a crash costs nothing. This project models its
algorithms and proves what they promise.

- **Filters and sets.** `Ribbon` (with `BitOps`, `BitStream`) builds a static filter by elimination over
  GF(2); `Drum` and `SeenSet` are the exact and one-sided tiers of the seen-set; `NearDup` the
  near-duplicate tables.
- **The scheduler.** `Rings`, `MinHeap` and `Wheel` are its queues. `FrontierState` holds the state and
  its invariants, `FrontierSteps` one lemma per kind of step, `Frontier` the class with the operations,
  `FrontierRuns` whole runs, `DueTimes` the scheduler with its wheel, `CrawlDelay` what whole seconds make
  of a delay, `Restart` checkpoint and recovery, `Addresses` what a restart does to the spacing of addresses.
- **The store.** `LogFrames` is the log as bytes, `Superblock` the two slots as bytes, `StoreCrash` the
  crash-consistency protocol as a state machine, `StoreSpill` that protocol with eviction, `StoreIndex`
  the evicting index over the log, from `Open` or from recovery.
- **Partitions.** `Arena` and `PartitionOps` are the string arena and split, merge, extract and compact;
  `PartitionMap`, `Handoff`, `Manifest`, `Replica`, `Fleet` and `Elasticity` how a fleet shares and moves
  partitions.
- **Codecs and indexes.** `BitPacking`, `Encoding`, `DeltaEncoding`, `Pages` and `Column` are the column
  codecs; `Fsst` and `Batch` the string and batch codecs; `Schedule` and `Reader` the indexes that must
  agree with a scan.
- **Rules.** `Robots` is the robots.txt matcher, verdict and group choice, compared with sections 2.2.1 to
  2.2.3 of RFC 9309; `Civil` the calendar of the trap detector and `Traps` its counters.
- `Wrappers`, `Bytes`, `Keys`, `Buffers` and `Sorting` are shared.

Foreign and arbitrary parts are parameters: hashes, checksums, the compressor (with `Lossless`, that
decompressing undoes compressing), the DNS resolver, the fetcher, the transport, priorities, freshness
and soft-404 verdicts, robots.txt parsing. Go's `sort.Slice` is any order-respecting permutation.

## Where the code and its own documentation differ

The model follows the code. Each case names the lemma or method of the table below that gives the exact
condition or a concrete input.

- A robots pattern that is a lone `$` matches every path (robots/robots.go:300-304):
  `Robots.AgreesUnlessDollar`, `Robots.DollarMatchesTooMuch`.
- A final `$` does not count in a pattern's length, where section 2.2.2 of RFC 9309 counts octets
  (robots/robots.go:190-198): `Robots.OctetVerdictIff`, `Robots.DollarLosesTie`.
- Of several groups for one product token only the first is obeyed (robots/robots.go:165-188), where
  section 2.2.1 of RFC 9309 combines them: `Robots.CombinedIff`, `Robots.Verdict`,
  `Robots.SecondGroupIgnored`.
- A crawl delay is "always honored" (politeness/politeness.go:64-70), and steps are rounded down to whole
  seconds (frontier/m3.go:241-250, politeness/iptable.go:56), published delays to deciseconds of 16 bits
  (frontier/m3.go:230-239): `CrawlDelay.DelayHonouredIff`, `CrawlDelay.RobotsDelayIff`,
  `CrawlDelay.CutShort`.
- A handoff that cannot encode a later slice returns an error after earlier destinations have acknowledged
  (distribute/handoff.go:93-103), so their rows are in two places: `Handoff.Rebalance`,
  `Handoff.FailsIff`, `Handoff.DoubledRow`.
- An update fsynced to a log that was reopened on a torn frame is lost by the next crash
  (store/log.go:101-107 appends after the torn bytes, store/log.go:252-261 stops at them):
  `StoreCrash.FsyncedSurvivesIffClean`, `StoreCrash.TornTailLosesAcked`. Any run whose fsyncs find a
  clean log loses nothing: `StoreCrash.NoAckedUpdateLost`.
- `commit` swaps the log and leaves the offsets of evicted rows pointing into the old one
  (store/store.go:475-529), and `readAt` checks no key (store/log.go:192-214). A row that was evicted with
  its last write before the last commit then reads as absent or as another row's body, and the next
  snapshot drops or falsifies it. `StoreIndex.Store.Checkpoint`, `StoreIndex.Store.AgreesExactly` and
  `StoreSpill.SnapshotWholeIff` give the exact conditions, `StoreIndex.EvictedAcrossCheckpoint` the run,
  `StoreSpill.SecondCheckpointDropsRow` the loss from every state with an evicted row. A store without a
  budget, or kept below it, is safe: `StoreIndex.RunWithRoom`, `StoreSpill.EvictingStoreIsAPrefix`.
- Recovered rows are resident without being counted or queued (store/store.go:592-682), so the bodies in
  memory are bounded by the budget plus those rows, not by the budget: `StoreIndex.Store.ResidentCount`,
  `StoreIndex.RecoveredOverBudget`.
- The resident counter of the store is not lowered by a deletion (store/store.go:325):
  `StoreIndex.Store.DeleteURL`, `StoreIndex.Store.ResidentCount`.
- `applyRobots` can leave an active host with an empty queue in no pool (frontier/m3.go:179-183); such
  hosts are the ghost set `stranded`, and a restart clears it: `Scheduler.Frontier.ApplyRobots`.
- After a restart the per-IP table is empty. Host spacing holds across it; address spacing holds exactly
  when the second session sends nothing inside a lost window: `Restart.RejoinedIff`,
  `Restart.RunReopenRun`. Starting after every lost window is enough; when one is still open and there is
  a slot for one more host, some run breaks it: `Addresses.CrowdAddress`, `Addresses.TwoHostsOneAddress`.
- A seed that waited in the wheel is pending at once after a restart (frontier/frontier.go:1124-1133):
  `Restart.Recover`.
- `CoverageGap` calls two whole-space ranges clean (format/manifest.go:132-166): `Manifest.CleanTilesIff`,
  `Manifest.OverlapCalledClean`.
- `Merge` refuses the halves of a `Split` whose cut lies below the partition's range and has rows on both
  sides (format/ops.go:116-171): `PartitionOps.MergeUndoesSplit`.
- A replica never applies a log entry that arrives in a later batch than its successor
  (distribute/replicate.go:104-131): `Replica.LateEntryIsLost`.
- When the loss of a machine switches placement by capacity off, the survivors with an unset weight are
  ranked anew, and with two survivors or more a partition whose primary survives can move
  (distribute/control.go:174-215): `Fleet.PromotionIff`, `Fleet.RescalingMovesOthers`. With no replica
  factor a lost machine stays primary: `Fleet.Control.FailMachine`.
- `SetMachines` and `SetReplicas` change placement without a new epoch (distribute/control.go:89-103):
  `Fleet.Control.SetMachines`, `Fleet.Control.SetReplicas`.
- The miss counter of a removed partition is kept for the next one with its id
  (distribute/control.go:123-136): `Fleet.NewPartitionFails`.
- `rotateBlock` puts block b - 1 in front, not block b (dedup/neardup.go:43-47); recall is unaffected:
  `NearDups.LeadingBlock`, `NearDups.NearDup.Find`.

## Model

| member | source | states |
|---|---|---|
| Ribbon.SolveRibbon | dedup/ribbon.go:96-147 | elimination succeeds if and only if some slot assignment satisfies every key equation, and what it returns satisfies them all, each slot within the fingerprint width |
| Ribbon.AbsorbKey | dedup/ribbon.go:99-127 | one key: the pivot rows stay in echelon form inside the table; on success the rows say exactly what the old rows and the key said together, on failure no assignment satisfies both |
| Ribbon.BackSubstitute | dedup/ribbon.go:128-147 | filling slots from the high end satisfies every pivot row |
| Ribbon.Filter.Query | dedup/ribbon.go:170-182 | the answer is yes exactly when the slots satisfy the key's equation |
| Ribbon.BuildRibbon | dedup/ribbon.go:152-165 | a built filter answers yes for every key whatever the hashes; the build fails exactly when no seed at any table size is solvable |
| Ribbon.Unmarshal | dedup/ribbon.go:214-234 | every serialized filter comes back as it was; malformed lengths and headers are refused |
| Ribbon.BuildRibbonFilter | dedup/ribbon.go:304-314 | the blob is the image of a filter holding every key |
| Ribbon.NeverMisses | dedup/ribbon.go:304-314 | build, serialize, read back and query: a built key is never missed |
| BitStream.PackBits | dedup/ribbon.go:238-258 | the bytes hold exactly the values' bits, in the size the header check expects |
| BitStream.UnpackBits | dedup/ribbon.go:261-280 | the values are those whose bits the bytes hold |
| BitStream.UnpackInverse | dedup/ribbon.go:238-280 | unpacking what was packed returns the values |
| Scheduler.Frontier.Seed | frontier/frontier.go:534-573 | idempotent; a new URL gets its record, its host and one queue, the wheel when it is dated ahead; every frontier invariant is kept |
| Scheduler.Frontier.Discover | frontier/frontier.go:587-660 | a rediscovery changes nothing, a refused discovery is recorded and never queued; the answer says whether schedulable work came in |
| Scheduler.Frontier.PromoteDue | frontier/frontier.go:902-925 | what it is told has fired leaves the wheel for the front bank and nothing else moves; no effect with the wheel off |
| DueTimes.NewTimed | frontier/frontier.go:372-395 | a new scheduler and a new wheel are in step |
| DueTimes.DispatchDue | frontier/frontier.go:703-933 | scheduler and timing wheel together: a dispatch at now promotes exactly the URLs due by its hour, and every other one waits in the wheel under its own hour |
| DueTimes.SeedDue | frontier/frontier.go:534-580 | a seed dated ahead is in the wheel under its hour, or the cursor's if that has passed, and the two stay in step |
| DueTimes.ReportDue | frontier/state.go:72-90 | an answered URL that ended crawled is filed under the hour of its next crawl, and no other answer touches the wheel |
| DueTimes.DiscoverDue | frontier/frontier.go:587-660 | a discovery leaves the wheel alone |
| DueTimes.NextInstant | frontier/frontier.go:757-775 | with the wheel's own answer: the earliest instant at which a window opens or a URL falls due, None exactly when nothing waits |
| Scheduler.Frontier.Promote | frontier/frontier.go:838-859 | afterwards no pooled host is parked past its instant, and no host leaves the pools |
| Scheduler.Frontier.PromoteAged | frontier/frontier.go:935-950 | the sweep changes levels only: the front bank keeps its URLs, every record its status and retry count |
| Scheduler.Frontier.Distribute | frontier/frontier.go:959-993 | URLs are bound until the front bank is empty or its head needs an active slot there is no room for; nothing is lost or sent |
| Scheduler.Frontier.PlaceHost | frontier/frontier.go:998-1008 | an idle active host lands in exactly one pool, ready when its live window is open, else parked until then |
| Scheduler.Frontier.DispatchShard | frontier/frontier.go:703-751 | a request goes only to a host with nothing out; its step is the host's interval in whole seconds, rounded down, so at least the policy floor, the crawl delay and the address floor so rounded; with no request no pooled host is eligible and the front bank is blocked; an address that changes is the resolver's answer and no queued URL falls out of the queues; every invariant, spacing among them, is kept |
| Scheduler.Frontier.SendTo | frontier/frontier.go:712-750 | robots.txt goes first when rules are missing or stale, else the head of the back queue; exactly one request is recorded and every invariant kept |
| Scheduler.Frontier.Report | frontier/frontier.go:781-834 | one answer closes one request, frees the host, gives the URL its next status and files it in the wheel exactly when it ended crawled; an outcome for an unknown URL changes only the clock |
| Scheduler.NextVerdict | frontier/state.go:22-118 | the retry rule: a success ends Crawled (or Gone on a soft 404), a failure returns to Scheduled with one more retry until the limit, then Gone |
| Scheduler.Judge | frontier/frontier.go:781-836 | the answered host and record are the verdict's: the retried URL goes to the back of its queue, any other leaves it |
| Scheduler.Frontier.ApplyRobots | frontier/m3.go:159-184 | fresh rules drop exactly the queued URLs they refuse; the host is stranded in no pool exactly when they refuse its whole queue; its delay rises to the published one cut to deciseconds |
| Scheduler.Frontier.FilterRobots | frontier/m3.go:189-202 | refused URLs become excluded and leave the back queue, the others keep their order |
| Scheduler.Frontier.RecordRedirect | frontier/state.go:141-160 | the target is filed like a discovery; a known target changes nothing |
| Scheduler.Frontier.ResolveHost | frontier/m3.go:51-63 | only the host's own cached address changes, and only with a resolver |
| Scheduler.Frontier.NextEligible | frontier/frontier.go:757-775 | the answer is the earliest parked instant or wheel hour, None exactly when there is neither |
| Scheduler.Frontier.Drain | frontier/frontier.go:1015-1035 | with robots, resolver and wheel off and no redirects: the loop terminates, and a run without a fetcher error leaves nothing pending, every URL fetched once (at most maxRetries times with the state machine) and Crawled or Gone unless trapped |
| FrontierState.HostInterval | politeness/politeness.go:51-73 | the interval is at least the policy floor and the crawl delay, and at most the largest of ceiling, floor and delay |
| CrawlDelay.SecsIff | frontier/m3.go:241-250 | an interval in whole seconds is the interval in full if and only if it is whole or below a second |
| CrawlDelay.DelayHonouredIff | politeness/politeness.go:64-73 | a delay is honoured at every interval the rate control may choose if and only if it is whole or below a second |
| CrawlDelay.RobotsDelayIff | frontier/m3.go:159-175 | a published Crawl-delay is honoured in full if and only if it is at most a second, or whole and at most 6553 seconds |
| CrawlDelay.SendHonours | frontier/m3.go:69-76 | a request spends its host's interval in full exactly when that is whole; the delay and the floors in full when they are |
| CrawlDelay.FloorsKept | politeness/iptable.go:42-64 | in every run two requests to one host or one address are apart by the floor in whole seconds, and in full when the floor is whole |
| CrawlDelay.CutShort | frontier/m3.go:241-250 | the run: for every delay above a second that is not whole, two requests to one host less than the delay apart |
| FrontierState.SendApart | politeness/iptable.go:42-64 | a request sent when both windows are open is spaced from every earlier request to its host and to its address |
| FrontierState.SendWindows | frontier/m3.go:69-76 | spending both buckets covers the new request and every earlier one |
| FrontierSteps.Send | frontier/m3.go:69-76 | sending a request keeps every invariant: queues, statuses, flight, spacing |
| FrontierSteps.Answer | frontier/frontier.go:781-836 | an answered request keeps every invariant |
| FrontierSteps.Bind | frontier/frontier.go:959-996 | binding a front-bank URL to its host keeps every invariant and the active count |
| FrontierSteps.LearnRules | frontier/m3.go:159-204 | learning rules keeps every invariant, with the host stranded if nothing is left |
| FrontierRuns.PoolOnce | frontier/frontier.go:998-1013 | in every valid state a host is in at most one pool slot, and in none while a request is out |
| FrontierRuns.QueuedOnce | frontier/frontier.go:534-1013 | conservation: a URL that wants a fetch is in exactly one queue over the front bank, the back queues and the wheel; one that wants none is in none, save a crawled URL in the wheel |
| FrontierRuns.ActiveIsPooled | frontier/frontier.go:985-991 | an active host with nothing out is pooled or stranded, and never stranded with robots off |
| FrontierRuns.Run | frontier/frontier.go:703-836 | every run, up to its first unlawful command: what it adds to the trace is exactly the requests returned and the reports expected, in order; one request out per host, requests to one host and to one resolved address spaced by the steps spent, no step below the policy in whole seconds |
| Restart.Checkpoint | frontier/frontier.go:1049-1084 | the partition holds every record and host of the frontier once, in key order |
| Restart.Recover | frontier/frontier.go:1097-1146 | the rebuilt frontier is valid, in-flight URLs are Scheduled again, pending URLs are in the front bank, crawled ones with a due hour in the wheel, every host has its window, and the fetches of every URL still count, save the one whose response will not come |
| Restart.RunReopenRun | frontier/frontier.go:1049-1146 | a run, a restart and another run, each trace explained by its commands and replies: the second keeps every host's spacing against the first, and every address's if and only if it sends nothing inside a window of the lost per-IP table, as it does when it starts after all of them |
| Restart.RejoinedIff | frontier/frontier.go:1097-1111 | over two sessions with their addresses the whole trace is spaced exactly when the second one waits for every lost address window |
| Addresses.Reach | frontier/frontier.go:703-750 | a seed on a new host is never held up by the others: with a free slot, finitely many dispatches at one instant send to the address the resolver gives |
| Addresses.CrowdAddress | frontier/frontier.go:1097-1146 | the converse: when some lost window is still open at the restart and there is a slot for one more host, some run of the second session breaks the address spacing |
| Addresses.TwoHostsOneAddress | frontier/frontier.go:1097-1111 | the concrete run: two hosts on one address, a send, a restart, and a second send inside the first one's window |
| Restart.ReopenAndDrain | frontier/frontier.go:1015-1146 | a restart at any moment followed by a drain finishes every URL known before it; what both sessions sent is within the retry limit, plus one for a URL whose response was lost |
| Restart.InterruptedPart | frontier/frontier.go:1097-1111 | the run so far, without addresses and with its open requests ended, is a proper history of the restored host windows |
| Rings.Ring.Pop | frontier/ring.go:113-126 | the head of the highest occupied level leaves, the rest stay; none exactly when empty |
| Rings.Ring.Rebucket | frontier/ring.go:90-110 | the items stay the same and one moves, exactly when it was in the bucket named |
| Rings.PopShard | frontier/shard.go:59-75 | a thread takes the head of its own shard, else the best head anywhere, and is turned away only when every shard is empty |
| MinHeap.Push | frontier/heap.go:27-64 | heap order is kept and the item added |
| MinHeap.Pop | frontier/heap.go:41-83 | the root leaves, the rest stay and heap order is kept |
| MinHeap.RootMinAll | frontier/heap.go:33-38 | the root is a minimum |
| StoreCrash.AlwaysAPrefix | store/store.go:475-682 | over every run of appends, fsyncs, commit steps, crashes of the process or the power, and recoveries of a store whose evicted rows are within reach: a running store is exactly the fold of its history, its next LSN is above every one in it, and a recovery keeps a prefix |
| StoreCrash.StepInv | store/store.go:475-682 | every step of the journal, of the commit with a whole snapshot and of recovery keeps the disk invariant |
| StoreCrash.CrashRecover | store/store.go:475-682 | exactly what one crash and recovery keep when snapshots are whole: all of it when the slot write completed, else the checkpoint plus the intact frames left |
| StoreCrash.CrashKeepsAcked | store/log.go:171-214 | a crash at any step, whatever it leaves on the device or in the page cache, loses no fsynced update when the open log has no torn frame |
| StoreCrash.NoAckedUpdateLost | store/log.go:96-116 | no fsynced update is lost in any run, whatever its crashes tear or leave unsynced, provided each fsync finds the open log without a torn frame |
| StoreSpill.Refines | store/store.go:406-425 | with eviction added: while only rows written since the last commit are evicted and a commit finds every row in memory, each move is a step of the plain protocol or none |
| StoreSpill.EvictingStoreIsAPrefix | store/store.go:475-682 | every such run of an evicting store, crashes and torn writes included, holds exactly the updates of its history, each within reach |
| StoreSpill.EvictingStoreLosesNothing | store/store.go:475-682 | and it loses no fsynced update when its fsyncs find the log clean |
| StoreSpill.SnapshotWholeIff | store/store.go:535-586 | whatever stale reads return, the snapshot is the store's contents if and only if no evicted row is out of reach |
| StoreSpill.CommitStrands | store/store.go:475-529 | a commit puts exactly the rows then out of memory out of reach |
| StoreSpill.SecondCheckpointDropsRow | store/store.go:475-590 | from every state with an evicted row within reach: two checkpoints later the row is gone from disk though nothing crashed and nobody deleted it |
| StoreCrash.FsyncedSurvivesIffClean | store/log.go:101-107 | an update fsynced to a reopened log survives the next crash if and only if that log had no torn frame |
| StoreCrash.TornTailLosesAcked | store/log.go:252-261 | the concrete run: a torn frame, a reopen, an fsynced append, and a crash that loses it |
| StoreCrash.ArenaOffsetsSurvive | store/store.go:592-682 | a reference readable after recovery reads the same bytes as before the crash |
| StoreCrash.Publish | store/superblock.go:117-143 | completing the slot of the next generation publishes it, whatever the slot held |
| Superblock.SlotBack | store/superblock.go:39-82 | a slot written whole reads back |
| Superblock.CommitIsAtomic | store/superblock.go:86-143 | a write of the next generation torn at any bytes leaves the old checkpoint published or the new one |
| Superblock.TornIsAFate | store/superblock.go:117-143 | a torn write leaves its slot old, damaged or new and the other slot as it was, the three fates of the protocol |
| Superblock.ReadAgrees | store/superblock.go:86-112 | reading the bytes and choosing between the two abstract slots agree |
| Superblock.WriteSuperblock | store/superblock.go:117-143 | only the slot of the generation's parity changes |
| LogFrames.ReadBack | store/log.go:118-214 | a frame reads back wherever it was written |
| LogFrames.ReadAtExtends | store/log.go:192-214 | appending never disturbs a frame already readable |
| LogFrames.ReplayCutLog | store/log.go:230-275 | a log whose last frame is cut at any byte replays to exactly the frames before it |
| LogFrames.TornFrameStops | store/log.go:230-275 | replay stops at a frame with a wrong checksum, whatever follows it |
| LogFrames.ReplayLog | store/log.go:230-275 | the loop returns the frames of the specification |
| StoreIndex.Store.PutURL | store/store.go:240-268 | for new, checkpointed and recovered stores alike: the record is put and readable, exactly which bodies leave memory, and a row goes stale only when it is evicted with its last write before the last commit |
| StoreIndex.Store.GetURL | store/store.go:272-304 | the answer is the plain map's for every key that is not stale, and in any case the resident copy or whatever the offset reads |
| StoreIndex.Store.DeleteURL | store/store.go:309-328 | the store means the map without the key; the resident counter is then too high by the counted body it dropped |
| StoreIndex.Store.TrackResident | store/store.go:406-425 | the counted bodies are within the budget afterwards, and what left memory is what the queue says |
| StoreIndex.Store.CountIsLive | store/store.go:368-381 | the entries without a tombstone are the live records, evicted, stale or recovered |
| StoreIndex.Store.Recover | store/store.go:592-682 | from any snapshot and log, torn or not: the store means the snapshot with the log's intact frames redone, answers like it, holds it all in memory, counts none of it, and resumes above every LSN |
| StoreIndex.Store.Checkpoint | store/store.go:475-590 | the snapshot is the map if and only if the store answered like it; and such a store still does after the log swap if and only if no live row was out of memory |
| StoreIndex.Store.AgreesExactly | store/log.go:192-214 | in any valid state, any number of commits later, GetURL equals the map if and only if every row evicted since it was last written and committed happens to read back right |
| StoreIndex.Store.AgreesUnlessStale | store/store.go:272-304 | with no such row the store answers like the map |
| StoreIndex.Store.ResidentCount | store/store.go:398-398 | the bodies in memory are at most the budget plus the recovered rows not yet deleted, and by how much the counter differs from them |
| StoreIndex.RunGeneration | store/store.go:240-425 | any run without a checkpoint on a new or recovered store: every reply is that of a plain map with LSNs counted up, and the store ends meaning that map, under any evictions |
| StoreIndex.RunWithRoom | store/store.go:240-533 | any run whose new rows fit the budget, or without a budget: every reply and every snapshot is the plain map's over any number of checkpoints |
| StoreIndex.Reopen | store/store.go:447-682 | a checkpoint and a reopen keep the rows if and only if the store answered like the map |
| StoreIndex.EvictedAcrossCheckpoint | store/store.go:475-529 | the concrete run with a budget of one: after a checkpoint an evicted row is absent, then served with another row's body, which the next snapshot keeps |
| StoreIndex.RecoveredOverBudget | store/store.go:592-682 | two recovered rows outnumber a budget of one, and rewriting one does not queue it |
| PartitionOps.Rebaser.Intern | format/ops.go:189-203 | the new reference names the bytes the old one named; a reference that names nothing becomes the none sentinel |
| PartitionOps.RebaseArena | format/ops.go:221-231 | every row means what it meant over an arena that holds exactly the referenced spans, each once |
| PartitionOps.Compact | format/ops.go:48-68 | exactly the surviving rows, in order, with their meaning; unreferenced spans are reclaimed |
| PartitionOps.Split | format/ops.go:77-108 | each half holds the rows on its side of the cut with their meaning, and no host is on both sides |
| PartitionOps.SplitKeys | format/ops.go:77-108 | the halves back to back have the original's order |
| PartitionOps.Merge | format/ops.go:116-168 | the rows of both with their meaning when the concatenation is sorted, a refusal otherwise |
| PartitionOps.MergeUndoesSplit | format/ops.go:77-171 | merging the halves of a split gives the original up to reference renaming; it is refused exactly for a cut below the range with rows on both sides, and the range comes back exactly when the cut lies within it |
| PartitionOps.Extract | format/extract.go:18-50 | the moving hosts' rows and all others, each in order with its meaning |
| PartitionOps.ExtractConserves | format/extract.go:18-50 | no row is lost or doubled and no host is on both sides |
| Arena.ArenaReadBack | format/blob.go:54-77 | a span interned at the end of an arena reads back |
| Arena.ArenaReadExtends | format/blob.go:54-59 | appending to the arena moves no span |
| Arena.ArenaDict.Intern | format/dict.go:32-40 | the reference returned reads back as the span, equal spans share one, and earlier references keep theirs |
| Handoff.HandOff | distribute/handoff.go:68-122 | against any transport: every destination's turn in order with exactly its rows, and what is kept is the source without the slices acknowledged with matching destination, epoch and checksum; or the source as it was when a slice cannot be encoded, which, with an encoder that refuses only rows out of order, happens exactly when some destination's rows are; if all acknowledge, the source keeps exactly its own hosts |
| Handoff.ShipTo | distribute/handoff.go:93-117 | a slice leaves the source if and only if its acknowledgement matches |
| Handoff.Rebalance | distribute/handoff.go:68-122 | over any number of rounds no row is lost, and the rows kept and all the slices acknowledged are the source's rows once each if and only if no encode failed after an acknowledgement; none does when the source is in order |
| Handoff.FailsIff | distribute/handoff.go:93-103 | with an encoder that refuses only rows out of order, a round fails if and only if some destination's own rows are |
| Handoff.DoubledRow | distribute/handoff.go:93-103 | the concrete round: one destination acknowledges, the next slice cannot be encoded, and the source keeps rows that are already delivered |
| PartitionMap.JumpHash | distribute/map.go:32-47 | the loop terminates in range and computes the jump walk |
| PartitionMap.JumpConsistent | distribute/map.go:32-47 | for n at most m, a key whose m-bucket is below n has the same n-bucket |
| PartitionMap.GrowthMovesOntoNew | distribute/map.go:79-84 | growing the fleet moves a host only onto a new partition and never a pinned one |
| PartitionMap.ExactJumpAdvances | distribute/map.go:32-47 | the jump in exact arithmetic advances, the one thing the walk needs |
| Wheel.DueWheel.Add | frontier/wheel.go:40-51 | the wheel then also holds the key at its effective hour |
| Wheel.DueWheel.FireDue | frontier/wheel.go:57-87 | exactly the keys with effective hour at most now leave, in hour order, and the rest stay |
| Wheel.DueWheel.AdmitOverflow | frontier/wheel.go:91-105 | afterwards every overflow entry is past the horizon, and nothing is lost |
| Wheel.DueWheel.NextDue | frontier/wheel.go:111-123 | the least pending hour, and none exactly when nothing waits |
| Wheel.FirstBucket | frontier/wheel.go:111-123 | the first non-empty bucket holds the earliest entries |
| BitPacking.BitPack | format/encoding.go:51-66 | the bytes hold the values' low bits at their widths |
| BitPacking.BitUnpack | format/encoding.go:69-86 | the values are those the bytes hold |
| BitPacking.UnpackPacked | format/encoding.go:51-86 | unpacking what was packed, followed by anything, returns the values |
| BitPacking.BitWidth | format/encoding.go:40-47 | the fewest bits that hold the value |
| Encoding.EncodeRLE | format/encoding.go:195-212 | the payload encodes a run list that expands to the column |
| Encoding.DecodeRLE | format/encoding.go:214-229 | any payload that encodes a run list of the right length gives its expansion |
| Encoding.EncodeDict | format/encoding.go:234-259 | the payload is the dictionary of the column's distinct values and the packed codes into it |
| Encoding.DecodeDict | format/encoding.go:261-287 | a dictionary payload gives its column back |
| DeltaEncoding.AdvanceStep | format/encoding.go:35-37 | a 64-bit difference that wrapped is undone by the addition that wraps back |
| DeltaEncoding.DecodeDelta | format/encoding.go:307-324 | every delta payload gives its column back |
| DeltaEncoding.DecodeFOR | format/encoding.go:354-369 | every frame-of-reference payload gives its column back |
| DeltaEncoding.DecodeDeltaFOR | format/encoding.go:414-437 | every delta frame-of-reference payload gives its column back |
| DeltaEncoding.EncodeValues | format/encoding.go:125-140 | whichever encoding is named, the payload stands for the column |
| DeltaEncoding.DecodeValues | format/encoding.go:143-160 | whatever payload stands for a column under an encoding gives it back, at widths 1, 2, 4 and 8 |
| Pages.PageBack | format/page.go:39-91 | a page at the front of any bytes reads back, header and payload |
| Column.ZoneMap | format/column.go:285-304 | the zone is the least and the greatest value |
| Column.SplitColumn | format/column.go:170-183 | the chunks concatenate to the column and each but the last has the page cap's rows |
| Column.BuildColumnPage | format/column.go:193-206 | the page stands for its rows, under the raw or the named encoding, and is never larger than raw |
| Column.EncodeColumnRegion | format/column.go:107-163 | directory offsets, lengths and skip lists address the pages of every column |
| Column.DecodeColumnPage | format/column.go:213-226 | striding by the recorded lengths decodes exactly the page asked for |
| Column.DecodeColumnRegion | format/column.go:231-263 | a region that holds the columns decodes to them |
| Column.RoundTrip | format/column.go:107-281 | for every column list, page cap and surrounding file, decoding the encoded region returns the columns |
| Schedule.BucketWindow | format/schedule.go:62-91 | a row's bucket is the last one whose window has opened by its hour |
| Schedule.BuildScheduleIndex | format/schedule.go:96-111 | every scheduled row is in the bucket of its hour, in row order, and no other row is |
| Schedule.DecodeScheduleRegion | format/schedule.go:152-188 | the region of an index decodes to it |
| Schedule.DueBuckets | format/schedule.go:204-217 | the candidates are the rows of the buckets whose windows have opened |
| Schedule.DueByWheel | format/reader.go:305-338 | for every partition and time a permutation of the column scan |
| Schedule.StoreAndQuery | format/schedule.go:62-217 | writing the index, reading it back and querying it finds what the column scan finds |
| Schedule.MaybeDueAt | format/reader.go:83-86 | the earliest hour rules a partition out exactly when nothing in it is due |
| Reader.HostRangeURLKeys | format/reader.go:195-256 | page pruning gives exactly the full filter when the header range bounds the keys |
| Fsst.Match | format/fsst.go:74-86 | a longest symbol that is a prefix, or none exactly when no symbol is |
| Fsst.Encode | format/fsst.go:89-102 | decoding the code gives the string back, for every table, in at most twice the bytes |
| Fsst.Decode | format/fsst.go:106-123 | decoding is the expansion of the code |
| Fsst.DecodeTable | format/fsst.go:272-293 | an encoded table comes back |
| Fsst.TopSymbols | format/fsst.go:178-199 | distinct symbols of the highest gain, ties broken by a fixed order, as many as a table holds |
| Fsst.Train | format/fsst.go:147-172 | whatever the samples, the result is a table of distinct symbols with its index |
| Fsst.RoundTrip | format/fsst.go:229-293 | building, storing, loading and reading any string gives it back |
| Batch.EncodeBatch | distribute/batch.go:36-108 | the body holds the batch sorted by key; an empty batch is the empty body |
| Batch.DecodeBatch | distribute/batch.go:113-241 | a body gives back the rows it holds |
| Batch.RoundTrip | distribute/batch.go:36-241 | decoding an encoded batch succeeds and is the batch in key order |
| Drum.MergeSortedRuns | dedup/drum.go:186-201 | the ascending union of two disjoint ascending runs |
| Drum.Sweep | dedup/drum.go:139-181 | the verdicts of the two-pointer pass are those of checking the run one key at a time |
| Drum.VerdictCounts | dedup/drum.go:118-134 | of a key's verdicts at most one is unique, and one is exactly when the key was not held |
| Drum.ExactSet.Contains | dedup/drum.go:90-94 | membership of the set |
| Drum.ExactSet.Add | dedup/drum.go:98-111 | the set gains the key; the answer says whether it was new |
| Drum.ExactSet.Merge | dedup/drum.go:118-134 | the batch joins the set with the verdicts of inserting it one key at a time |
| SeenSets.Filter.MaybeSeen | dedup/filter.go:98-108 | no key that was added is ever missed |
| SeenSets.Filter.Add | dedup/filter.go:85-93 | the key's bits are set and no bit is cleared |
| SeenSets.SeenSet.Seen | dedup/seenset.go:83-93 | check and insert on a mathematical set |
| SeenSets.SeenSet.Contains | dedup/seenset.go:98-103 | membership, whatever the filter says |
| SeenSets.SeenSet.Merge | dedup/seenset.go:120-132 | the batch joins the set with the verdicts Seen would give key by key |
| SeenSets.SeenSet.Insert | dedup/seenset.go:136-141 | the set gains the key |
| SeenSets.SeenSet.Len | dedup/seenset.go:144-144 | the number of keys in the set |
| NearDups.NearDup.Find | dedup/neardup.go:65-83 | it succeeds if and only if some stored simhash is within Hamming distance 3, and returns such a page |
| NearDups.Pigeonhole | dedup/neardup.go:10-18 | two words within distance 3 agree on one of four blocks |
| NearDups.LeadingBlock | dedup/neardup.go:45-47 | table b is led by block b - 1, cyclically, so the four tables still cover the four blocks |
| Robots.Match | robots/robots.go:261-309 | the greedy matcher decides the declarative meaning of stars and a final dollar, save that a lone dollar takes every path |
| Robots.AgreesUnlessDollar | robots/robots.go:261-309 | it agrees with section 2.2.3 of RFC 9309 if and only if the pattern is not a lone dollar or the path is empty |
| Robots.DollarMatchesTooMuch | robots/robots.go:300-304 | the concrete pattern and path where it does not |
| Robots.GlobIsSegments | robots/robots.go:272-275 | a pattern's meaning is that its segments occur in order |
| Robots.Allowed | robots/robots.go:215-237 | the verdict of the longest match depends on the set of rules alone |
| Robots.PermittedIsLongestMatch | robots/robots.go:215-237 | section 2.2.2 of RFC 9309: allowed if and only if no rule applies or a longest applying rule allows |
| Robots.OctetVerdictIff | robots/robots.go:190-198 | the verdict is the one by octets if and only if no uncounted dollar makes or breaks a tie between a longest prohibition and a longest permission |
| Robots.OneKindByOctets | robots/robots.go:215-244 | where only prohibitions or only permissions apply the two verdicts agree |
| Robots.DollarLosesTie | robots/robots.go:190-198 | the concrete rules and path: an anchored prohibition loses the tie it would win by octets |
| Robots.VerdictByMeaning | robots/robots.go:215-244 | with no lone dollar among the patterns the verdict is the one their meaning gives |
| Robots.RulesAreMonotone | robots/robots.go:215-237 | another permission revokes none and another prohibition grants none |
| Robots.SelectGroup | robots/robots.go:165-188 | the first group with a longest token naming the product, else the first star group, else none |
| Robots.Verdict | robots/robots.go:119-244 | for every path the verdict is that of all the groups of the deciding token combined, when one group alone holds it; with no token everything is allowed |
| Robots.CombinedIff | robots/robots.go:165-188 | one group's rules stand for those of all groups of its token, whatever the rules, if and only if no other group has the token |
| Robots.SecondGroupIgnored | robots/robots.go:165-188 | the concrete file: two groups for one product, and what the second forbids is allowed |
| Civil.Inverts | dedup/trapdetect.go:472-493 | for every day number the result is a date of the calendar and the date of that day |
| Civil.BackToDate | dedup/trapdetect.go:472-493 | every valid date comes back from its day number: the two are inverse bijections |
| Civil.ConsecutiveDays | dedup/trapdetect.go:472-493 | day 0 is 1 January 1970 and consecutive days are consecutive dates, in both directions |
| Civil.DatesAscend | dedup/trapdetect.go:472-493 | a later day has a later date |
| Civil.MonthReached | dedup/trapdetect.go:463-467 | the month count reaches a month exactly when the clock reaches its first day |
| Civil.NowMonthsAscend | dedup/trapdetect.go:463-467 | the month count never goes back |
| Traps.Detector.Observe | dedup/trapdetect.go:213-249 | a host is flagged for a kind if and only if the distinct URLs counted for it reach the threshold, and is reported exactly once, when it becomes a suspect |
| Manifest.Route | format/manifest.go:102-113 | the entry that covers the key among the last to start at or below it |
| Manifest.CoverageGap | format/manifest.go:132-159 | clean exactly when each range of the epoch starts where the one before it ends, modulo 2^64 |
| Manifest.BuildManifest | format/manifest.go:88-97 | the entries, each as often as given, by first host key and then by partition |
| Manifest.CheckedRoute | format/manifest.go:102-159 | a one-epoch manifest that passes the check routes every host key to a range that holds it |
| Manifest.CleanTilesIff | format/manifest.go:132-159 | a clean manifest tiles the key space if and only if it has one range or its first does not reach the top |
| Manifest.OverlapCalledClean | format/manifest.go:132-159 | two whole-space ranges overlap and are called clean |
| Manifest.TilesIsClean | format/manifest.go:132-159 | no tiling by non-empty ranges is refused |
| Replica.Standby.Apply | distribute/replicate.go:104-119 | an entry at or below the applied LSN changes nothing |
| Replica.Standby.Stream | distribute/replicate.go:124-130 | a batch in any order, with repetitions and no gap, brings the replica to the primary's recovery at its last entry |
| Replica.Follow | distribute/replicate.go:104-130 | any run of batches that never skips brings the replica to the primary's recovery at the last entry the run carries |
| Replica.FurthestIsMax | distribute/replicate.go:134-134 | that is the largest LSN of all the batches, or where the replica began |
| Replica.LateEntryIsLost | distribute/replicate.go:104-119 | an entry delivered in a later batch than its successor is never applied |
| Fleet.RankingWithout | distribute/rendezvous.go:40-61 | losing a machine only strikes it from every ranking |
| Fleet.Preference | distribute/rendezvous.go:40-90 | the first machines of the one ranking that the hashes, scaled by capacity or not, determine |
| Fleet.Control.FailMachine | distribute/failover.go:89-119 | exactly the lost machine's partitions move, each to the first survivor of its list, as long as the loss keeps the order of the others: placement by capacity is not switched off by it, or no survivor has an unset weight, or one survivor is left |
| Fleet.PromotionIff | distribute/control.go:174-215 | that condition is exact: the promotion property holds for every hash function if and only if it does |
| Fleet.RescalingMovesOthers | distribute/failover.go:89-119 | the concrete call: the one machine with a capacity weight fails, another has none, and a partition whose primary survives moves |
| Fleet.Control.SetMachines | distribute/control.go:98-103 | the same machines move nothing; a machine that joins takes partitions for itself alone, under the same condition; health, pins, misses and the epoch stay |
| Fleet.Control.SetReplicas | distribute/control.go:89-94 | placed partitions keep their primaries and their replica lists are cut or go on; health, pins, misses and the epoch stay |
| Fleet.Control.AddPartition | distribute/control.go:109-118 | no other placed partition moves, and the epoch steps |
| Fleet.Control.RemovePartition | distribute/control.go:123-136 | the highest partition goes and no other moves; the last one stays |
| Fleet.Control.MissHeartbeat | distribute/failover.go:61-79 | Failed exactly when the threshold of misses has gone by without a beat; the epoch steps exactly when the health changes |
| Fleet.Control.Heartbeat | distribute/failover.go:19-55 | a beat clears the misses and revives the partition; the epoch steps exactly when the health changes |
| Fleet.Control.Pin | distribute/control.go:141-149 | one override more and a new epoch; no partition moves |
| Fleet.NewPartitionFails | distribute/control.go:123-136 | the miss counter outlives its partition: one miss fails a partition whose id was used before |
| Elasticity.Loop.Tick | distribute/elasticity.go:84-120 | at most one resize, within the limits, and every invariant of the history kept |
| Elasticity.Run | distribute/elasticity.go:84-120 | over every run resizes are at least Cooldown + Breaches intervals apart and each answers a breach that held for Breaches intervals |
| Bytes.ReadUvarintInverse | format/buf.go:64-76 | a varint reads back from the front of any buffer |

## Left out

- Goroutines, mutexes, channels, DNS workers, the fetch pool: every model is sequential.
- zstd, CRC32C, xxHash, hash mixing, the public suffix list, IDNA and URL parsing: arbitrary functions or parameters.
- Floating point: the ribbon table size, the jump step (any advancing function; `ExactJump` shows the exact one is), the rendezvous weight as an exact product of hash and capacity (two hashes closer than float64 tells apart would tie), freshness and OPIC scores, Bloom sizing.
- Probabilistic claims: false-positive rates, solve probability, hash balance.
- Header, footer and manifest serialization field by field, and the 43-column record layout: a generic column list, and record bodies as opaque values.
- 32-bit overflow of clocks and hours: hours stay clear of the top of the range in the wheel, and clocks, LSNs and fetch counts are unbounded elsewhere.
- Inputs on which Go would panic (a corrupt length used to make a slice, a skip list past its end) give None.
- `arenaRead`'s 64-bit wrap of offset plus length: offsets and lengths are unbounded.
- A superblock slot that a dying process has written and not synced counts as on the device; log frames it has not synced do not.
- Directory fsync, file creation errors and I/O errors of the store and the log.
- In `StoreIndex` a checkpoint is one step, and URL frames whose key is not 16 bytes long are passed over by replay; `StoreSpill` has the steps of a commit, and rows as opaque values.
- `CheckpointFrom` followed by writes in the same session.
- Retention (`Evict`) of the per-IP table, which the frontier never calls, and the bandwidth and statistics counters.
- `Parse` of robots.txt lines into groups, sitemaps and Crawl-delay values.
- URL signatures of the trap detector (`Violation`, `Passes`): the kind of an observation is a parameter.
- The two-slot file of `Superblock` is written whole or torn bytewise over an existing file of two slots or over none.
- Scheduler.Frontier.PromoteDue: what has fired is an argument; `DueTimes.DispatchDue` joins it to the wheel. A wheel rebuilt by recovery is not joined.
- Scheduler.Frontier.Drain: with robots, the resolver or the wheel on, hosts can be stranded or wait on outside answers, so completeness is stated with them off and no redirect targets; safety is not.
- FrontierRuns.Run: a report names a request that is out or an unknown URL; a run ends before a second report of one request.
- Rings.Ring.Pop: the order among the items left behind is the representation's and is not restated.
- Addresses.CrowdAddress: with every slot of the active set taken by hosts whose own windows are open longer than the address's, nothing new can go out in time, so the converse asks for one free slot.
- Restart.Recover: the dispatch order after a restart is not claimed to equal the one before it.
- StoreCrash.NoAckedUpdateLost: an fsync behind a torn frame is excluded because the code loses what it acknowledges; `FsyncedSurvivesIffClean` is the exact condition.
- StoreCrash.AlwaysAPrefix: snapshots are whole, as they are while no evicted row is out of reach; `StoreSpill` proves when that is.
- StoreCrash.StepInv: the same.
- StoreCrash.CrashRecover: the same.
- Column.RoundTrip: a column's pages compress to less than 4 GiB.
- Batch.RoundTrip: the body's length fits Go's int.
- Fsst.Train: gains are unbounded integers, and the choice of symbols only affects size.
- Replica.Standby.Stream: entries with equal LSN are copies of one log entry.
- PartitionOps.Merge: `BuildSchedule`, `SeenFilter` and `MaxPageRows` are not carried by the partition value.
