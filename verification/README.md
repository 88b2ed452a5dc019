# CQMSan, modelled and proved in Dafny

A model of the parts of CQMSan that carry the hardest guarantees, with proofs that hold for all
inputs, all programs of the small intermediate language, all interleavings and all runs. Nothing
is executed.

`dafny verify dfyconfig.toml` checks everything. Arithmetic helpers (powers of two, products,
quotients, rounding) are in `Arith.dfy`; multiplication and division by unknowns are defined
there by recursion so that proofs stay linear, and proved to be `*`, `/` and `%`. `Wrappers.dfy`
and `FiniteSets.dfy` hold the option type and the measure of work-list loops.

## What is modelled

The compiler pass (`CompilerQEMUMemorySanitizer.cpp`):

- `Coalescing.dfy`: where the checks of a basic block go. Checks are grouped at anchors, shadows
  are ORed as they are defined or at the anchor, essential checks stay at their sites. Emitted code
  is a program of its own with temporaries, run against arbitrary shadow values; class
  `Instrumenter` is the pass's own code, growing the block in place.
- `SinkDeferral.dfy`: moving a load's check to a later sink, over control-flow graphs with barriers
  and runs that may stop at one. The property the pass relies on is false as the code stands: the
  same-innermost-loop test does not exclude that the load runs again before the sink. A concrete
  function shows it, and deferral is proved to lose nothing exactly when no path re-enters the
  load's block before meeting the sink's. Without the test it would be worse: every sink outside a
  loop around the load loses poisoned loads (`SinkOutsideALoopLosesALoad`).
- `ReturnFilter.dfy`: which return checks are dropped.
- `ReturnDeferral.dfy`: dropped return checks together with moved load checks. The premise that the
  load's own check has reported by then is false where a load can run again before its sink; a
  concrete function returns poison unreported, and the exact condition is proved.
- `UndefSlice.dfy`: following `undef` through registers and memory, as noninterference of two runs.

The allocator stack (`sanitizer_common`, `cqmsan`):

- `SizeClassMap.dfy`, `CombinedAllocator.dfy`: size classes for all legal template parameters, and
  the dispatch between primary and secondary with its alignment argument.
- `PackedCounters.dfy`, `PageGrid.dfy`, `PageRelease.dfy`: giving free pages back.
- `RegionState.dfy`, `ChunkOwnership.dfy`, `Primary64.dfy`, `RegionLayout.dfy`: a region of the
  64-bit primary with its caches, as values and as objects changed in place, and its addresses.
- `FreeArrayBound.dfy`: when a region can carve more chunks than its free array lists.
- `Primary32.dfy`: the 32-bit primary whose transfer batches live in the chunks they list.
- `LargeMmap.dfy`, `HeapSort.dfy`: the mmap secondary and the runtime's sort.
- `StatsRing.dfy`: the circular list of per-thread counters.
- `AddrHashMap.dfy`: the concurrent hash map, one step per atomic access of a bucket.
- `PoisonReuse.dfy`: the heap shadow and the reuse of poison left by free.

The novelty protocol between child and fuzzer: `Novelty.dfy`.

## Where code and documentation differ

- Sink deferral: the comment at `src/pass/CompilerQEMUMemorySanitizer.cpp:928` promises a sink that
  is reached whenever the load executes; `SameLoopTestIsNotEnough` gives a function where the sink
  tests a later load instead.
- Dropped return checks: the comment at `src/pass/CompilerQEMUMemorySanitizer.cpp:1590` calls
  them redundant because the load's check fired before; with checks moved to sinks that holds
  exactly without re-entry (`DroppingIsSafeIffNoReentry`), and `StaleValueIsReturned` is a function
  where it does not.
- `SizeClassMap::Validate` checks that one byte less than a class size stays in the class; that
  fails for one-byte steps (`OneByteStepsBreakValidate`, and `ValidateHoldsIff` for all parameters).
- A space with a constant start must start at a multiple of the region size for addresses to
  decode (`ConstantStartMustBeAligned`); the code checks a weaker alignment.
- The free array takes an eighth of a region. The CHECK on its size can fail exactly for 16-byte
  chunks with so little metadata that one mapping step more than it lists fits the region
  (`CheckFailsIffOverflowable`). CQMSan's own classes have more.
- In the 32-bit primary a region that is granted while a later one for its batches is refused loses
  its unlisted chunks for good (`CutShortIffRefusedLater`, `LosesChunks`); nothing is lost otherwise.
- `poison_reuse` needs stores to stay out of freed chunks, as its flag's comment says; when such a
  store matters is `DanglingStoreMattersIff`.
- A site whose index in the shared map is the sentinel's is lost (`SiteIsRecordedIffBelowSentinel`).

## Model

| member | source | states |
|---|---|---|
| Coalescing.WarningsAreExact | src/pass/CompilerQEMUMemorySanitizer.cpp:1535-1572 | For every block, every list of checks and all shadow values: each check with a poisoned shadow warns between its site and the first barrier or terminator at or after it, every warning is such a check's, and every emitted OR and test reads only what is defined before it |
| Coalescing.WarningPositions | src/pass/CompilerQEMUMemorySanitizer.cpp:1535-1572 | The exact set of warnings: a poisoned check that is essential, sits at an immediate site or has no anchor warns at its site, or right behind the last shadow tested at that site if one is defined later; any other poisoned check warns at the first barrier or terminator at or after its site and not before; there is no other warning |
| Coalescing.EssentialWarnsAtItsSite | src/pass/CompilerQEMUMemorySanitizer.cpp:1540-1546 | An essential check, or one at an immediate site, whose site needs no later shadow is tested in front of the very instruction it guards |
| Coalescing.OneTestPerAnchor | src/pass/CompilerQEMUMemorySanitizer.cpp:1549-1570 | However many checks wait for an anchor, together they cost it one test, and no other place gets one for them |
| Coalescing.ShadowsAreFoldedEarly | src/pass/CompilerQEMUMemorySanitizer.cpp:1310-1365 | With two or more shadows of a group defined in the anchor's part of the block, each but the first is ORed in where it becomes ready and only the others at the anchor; otherwise all are |
| Coalescing.WarnsBeforeTheRunStops | src/pass/CompilerQEMUMemorySanitizer.cpp:1283-1295 | A run that stops at a barrier or the terminator has already warned about every check with a poisoned shadow whose site it reached |
| Coalescing.CoalescedEffect | src/pass/CompilerQEMUMemorySanitizer.cpp:1310-1365 | Both forms of a group's check, ORs right after the definitions or all at the anchor, are well defined and fire exactly when some shadow of the group is poisoned |
| Coalescing.SplitKeepsPoison | src/pass/CompilerQEMUMemorySanitizer.cpp:1318-1355 | Chaining local shadows once each, in order, and folding the rest at the anchor loses no shadow and adds none |
| Coalescing.EssentialEffect | src/pass/CompilerQEMUMemorySanitizer.cpp:1139-1185 | The check of an essential site fires exactly when one of its shadows is poisoned; constants are decided at compile time |
| Coalescing.SitesOk | src/pass/CompilerQEMUMemorySanitizer.cpp:1112-1137 | The insertion point of a site's check lies behind every shadow it reads and not behind the first barrier at or after the site |
| Coalescing.AnchorsOk | src/pass/CompilerQEMUMemorySanitizer.cpp:1283-1295 | At an anchor every shadow of its group is already defined |
| Coalescing.FindAnchor | src/pass/CompilerQEMUMemorySanitizer.cpp:1283-1295 | The scan returns the first barrier at or after the site, else the terminator, else nothing if that cannot be split |
| Coalescing.GroupAllMember | src/pass/CompilerQEMUMemorySanitizer.cpp:1520-1533 | Grouping by site or anchor keeps exactly the pairs it was given |
| Coalescing.Instrumenter.SplitShadows | src/pass/CompilerQEMUMemorySanitizer.cpp:1326-1343 | The loop sorts out local shadows without repeats and in block order, and keeps the others in list order |
| Coalescing.Instrumenter.ChainEarly | src/pass/CompilerQEMUMemorySanitizer.cpp:1344-1351 | The loop emits one OR right after each local shadow, each into the accumulator of the one before |
| Coalescing.Instrumenter.EmitCoalescedCheck | src/pass/CompilerQEMUMemorySanitizer.cpp:1310-1365 | The block changed in place is the specified one: early ORs, the rest at the anchor, one test |
| Coalescing.Instrumenter.FindInsertPoint | src/pass/CompilerQEMUMemorySanitizer.cpp:1112-1137 | The loop returns the place behind the last local shadow defined at or after the site, else the site |
| Coalescing.Instrumenter.MaterializeInstructionChecks | src/pass/CompilerQEMUMemorySanitizer.cpp:1139-1185 | The code of one essential site, with constant shadows skipped or reported at once |
| Coalescing.Instrumenter.Classify | src/pass/CompilerQEMUMemorySanitizer.cpp:1540-1557 | Sorts the list into checks for their sites and checks for their anchors, in order; which goes where is what WarningPositions and OneTestPerAnchor decide |
| Coalescing.Instrumenter.GroupByOrigIns | src/pass/CompilerQEMUMemorySanitizer.cpp:1520-1533 | Groups by site in order of first insertion |
| Coalescing.Instrumenter.MaterializeCoalescedChecks | src/pass/CompilerQEMUMemorySanitizer.cpp:1535-1572 | The block grown in place is the code whose warnings WarningPositions gives exactly and whose tests OneTestPerAnchor counts |
| SinkDeferral.EveryLoadIsTested | src/pass/CompilerQEMUMemorySanitizer.cpp:870-950 | If no path gets back to the load's block before the sink's, every run that executes the load and later stops, at a barrier or an exit, has tested that very shadow at the accepted sink |
| SinkDeferral.NothingLostIffNoReentry | src/pass/CompilerQEMUMemorySanitizer.cpp:928-945 | Over all runs deferral to another block loses no load if and only if no path re-enters the load's block while avoiding the sink's |
| SinkDeferral.SameLoopTestIsNotEnough | src/pass/CompilerQEMUMemorySanitizer.cpp:931-945 | A concrete function, with its true innermost natural loops and post-dominators, whose store the search accepts although a run executes a poisoned load twice and tests only the second, clean one |
| SinkDeferral.LoopyLoops | src/pass/CompilerQEMUMemorySanitizer.cpp:931-945 | The loop table of that function is the innermost natural loops its control-flow graph has |
| SinkDeferral.ReentryLosesALoad | src/pass/CompilerQEMUMemorySanitizer.cpp:931-945 | Wherever such a path exists there is a run with one poisoned load that is never tested |
| SinkDeferral.CheckReadsOneLoad | src/pass/CompilerQEMUMemorySanitizer.cpp:870-950 | Wherever the accepted sink is reached its check reads the shadow of exactly one executed load, the latest: nothing is invented |
| SinkDeferral.SinkIsReached | src/pass/CompilerQEMUMemorySanitizer.cpp:1247-1272 | No run that passed the load can stop before the sink |
| SinkDeferral.GuaranteedPathHasBarrier | src/pass/CompilerQEMUMemorySanitizer.cpp:1247-1272 | The walk answers exactly whether a barrier lies behind the load, in a block reachable before the sink's block, or in front of the sink |
| SinkDeferral.WalkBetween | src/pass/CompilerQEMUMemorySanitizer.cpp:1259-1267 | The work list visits exactly the blocks reachable from the load's block around the sink's |
| SinkDeferral.FindSinkFor | src/pass/CompilerQEMUMemorySanitizer.cpp:870-950 | With a right loop table: the result is a sink of a value computed from the load, lies in exactly the natural loops that hold the load, is reached whenever the load is according to post-dominance or order, and has no barrier on the way; without a result there is no such sink |
| SinkDeferral.RoleIsExact | src/pass/CompilerQEMUMemorySanitizer.cpp:886-926 | A user is a sink exactly for the operands it dereferences, divides by, returns, decides on or passes to a call, and passes on exactly what it computes a new value from |
| SinkDeferral.InnermostDecides | src/pass/CompilerQEMUMemorySanitizer.cpp:931-932 | For every graph two blocks have the same innermost loop exactly when the same natural loops hold them, so comparing two table entries compares all loops |
| SinkDeferral.LoopsNest | src/pass/CompilerQEMUMemorySanitizer.cpp:931-932 | A natural loop that holds the header of another holds all of it |
| SinkDeferral.SinkOutsideALoopReenters | src/pass/CompilerQEMUMemorySanitizer.cpp:931-932 | From a load in a loop the load's block is reached again around any sink outside that loop |
| SinkDeferral.SinkOutsideALoopLosesALoad | src/pass/CompilerQEMUMemorySanitizer.cpp:931-932 | So the loop test is needed: for every sink outside a loop that holds the load, post-dominating or not, some run loses a poisoned load |
| SinkDeferral.VisitUsers | src/pass/CompilerQEMUMemorySanitizer.cpp:880-946 | The loop over one value's users finds an acceptable sink or queues every value computed from it |
| SinkDeferral.DeferToSinks | src/pass/CompilerQEMUMemorySanitizer.cpp:1799-1809 | Every deferrable load check is moved in place to an accepted sink if there is one; nothing else of any check changes |
| SinkDeferral.GroupByOrigIns | src/pass/CompilerQEMUMemorySanitizer.cpp:1520-1533 | The same checks, each site's in list order, sites in the order the list first mentions them |
| ReturnFilter.DroppedCheckCarriesLoads | src/pass/CompilerQEMUMemorySanitizer.cpp:1590-1625 | In every run, where a return check is dropped a poisoned return shadow means that some load found poison before |
| ReturnFilter.SearchIsExact | src/pass/CompilerQEMUMemorySanitizer.cpp:1598-1625 | On every shadow graph, PHI cycles included, the search answers true exactly when a poison constant or an unrecognised node can be reached |
| ReturnFilter.KeptExactly | src/pass/CompilerQEMUMemorySanitizer.cpp:1628-1636 | A pending check is kept exactly when its shadow can reach a poison source |
| ReturnFilter.FilterPendingReturnChecks | src/pass/CompilerQEMUMemorySanitizer.cpp:1628-1636 | The loop keeps exactly those checks, in order |
| ReturnDeferral.DroppedCheckIsRedundant | src/pass/CompilerQEMUMemorySanitizer.cpp:1590-1636 | With the checks of loads moved to sinks: a run that returns poison past a dropped check has a load whose own check saw it, if no load behind the returned shadow was moved to a sink its block can be re-entered before |
| ReturnDeferral.DroppingIsSafeIffNoReentry | src/pass/CompilerQEMUMemorySanitizer.cpp:1590-1636 | Whatever a function returns, dropped return checks lose no report if and only if no moved load that can be reached and can return is so re-entered |
| ReturnDeferral.ReentryLosesAReturn | src/pass/CompilerQEMUMemorySanitizer.cpp:1799-1809 | Wherever that is possible there is a function in SSA form and a run that returns poison no check has seen |
| ReturnDeferral.StaleValueIsReturned | src/pass/CompilerQEMUMemorySanitizer.cpp:1598-1636 | A concrete function: the store is accepted as the load's sink, the return check is dropped, and a run returns what the load found the time before, unreported |
| ReturnDeferral.ReturnedLoadIsReported | src/pass/CompilerQEMUMemorySanitizer.cpp:1613-1614 | A returned load itself is always reported, re-entry or not: only values older than the latest execution escape |
| ReturnDeferral.PoisonWasFound | src/pass/CompilerQEMUMemorySanitizer.cpp:1598-1625 | A poisoned word behind a dropped check was found by a load that the search reached |
| UndefSlice.UndefDoesNotLeak | src/pass/CompilerQEMUMemorySanitizer.cpp:1656-1743 | Noninterference: two runs that differ in the bytes picked for undef take the same path, make the same calls and agree wherever the shadow is clean, until both raise the same first warning, both execute the same first load that finds poison, or both return the same value |
| UndefSlice.NoFalseAlarm | src/pass/CompilerQEMUMemorySanitizer.cpp:1690-1716 | A run over clean memory that never picks an undefined value, whatever arms and edges with one it passes by, raises no warning and loads no poison |
| UndefSlice.PoisonIsTraced | src/pass/CompilerQEMUMemorySanitizer.cpp:1690-1716 | Precision, whatever has been picked: a register's shadow is set only if its value goes back, through arms chosen, edges taken, conditions and operands the run really used, to an undefined value picked in this run |
| UndefSlice.WarningIsTraced | src/pass/CompilerQEMUMemorySanitizer.cpp:1717-1743 | Every warning is about an operand that has to be defined where it stands and whose value goes back to an undefined value picked in this run |
| UndefSlice.OutsideIsClean | src/pass/CompilerQEMUMemorySanitizer.cpp:1656-1680 | A register outside a closed slice has a clean shadow in every run, so only slice values need shadow code |
| UndefSlice.ComputeUndefSlice | src/pass/CompilerQEMUMemorySanitizer.cpp:1656-1680 | The work list computes the least set that holds the seeds and every transfer instruction with an operand in it |
| UndefSlice.SelectKeeps | src/pass/CompilerQEMUMemorySanitizer.cpp:1690-1703 | The shadow of a select, that of the chosen arm or the condition's, covers every difference between the runs |
| UndefSlice.OpKeeps | src/pass/CompilerQEMUMemorySanitizer.cpp:1704-1716 | The OR of the slice operands covers every difference in an operator's result |
| UndefSlice.LoadKeeps | src/pass/CompilerQEMUMemorySanitizer.cpp:2602-2654 | A load finds poison in both runs or in neither, and then reads the same clean bytes |
| UndefSlice.StoreKeeps | src/pass/CompilerQEMUMemorySanitizer.cpp:1055-1059 | A store writes the shadow of a slice value and clean shadow otherwise, which is right for every byte |
| UndefSlice.EnterKeeps | src/pass/CompilerQEMUMemorySanitizer.cpp:1768-1775 | All PHIs of a block read their operands and shadows at once; what they merge stays covered |
| UndefSlice.StepKeeps | src/pass/CompilerQEMUMemorySanitizer.cpp:1757-1766 | Every step keeps two runs alike or ends both at the same warning or the same poisoned load |
| UndefSlice.NoUndefNoSlice | src/pass/CompilerQEMUMemorySanitizer.cpp:1656-1671 | Without a seed the slice is empty |
| SizeClassMap.LeastCoveringClass | src/rt/sanitizer_common/sanitizer_allocator_size_class_map.h:158-168 | For all legal parameters a class can serve a size exactly when it is at or above the class the map chooses |
| SizeClassMap.ClassIDCovers | src/rt/sanitizer_common/sanitizer_allocator_size_class_map.h:220-227 | The chosen class covers the size and the one below does not |
| SizeClassMap.NoClassIff | src/rt/sanitizer_common/sanitizer_allocator_size_class_map.h:158-168 | Class 0 is the answer exactly for size zero and for sizes above the largest class |
| SizeClassMap.ClassIDOfSize | src/rt/sanitizer_common/sanitizer_allocator_size_class_map.h:212-212 | The map takes a class's size back to the class |
| SizeClassMap.SizeStrictlyIncreasing | src/rt/sanitizer_common/sanitizer_allocator_size_class_map.h:216-216 | Sizes grow strictly with the class |
| SizeClassMap.OctaveSize | src/rt/sanitizer_common/sanitizer_allocator_size_class_map.h:145-156 | Each octave's sizes are evenly spaced, and the carry past its last step lands on the next octave's first size |
| SizeClassMap.PredecessorStaysIffWide | src/rt/sanitizer_common/sanitizer_allocator_size_class_map.h:215-215 | One byte less than a class size stays in the class if and only if the class is more than one byte wide |
| SizeClassMap.ValidateHoldsIff | src/rt/sanitizer_common/sanitizer_allocator_size_class_map.h:205-216 | That check of Validate passes for all classes if and only if the smallest size and the first octave's step, if there is one, are more than a byte |
| SizeClassMap.OneByteStepsBreakValidate | src/rt/sanitizer_common/sanitizer_allocator_size_class_map.h:205-228 | Parameters for which that check of Validate fails |
| SizeClassMap.WasteBound | src/rt/sanitizer_common/sanitizer_allocator_size_class_map.h:20-27 | Above the mid size less than one part in 2^(kNumBits-1) of the request is wasted |
| SizeClassMap.ClassSizeKeepsAlignment | src/rt/sanitizer_common/sanitizer_allocator_size_class_map.h:145-168 | A size that is a multiple of a power of two gets a class size that is one |
| SizeClassMap.CachedHintIsMaximal | src/rt/sanitizer_common/sanitizer_allocator_size_class_map.h:170-181 | The caching hint is the largest count within the byte budget and the cap, and never zero |
| CombinedAllocator.PrimaryChunksAreAligned | src/rt/sanitizer_common/sanitizer_allocator_combined.h:44-75 | Every chunk of the chosen class is a multiple of the requested alignment, so the CHECK cannot fail |
| CombinedAllocator.PrimaryClassFits | src/rt/sanitizer_common/sanitizer_allocator_combined.h:44-75 | A request sent to the primary gets a real class that is large enough |
| CombinedAllocator.RouteIsExact | src/rt/sanitizer_common/sanitizer_allocator_combined.h:44-75 | A request is refused exactly if size and alignment do not add up in a machine word, served by the primary from the least class holding the aligned size exactly if one does and the alignment is no larger than the largest class, and otherwise sent to the secondary with the size as asked |
| CombinedAllocator.MallocAlignment | src/rt/sanitizer_common/sanitizer_allocator_combined.h:48-62 | Without a stronger request chunks are aligned to the smallest class size |
| CombinedAllocator.FreeFindsItsClass | src/rt/sanitizer_common/sanitizer_allocator_combined.h:89-95 | A chunk is freed into the allocator and class it came from |
| PackedCounters.PackedCounterArray.constructor | src/rt/sanitizer_common/sanitizer_allocator_primary64.h:408-431 | A fresh array reads as n zeroes and has room for values up to the maximum in every counter |
| PackedCounters.PackedCounterArray.Get | src/rt/sanitizer_common/sanitizer_allocator_primary64.h:441-446 | Reads counter i of the abstract array |
| PackedCounters.PackedCounterArray.Inc | src/rt/sanitizer_common/sanitizer_allocator_primary64.h:448-453 | Adds one to counter i and to no other: nothing carries into a neighbour |
| PackedCounters.PackedCounterArray.IncRange | src/rt/sanitizer_common/sanitizer_allocator_primary64.h:455-460 | Adds one to exactly the counters of the range |
| PackedCounters.IncFieldParts | src/rt/sanitizer_common/sanitizer_allocator_primary64.h:448-453 | Adding one to a counter that is not full changes neither the bits above nor those below |
| PageRelease.FreePagesRangeTracker.NextPage | src/rt/sanitizer_common/sanitizer_allocator_primary64.h:478-488 | Keeps the released ranges maximal runs of flagged pages |
| PageRelease.FreePagesRangeTracker.Done | src/rt/sanitizer_common/sanitizer_allocator_primary64.h:490-503 | The released ranges are the maximal runs of the flags, scaled to bytes |
| PageRelease.PageShapeIsRight | src/rt/sanitizer_common/sanitizer_allocator_primary64.h:527-563 | All five branches: the number of chunks on a page, exact when it is the same for all pages, else a bound the counters hold |
| PageRelease.FastPathIffUniform | src/rt/sanitizer_common/sanitizer_allocator_primary64.h:527-563 | For all chunk and page sizes the fast path is taken exactly when every page touches the same number of chunks |
| PageGrid.WalkStepIsExact | src/rt/sanitizer_common/sanitizer_allocator_primary64.h:593-612 | The boundary walk counts the chunks overlapping each page exactly, for every chunk and page size |
| PageGrid.FullCountMeansWhollyFree | src/rt/sanitizer_common/sanitizer_allocator_primary64.h:583-615 | A page's counter reaches its number of chunks exactly when all chunks overlapping it are free |
| PageRelease.CountFreeChunks | src/rt/sanitizer_common/sanitizer_allocator_primary64.h:568-581 | The counters hold for every page the number of listed free chunks that touch it |
| PageRelease.FlagSamePages | src/rt/sanitizer_common/sanitizer_allocator_primary64.h:585-589 | Fast path: a page is flagged exactly when its counter is full |
| PageRelease.FlagWalkedPages | src/rt/sanitizer_common/sanitizer_allocator_primary64.h:590-613 | Slow path: a page is flagged exactly when its counter equals its own number of chunks |
| PageRelease.WalkPage | src/rt/sanitizer_common/sanitizer_allocator_primary64.h:597-612 | The loop body computes the step of the walk |
| PageRelease.ReleaseFreeMemoryToOS | src/rt/sanitizer_common/sanitizer_allocator_primary64.h:517-619 | Exactly the pages all of whose chunks are free are given back, as maximal ranges |
| ChunkOwnership.ChunksAreConserved | src/rt/sanitizer_common/sanitizer_allocator_local_cache.h:34-123 | At every point of every run, failures included, each carved chunk is in the free array, one cache or use, once, and the counters agree |
| ChunkOwnership.NeverHandedOutTwice | src/rt/sanitizer_common/sanitizer_allocator_local_cache.h:34-47 | The chunk malloc returns had no owner and is a chunk of the region |
| ChunkOwnership.StepKeepsInv | src/rt/sanitizer_common/sanitizer_allocator_local_cache.h:34-123 | Every allocation and free by any cache keeps ownership and counters |
| ChunkOwnership.AllocateIsExact | src/rt/sanitizer_common/sanitizer_allocator_local_cache.h:34-47 | A cache with chunks serves its top one and leaves the region alone; an empty one takes the last half maximum of the free chunks, after carving only if there are fewer, serves the top one, and fails exactly when that carving fails |
| ChunkOwnership.DeallocateIsExact | src/rt/sanitizer_common/sanitizer_allocator_local_cache.h:49-63 | A cache with room takes the chunk on top and leaves the region alone; a full one first gives its upper half back in order |
| ChunkOwnership.MallocUndoesFree | src/rt/sanitizer_common/sanitizer_allocator_local_cache.h:34-63 | The chunk freed last is handed out next, and that undoes the free |
| ChunkOwnership.DrainedIsEmpty | src/rt/sanitizer_common/sanitizer_allocator_local_cache.h:65-71 | A drained cache is empty and its chunks are the region's last free ones |
| ChunkOwnership.CarvedFromTheBottom | src/rt/sanitizer_common/sanitizer_allocator_primary64.h:836-838 | What is carved lies on the free array with the lowest address on top |
| ChunkOwnership.ReachableIsReleasable | src/rt/sanitizer_common/sanitizer_allocator_primary64.h:864-901 | The free array of every reachable region is what page release needs: distinct, in range |
| ChunkOwnership.ReleasedPageHasNoOwner | src/rt/sanitizer_common/sanitizer_allocator_primary64.h:864-901 | No released page holds a byte of a chunk in use or in a cache |
| FreeArrayBound.CheckFailsIffOverflowable | src/rt/sanitizer_common/sanitizer_allocator_primary64.h:741-756 | With every mapping granted, some run from an empty region fails the CHECK on the free array if and only if chunks are of 16 bytes and one mapping step more than the array can list fits the region with its metadata |
| FreeArrayBound.OverflowableRunDies | src/rt/sanitizer_common/sanitizer_allocator_primary64.h:774-857 | There the run is built: allocate until one step too many is carved, free every chunk, drain the cache |
| FreeArrayBound.OnlyTheOsKills | src/rt/sanitizer_common/sanitizer_allocator_primary64.h:774-857 | Elsewhere no operation of any run dies while the system grants the free array memory |
| FreeArrayBound.FreeArrayNeverOverflows | src/rt/sanitizer_common/sanitizer_allocator_primary64.h:774-857 | Elsewhere no population fails the CHECK, and the free array can list every chunk carved |
| FreeArrayBound.WideIsNotOverflowable | src/rt/sanitizer_common/sanitizer_allocator_primary64.h:741-756 | 28 bytes per chunk with its metadata are enough, as in CQMSan's own classes |
| FreeArrayBound.SmallestRegion | src/rt/sanitizer_common/sanitizer_allocator_primary64.h:741-756 | In the smallest legal region the CHECK can fail exactly up to six bytes of metadata per chunk |
| RegionState.PopulateEffect | src/rt/sanitizer_common/sanitizer_allocator_primary64.h:774-857 | Populating adds exactly the next chunks or, on every failure path, leaves every chunk where it was; each of the three mappings grows only if its own request was granted |
| RegionState.PopulateIsExact | src/rt/sanitizer_common/sanitizer_allocator_primary64.h:774-857 | In terms of the layout alone: where each mapping ends up, that population succeeds exactly when every request it needed was granted and fitted, dies exactly when only the free array does not fit, marks the region exhausted exactly when space ran out, and what it publishes |
| RegionState.ReturnIsExact | src/rt/sanitizer_common/sanitizer_allocator_primary64.h:174-200 | Returning succeeds exactly when the list of free chunks is mapped, or the mapping it needs fits and is granted; the process dies otherwise |
| RegionState.GetEffect | src/rt/sanitizer_common/sanitizer_allocator_primary64.h:202-232 | A request gets exactly the last n free chunks, or none; with enough free chunks it succeeds and maps nothing, otherwise it succeeds exactly when the population does |
| RegionState.ReturnEffect | src/rt/sanitizer_common/sanitizer_allocator_primary64.h:174-200 | Returned chunks are appended, or the process dies before anything changed |
| Primary64.RegionInfo.EnsureFreeArraySpace | src/rt/sanitizer_common/sanitizer_allocator_primary64.h:741-756 | Maps room for the entries, or dies beyond the array's share of the region |
| Primary64.RegionInfo.IsRegionExhausted | src/rt/sanitizer_common/sanitizer_allocator_primary64.h:759-772 | Tells and remembers whether more memory fits |
| Primary64.RegionInfo.PopulateFreeArray | src/rt/sanitizer_common/sanitizer_allocator_primary64.h:774-857 | The fields end up as PopulateIsExact says; each mapping grows only if its request was granted, and on failure the free chunks stay |
| Primary64.RegionInfo.GetFromAllocator | src/rt/sanitizer_common/sanitizer_allocator_primary64.h:202-232 | Copies out the last n entries and updates the counters |
| Primary64.RegionInfo.ReturnToAllocator | src/rt/sanitizer_common/sanitizer_allocator_primary64.h:174-200 | Appends the entries and updates the counters |
| Primary64.RegionInfo.MaybeReleaseToOS | src/rt/sanitizer_common/sanitizer_allocator_primary64.h:864-901 | Gives back exactly the wholly free pages whenever it is due, a page of bytes is free and a page of bytes was freed since the last release that gave anything back, and nothing otherwise; the books change exactly when something went back |
| Primary64.PerClass.Refill | src/rt/sanitizer_common/sanitizer_allocator_local_cache.h:99-108 | Fills an empty cache with half its maximum, or fails without a change to it |
| Primary64.PerClass.Allocate | src/rt/sanitizer_common/sanitizer_allocator_local_cache.h:34-47 | Pops a chunk, refilling first if needed |
| Primary64.PerClass.Drain | src/rt/sanitizer_common/sanitizer_allocator_local_cache.h:116-123 | Returns the last entries of the cache and keeps the others |
| Primary64.PerClass.Deallocate | src/rt/sanitizer_common/sanitizer_allocator_local_cache.h:49-63 | Pushes a chunk, draining half first if full |
| RegionLayout.AddressDecodes | src/rt/sanitizer_common/sanitizer_allocator_primary64.h:241-258 | Class, region and chunk index of an address are where it lies, with either form of the computation |
| RegionLayout.BlockBeginInsideChunk | src/rt/sanitizer_common/sanitizer_allocator_primary64.h:260-273 | Every address in a mapped chunk leads to the chunk's start |
| RegionLayout.BlockBeginOutsideUser | src/rt/sanitizer_common/sanitizer_allocator_primary64.h:260-273 | Every address past the user memory, metadata included, leads to none |
| RegionLayout.MetadataSlot | src/rt/sanitizer_common/sanitizer_allocator_primary64.h:282-292 | A carved chunk's metadata is the slot of its index below the free array, and mapped |
| RegionLayout.RegionPartsAreDisjoint | src/rt/sanitizer_common/sanitizer_allocator_primary64.h:692-700 | User chunks, metadata slots and the free array of a reachable region never meet |
| RegionLayout.RegionsAreDisjoint | src/rt/sanitizer_common/sanitizer_allocator_primary64.h:692-700 | The chunks, slots and free array of a lower class end before anything of a higher class begins |
| RegionLayout.MetadataIsInjective | src/rt/sanitizer_common/sanitizer_allocator_primary64.h:282-292 | Two chunks of the space, of one class or of two, share metadata only if they are the same chunk; slots do not overlap |
| RegionLayout.CompactPointersRoundTrip | src/rt/sanitizer_common/sanitizer_allocator_primary64.h:100-109 | Chunk addresses survive compaction to 32 bits |
| RegionLayout.PointerIsMineIsRange | src/rt/sanitizer_common/sanitizer_allocator_primary64.h:234-239 | The shortcut for constant starts is the range test |
| RegionLayout.ConstantStartMustBeAligned | src/rt/sanitizer_common/sanitizer_allocator_primary64.h:241-258 | With a constant start the code finds a region's first byte if and only if the start is aligned to the region size |
| Primary32.InUseNowhereElse | src/rt/sanitizer_common/sanitizer_allocator_primary32.h:316-377 | In every state the methods keep, a chunk in use is in use once and on no list and in no cache |
| Primary32.BatchFitsItsHost | src/rt/sanitizer_common/sanitizer_allocator_primary32.h:76-108 | A batch never overruns the chunk it is stored in, its own or one of the batch class |
| Primary32.BatchClassIsLast | src/rt/sanitizer_common/sanitizer_allocator_local_cache.h:216-239 | The batch class needs no batch class itself and comes after every class it serves |
| Primary32.BatchClassIsNeeded | src/rt/sanitizer_common/sanitizer_allocator_local_cache.h:216-239 | A class is served by another only if its chunks cannot hold its batches, and then by the smallest class that holds a whole one; with a separate batch class that one alone hosts its own |
| Primary32.CapacitiesAreMaximal | src/rt/sanitizer_common/sanitizer_allocator_primary32.h:341-377 | A region holds as many chunks with their metadata as fit, and a batch as many as the caching hint and its own size allow |
| Primary32.Allocator.CutShortIffRefusedLater | src/rt/sanitizer_common/sanitizer_allocator_primary32.h:341-377 | A population loses chunks if and only if its own region is granted and one of the regions its batch class then needs is refused, all known before the call |
| Primary32.LosesChunks | src/rt/sanitizer_common/sanitizer_allocator_primary32.h:316-377 | An allocator of any class with a separate batch class in which that happens: chunks of the new region are lost for good |
| Primary32.Allocator.Run | src/rt/sanitizer_common/sanitizer_allocator_local_cache.h:138-271 | After any sequence of calls by any caches: what was handed out and not freed is in use, once each, and nothing is lost if every region asked for was granted |
| Primary32.Allocator.Allocate | src/rt/sanitizer_common/sanitizer_allocator_local_cache.h:159-172 | Hands out the top of the cache, refilled from the first batch if empty, and moves no other chunk out of the allocator; fails exactly without chunks, batches and a completed population, and loses chunks exactly when one is cut short; the recursion ends |
| Primary32.Allocator.Deallocate | src/rt/sanitizer_common/sanitizer_allocator_local_cache.h:174-185 | Pushes the chunk on the cache, drained first if full, or dies in Drain having changed no ownership; never for classes that host their own batches |
| Primary32.Allocator.Refill | src/rt/sanitizer_common/sanitizer_allocator_local_cache.h:241-252 | The first batch's chunks move into the empty cache and its host, if separate, is freed; fails or loses chunks only as a population does |
| Primary32.Allocator.Drain | src/rt/sanitizer_common/sanitizer_allocator_local_cache.h:254-270 | The top half of a cache becomes the first batch of the list, stored in its first chunk or in a batch-class chunk |
| Primary32.Allocator.CreateBatch | src/rt/sanitizer_common/sanitizer_allocator_local_cache.h:138-144 | The new batch's chunk: the given one, or a fresh chunk of the batch class |
| Primary32.Allocator.DestroyBatch | src/rt/sanitizer_common/sanitizer_allocator_local_cache.h:146-151 | Frees a separate host, which cannot fail |
| Primary32.Allocator.AllocateBatch | src/rt/sanitizer_common/sanitizer_allocator_primary32.h:168-181 | Takes the first batch of the class, populating the list first if it is empty; fails exactly if that fails |
| Primary32.Allocator.PushFront | src/rt/sanitizer_common/sanitizer_allocator_primary32.h:183-190 | Returns a batch to the front of its list |
| Primary32.Allocator.PopulateBatches | src/rt/sanitizer_common/sanitizer_allocator_primary32.h:316-339 | On success lists every pointer once in full batches and one under way and loses none; on failure drops exactly the pointers from some position on |
| Primary32.Allocator.PopulateFreeList | src/rt/sanitizer_common/sanitizer_allocator_primary32.h:341-377 | Lists a new region in batches that are full but for the last; succeeds exactly if the region is granted and the batch class can serve all its batches, and loses chunks, the region's last ones, exactly if the first holds and the second does not |
| Primary32.Allocator.DrainCache | src/rt/sanitizer_common/sanitizer_allocator_local_cache.h:187-193 | Leaves the cache empty although draining small classes refills the batch class |
| LargeMmap.OverflowCheckIsExact | src/rt/sanitizer_common/sanitizer_allocator_secondary.h:85-96 | The test on the map size catches every wrap-around and nothing else |
| LargeMmap.PlacementIsAlignedAndFits | src/rt/sanitizer_common/sanitizer_allocator_secondary.h:97-112 | The block is aligned as requested and lies with its header inside the mapping |
| LargeMmap.LargeMmapAllocator.Allocate | src/rt/sanitizer_common/sanitizer_allocator_secondary.h:85-132 | Fails exactly if the size wraps or nothing is mapped, changing nothing; otherwise registers an aligned block inside its mapping, with its place in the array as index, and the counters follow |
| LargeMmap.LargeMmapAllocator.Deallocate | src/rt/sanitizer_common/sanitizer_allocator_secondary.h:134-151 | Removes exactly that header by swapping in the last; all indices stay right |
| LargeMmap.LargeMmapAllocator.GetBlockBegin | src/rt/sanitizer_common/sanitizer_allocator_secondary.h:182-205 | Returns the user address of the unique mapping whose header-to-end range holds the pointer, or none |
| LargeMmap.LargeMmapAllocator.GetBlockBeginFastLocked | src/rt/sanitizer_common/sanitizer_allocator_secondary.h:218-253 | The binary search returns the same |
| LargeMmap.LargeMmapAllocator.EnsureSortedChunks | src/rt/sanitizer_common/sanitizer_allocator_secondary.h:207-216 | Sorts the headers by address and renumbers them |
| LargeMmap.LargeMmapAllocator.LowerBound | src/rt/sanitizer_common/sanitizer_allocator_secondary.h:227-246 | Finds the last header at or below the pointer |
| LargeMmap.AnswerIsUnique | src/rt/sanitizer_common/sanitizer_allocator_secondary.h:182-253 | Both lookups give the same answer for every pointer |
| LargeMmap.NearestDecides | src/rt/sanitizer_common/sanitizer_allocator_secondary.h:182-205 | If the pointer is past the nearest header's mapping it is in none |
| HeapSort.Sort | src/rt/sanitizer_common/sanitizer_common.h:675-707 | The heap sort returns a sorted permutation |
| AddrHashMap.HandleStepKeeps | src/rt/sanitizer_common/sanitizer_addrhashmap.h:203-382 | Every step keeps the bucket in order and changes the map it stands for only where the publishing or removing store does, not while a slot moves |
| AddrHashMap.StepKeepsInv | src/rt/sanitizer_common/sanitizer_addrhashmap.h:203-382 | The invariant holds over all interleavings of any number of handles |
| AddrHashMap.InvAlways | src/rt/sanitizer_common/sanitizer_addrhashmap.h:203-382 | Every state of every run from a zeroed bucket satisfies it |
| AddrHashMap.PresentKeyIsFound | src/rt/sanitizer_common/sanitizer_addrhashmap.h:203-331 | acquire of a key present during the whole call neither returns null nor creates it again, and the place it returns holds the key |
| AddrHashMap.AcquireStep | src/rt/sanitizer_common/sanitizer_addrhashmap.h:203-331 | A null result or creation is decided only while the key is absent; a find returns a place holding the key |
| AddrHashMap.RecheckDecides | src/rt/sanitizer_common/sanitizer_addrhashmap.h:244-331 | The decision under the lock, in terms of the map: a present key goes to a remover and sends others back to the search; an absent one is created exactly if that was asked for and removal was not, in an embedded cell if one is free, and is answered with null otherwise, with the lock given back |
| AddrHashMap.ReturnedCallWasServed | src/rt/sanitizer_common/sanitizer_addrhashmap.h:203-382 | In every run a call that returned was served in one of its own steps: it created its absent key, only if it was to create and not to remove; it removed its present key, only if it was to remove; it found its key; or its key was absent and it was not to create it |
| AddrHashMap.CallAlone | src/rt/sanitizer_common/sanitizer_addrhashmap.h:203-382 | From any acquiring step of any reachable state in which nobody else has the lock, the call finishes when it runs alone, leaves the lock free and every other key as it was, and its key in the map exactly when it was not to remove it and either found it or was to create it |
| AddrHashMap.WaitsForOwners | src/rt/sanitizer_common/sanitizer_addrhashmap.h:203-382 | A call that cannot go on waits for the write lock of another, or for the lock to be free |
| AddrHashMap.NoDeadlock | src/rt/sanitizer_common/sanitizer_addrhashmap.h:203-382 | In every reachable state with an unfinished call some unfinished call can take a step |
| AddrHashMap.EmbeddedKeyNeedsNoLock | src/rt/sanitizer_common/sanitizer_addrhashmap.h:218-233 | In every run a call that is not to remove a key held by an embedded cell neither takes nor waits for the lock while the key stays there |
| AddrHashMap.OpenHandleKeepsItsCell | src/rt/sanitizer_common/sanitizer_addrhashmap.h:333-382 | An open handle's cell holds its key until its release if nobody else removes that key |
| AddrHashMap.QuietBucket | src/rt/sanitizer_common/sanitizer_addrhashmap.h:333-382 | In every state of every run without a writer keys are unique, and a non-empty add array means full embedded cells |
| AddrHashMap.LockFollowsHandle | src/rt/sanitizer_common/sanitizer_addrhashmap.h:203-382 | A handle owns the lock exactly in the phases that keep it; nobody else's step changes that |
| AddrHashMap.ReleaseUndoesAcquire | src/rt/sanitizer_common/sanitizer_addrhashmap.h:333-382 | The last step of release gives back the lock acquire kept and nothing else |
| AddrHashMap.ReserveSlot | src/rt/sanitizer_common/sanitizer_addrhashmap.h:302-331 | The new slot is free, as the code checks, also after the array grew |
| AddrHashMap.FirstCapacityFits | src/rt/sanitizer_common/sanitizer_addrhashmap.h:303-311 | The first add array stays inside its 64 bytes |
| AddrHashMap.GrownCapacityFits | src/rt/sanitizer_common/sanitizer_addrhashmap.h:312-324 | A grown array has more cells and stays inside the doubled allocation |
| AddrHashMap.ReadersFreezeTheBucket | src/rt/sanitizer_common/sanitizer_addrhashmap.h:112-137 | Under the read lock no step changes the bucket |
| AddrHashMap.ForEach | src/rt/sanitizer_common/sanitizer_addrhashmap.h:112-137 | The callback sees exactly the elements of the map |
| PoisonReuse.ReuseRefinesRepoisoning | src/rt/cqmsan/cqmsan_allocator.cpp:567-574 | Over every run, with any setting of the other flags, the whole shadow is byte for byte what it is when malloc always poisons the whole block |
| PoisonReuse.StepKeepsInv | src/rt/cqmsan/cqmsan_allocator.cpp:511-651 | The recorded part of every free primary chunk stays poisoned |
| PoisonReuse.FreshBlock | src/rt/cqmsan/cqmsan_allocator.cpp:511-584 | A malloced block is poisoned all over, a callocated one clean, without the flag nothing changes; the metadata is exact, nothing outside the requested bytes and no other block changes |
| PoisonReuse.FreedBlock | src/rt/cqmsan/cqmsan_allocator.cpp:586-615 | With poison_in_free a freed primary block is poisoned over exactly the requested bytes, which is what is recorded; without it the shadow stays and nothing is recorded; a secondary block reads clean all over and its record is gone; no other block changes |
| PoisonReuse.FreedStaysPoisoned | src/rt/cqmsan/cqmsan_allocator.cpp:586-615 | In every run a block freed under poison_in_free stays poisoned until its chunk is handed out again, whatever else happens |
| PoisonReuse.ResizedBlock | src/rt/cqmsan/cqmsan_allocator.cpp:628-643 | Resizing in place keeps the common part and poisons what is new, nothing else |
| PoisonReuse.MovedBlock | src/rt/cqmsan/cqmsan_allocator.cpp:644-650 | Moving carries the common part's shadow over and poisons the rest, frees the old block as free does and leaves third blocks alone |
| PoisonReuse.DanglingStoreMattersIff | src/rt/cqmsan/cqmsan_allocator.cpp:567-574 | A store into a freed chunk changes what the next malloc of it makes if and only if it leaves a byte that is not poison in the recorded part within the new size |
| PoisonReuse.DanglingStoreBreaksReuse | src/rt/cqmsan/cqmsan_allocator.cpp:567-574 | A store into a freed chunk makes the next block of it start out partly clean |
| PoisonReuse.Runtime.SetShadow | src/rt/cqmsan/cqmsan_poisoning.cpp:210-240 | With or without remapping pages, exactly the range gets the value |
| PoisonReuse.Runtime.CQMsanAllocate | src/rt/cqmsan/cqmsan_allocator.cpp:511-584 | Shadow and metadata after malloc and calloc |
| PoisonReuse.Runtime.CQMsanDeallocate | src/rt/cqmsan/cqmsan_allocator.cpp:586-615 | Shadow and metadata after free, for both allocators |
| PoisonReuse.Runtime.CQMsanRealloc | src/rt/cqmsan/cqmsan_allocator.cpp:763-771 | Shadow and metadata after realloc: freed, in place or moved |
| Novelty.ClearSentinelMeansAgreement | src/aflpp/src/afl-fuzz-run.c:349-398 | In every run a clear sentinel means both maps agree on the four tracked bits below it |
| Novelty.FiredSiteIsFolded | src/rt/cqmsan/cqmsan.cpp:461-515 | Every fired site, recorded or skipped as known, is in the fuzzer's map after its next check unless its index is the sentinel's |
| Novelty.SiteIsRecordedIffBelowSentinel | src/rt/cqmsan/cqmsan.cpp:461-534 | A site not recorded so far is recorded by the check after its firing, with or without a stack, if and only if its index is not the sentinel's |
| Novelty.SentinelSiteIsLost | src/rt/cqmsan/cqmsan.cpp:461-534 | With maps of any size there is a first firing on the sentinel's index that teaches the fuzzer nothing and never reaches the detector |
| Novelty.TriggersOnce | src/aflpp/src/afl-fuzz-run.c:104-262 | No pair of index and bit triggers the accurate detector twice |
| Novelty.RunsAreBounded | src/aflpp/src/afl-fuzz-run.c:370-398 | The accurate detector runs at most four times per map byte below the sentinel, and the counters count the bits of the map |
| Novelty.AskedForNovelty | src/aflpp/src/afl-fuzz-run.c:349-398 | A check asks the detector exactly when some pair is new, and counts a crash exactly when it asked and the answer was yes |
| Novelty.CheckSettles | src/aflpp/src/afl-fuzz-run.c:349-398 | After a check the sentinel is clear and another check changes nothing |
| Novelty.FiringIsRemembered | src/rt/cqmsan/cqmsan.cpp:461-534 | A firing that is recorded sets the sentinel and becomes what the next firing is paired with; a known one changes nothing |
| Novelty.ConsecutiveFiringsMarkTheirEdge | src/rt/cqmsan/cqmsan.cpp:461-515 | In every run, for each two recorded firings of an execution that follow one another the edge of their two sites is marked, and with stacks that of their two hashes |
| Novelty.KnownSiteIsSilent | src/rt/cqmsan/cqmsan.cpp:545-548 | With the shortcut every later firing of a site below the sentinel, in any execution of the session, changes nothing |
| Novelty.StackHashBit | src/rt/cqmsan/cqmsan.cpp:466-473 | Each bit of the stack hash is the parity of that bit over the frames |
| Novelty.Session.CheckMsanTrace | src/aflpp/src/afl-fuzz-run.c:104-262 | With both shortcuts the loop folds every tracked bit and reports whether one was new |
| Novelty.Session.CheckBugs | src/aflpp/src/afl-fuzz-run.c:333-406 | The check's effect on both maps and all counters |
| Novelty.Session.WarningFast | src/rt/cqmsan/cqmsan.cpp:700-715 | A firing's four marks, the sentinel and the remembered edges, or nothing for a known site |
| Novelty.Session.WarningFastPcOnly | src/rt/cqmsan/cqmsan.cpp:717-727 | The same without call stacks |
| Novelty.UpdateMapAt | src/rt/cqmsan/cqmsan.cpp:461-515 | Below the sentinel exactly four bits are added |
| StatsRing.ReportIsNet | src/rt/sanitizer_common/sanitizer_allocator_stats.h:76-90 | After any history what Get reports is exactly all Adds minus all Subs, or zero if that is negative |
| StatsRing.UnregisterKeepsTotals | src/rt/sanitizer_common/sanitizer_allocator_stats.h:68-74 | A leaving thread changes no total |
| StatsRing.MembersAfter | src/rt/sanitizer_common/sanitizer_allocator_stats.h:59-74 | Registering puts exactly its node on the list, unregistering takes exactly its own off, counting moves nobody |
| StatsRing.OthersKeepCounters | src/rt/sanitizer_common/sanitizer_allocator_stats.h:29-74 | Every operation leaves the counters of all other nodes alone, but for the head's when a node leaves |
| StatsRing.AllocatorGlobalStats.Register | src/rt/sanitizer_common/sanitizer_allocator_stats.h:59-66 | The node stands behind the head of a well-formed ring |
| StatsRing.AllocatorGlobalStats.Unregister | src/rt/sanitizer_common/sanitizer_allocator_stats.h:68-74 | The node is out of the ring and its counters are in the head's |
| StatsRing.AllocatorGlobalStats.Get | src/rt/sanitizer_common/sanitizer_allocator_stats.h:76-90 | One walk around the ring adds up every node once |

## Left out

- The pass's variant with inverted shadow (`CQMSAN_FLIP_CONVENTION`), loop accumulation of checks, sinks past barriers and the ablation flags; the default configuration is modelled, and reports return to the program.
- LLVM plumbing, varargs, masked intrinsics, vector and aggregate shadows: a shadow is a flag, or flags per byte in the undef slice.
- Coalescing.SitesOk: a site's late shadow is taken to be in the site's own block, as the pass places it right behind its load, so a split by another essential check in between is not modelled.
- Coalescing.WarningsAreExact: where earlier checks have split the anchor's block is an arbitrary parameter.
- SinkDeferral.FindSinkFor: the innermost loop of a block and post-dominance are inputs; post-dominance is required to be right but not complete, and the loop table to be right where loops are spoken of.
- ReturnDeferral.DroppedCheckIsRedundant: a shadow operand that was never computed reads as clean, which does not happen in SSA form; a run stops at its return.
- UndefSlice.UndefDoesNotLeak: freeze is not in the language, since it turns undef into an arbitrary clean value; calls with arguments that may be undefined are not in it either, and every return is checked; ReturnDeferral says when dropping such a check loses a report. The runs are compared up to the first load that finds poison: its check may stand at a later anchor or sink, which Coalescing and SinkDeferral are about, and what happens in between is not compared.
- ReturnFilter.SearchIsExact: operands of unsized type, which the search skips, do not occur.
- RegionState.PopulateEffect: one size class; classes have separate regions and do not interact. Sums that stay far below 2^64 are not wrapped.
- Primary64.RegionInfo.MaybeReleaseToOS: the release interval is an arbitrary flag.
- FreeArrayBound.CheckFailsIffOverflowable: half a cache fits one mapping step of user memory, as with every caching limit up to 2^18 bytes.
- Random shuffling of chunks, statistics other than the counters of the ring, and the mapping callbacks.
- Primary32.Allocator.Allocate: caches count as initialised from the start, which InitCache does before their first use; regions are numbered rather than addressed, and the region byte map is not part of this model.
- AddrHashMap.StepKeepsInv: one bucket, since a key never leaves its bucket; memory orders are sequentially consistent; address 0 is never a key, as it marks free cells; a lock is granted when it is free.
- PoisonReuse.Runtime.CQMsanRealloc: application memory itself, origins, hooks and failed allocations, which change nothing; realloc of a null pointer is malloc; the mapping around a secondary block is the block.
- The glibc allocation path of the runtime.
- LargeMmap.LargeMmapAllocator.Allocate: mmap returns fresh page-aligned mappings; the array of headers does not overflow.
- Novelty.Session.CheckBugs: updates of the shared map are atomic, the accurate detector's answer is an input, and the other build modes of the fuzzer are not modelled.
- libc interceptors, reports, unwinding, flags, start-up mappings, interception code and the rest of the fuzzer.
