/** Giving whole free pages back to the OS (sanitizer_allocator_primary64.h: MemoryMapper,
    FreePagesRangeTracker, ReleaseFreeMemoryToOS). Compact pointers count 16-byte units. */
module PageRelease {
  import opened Arith
  import opened PageGrid
  import opened PackedCounters

  const COMPACT_PTR_SCALE := 4

  /** The record of what was released, with the counters `MaybeReleaseToOS` reads. */
  class MemoryMapper {
    var ranges: seq<(nat, nat)>  // [from, to) compact pointers handed to the OS
    var releasedRangesCount: nat
    var releasedBytes: nat

    constructor ()
      ensures ranges == [] && releasedRangesCount == 0 && releasedBytes == 0
    {
      ranges, releasedRangesCount, releasedBytes := [], 0, 0;
    }

    method ReleasePageRangeToOS(from: nat, to: nat)
      requires from <= to
      modifies this
      ensures ranges == old(ranges) + [(from, to)]
      ensures releasedRangesCount == old(releasedRangesCount) + 1
      ensures releasedBytes == old(releasedBytes) + Shl(to - from, COMPACT_PTR_SCALE)
    {
      ranges := ranges + [(from, to)];
      releasedRangesCount := releasedRangesCount + 1;
      releasedBytes := releasedBytes + Shl(to - from, COMPACT_PTR_SCALE);
    }

    method GetAndResetStats() returns (any: bool, rangeCount: nat, bytes: nat)
      modifies this`releasedRangesCount, this`releasedBytes
      ensures any <==> old(releasedRangesCount) != 0
      ensures rangeCount == old(releasedRangesCount) && bytes == old(releasedBytes)
      ensures releasedRangesCount == 0 && releasedBytes == 0
    {
      rangeCount, bytes := releasedRangesCount, releasedBytes;
      releasedRangesCount, releasedBytes := 0, 0;
      any := rangeCount != 0;
    }
  }

  // Runs of flagged pages.

  ghost predicate InSomeRun(runs: seq<(nat, nat)>, p: nat) {
    exists k :: 0 <= k < |runs| && runs[k].0 <= p < runs[k].1
  }

  ghost predicate RunIsMaximal(run: (nat, nat), flags: seq<bool>) {
    && run.0 < run.1 <= |flags|
    && (forall p :: run.0 <= p < run.1 ==> flags[p])
    && (run.0 > 0 ==> !flags[run.0 - 1])
    && (run.1 < |flags| ==> !flags[run.1])
  }

  /** Disjoint ordered maximal runs that cover exactly the flagged pages below `limit`. */
  ghost predicate RunsBelow(runs: seq<(nat, nat)>, flags: seq<bool>, limit: nat) {
    && limit <= |flags|
    && (forall k :: 0 <= k < |runs| ==> RunIsMaximal(runs[k], flags) && runs[k].1 <= limit)
    && (forall k :: 0 < k < |runs| ==> runs[k - 1].1 < runs[k].0)
    && (forall p :: 0 <= p < limit && flags[p] ==> InSomeRun(runs, p))
  }

  ghost predicate MaximalRuns(runs: seq<(nat, nat)>, flags: seq<bool>) {
    RunsBelow(runs, flags, |flags|)
  }

  ghost function Scaled(runs: seq<(nat, nat)>, log: nat): (s: seq<(nat, nat)>)
    ensures |s| == |runs|
  {
    seq(|runs|, k requires 0 <= k < |runs| => (Shl(runs[k].0, log), Shl(runs[k].1, log)))
  }

  class FreePagesRangeTracker {
    const mapper: MemoryMapper
    const pageSizeScaledLog: nat
    var inTheRange: bool
    var currentPage: nat
    var currentRangeStartPage: nat
    ghost var flags: seq<bool>       // what NextPage has been told
    ghost var runs: seq<(nat, nat)>  // what has been released, in pages
    ghost const before: seq<(nat, nat)>
    ghost const countBefore: nat

    ghost predicate Valid()
      reads this, mapper
    {
      && currentPage == |flags|
      && mapper.ranges == before + Scaled(runs, pageSizeScaledLog)
      && mapper.releasedRangesCount == countBefore + |runs|
      && (if inTheRange then
            && currentRangeStartPage < currentPage
            && RunsBelow(runs, flags, currentRangeStartPage)
            && (forall k :: 0 <= k < |runs| ==> runs[k].1 < currentRangeStartPage)
            && (forall p :: currentRangeStartPage <= p < currentPage ==> flags[p])
            && (currentRangeStartPage > 0 ==> !flags[currentRangeStartPage - 1])
          else
            && RunsBelow(runs, flags, currentPage)
            && (forall k :: 0 <= k < |runs| ==> runs[k].1 < currentPage))
    }

    constructor (mapper: MemoryMapper, pageSizeScaledLog: nat)
      ensures Valid() && flags == [] && runs == []
      ensures this.mapper == mapper && this.pageSizeScaledLog == pageSizeScaledLog
      ensures before == mapper.ranges && countBefore == mapper.releasedRangesCount
    {
      this.mapper, this.pageSizeScaledLog := mapper, pageSizeScaledLog;
      inTheRange, currentPage, currentRangeStartPage := false, 0, 0;
      flags, runs, before, countBefore := [], [], mapper.ranges, mapper.releasedRangesCount;
    }

    method NextPage(freed: bool)
      requires Valid()
      modifies this, mapper
      ensures Valid() && flags == old(flags) + [freed]
    {
      if freed {
        if !inTheRange {
          currentRangeStartPage := currentPage;
          inTheRange := true;
        }
        PushFlag(runs, flags, currentRangeStartPage, true);
        flags := flags + [true];
      } else {
        CloseOpenedRange();
        PushFlag(runs, flags, currentPage, false);
        flags := flags + [false];
      }
      currentPage := currentPage + 1;
    }

    method Done()
      requires Valid()
      modifies this, mapper
      ensures flags == old(flags) && MaximalRuns(runs, flags)
      ensures mapper.ranges == before + Scaled(runs, pageSizeScaledLog)
      ensures mapper.releasedRangesCount == countBefore + |runs|
    {
      CloseOpenedRange();
    }

    method CloseOpenedRange()
      requires Valid()
      modifies this, mapper
      ensures flags == old(flags) && currentPage == old(currentPage) && !inTheRange
      ensures MaximalRuns(runs, flags)
      ensures mapper.ranges == before + Scaled(runs, pageSizeScaledLog)
      ensures mapper.releasedRangesCount == countBefore + |runs|
    {
      if inTheRange {
        mapper.ReleasePageRangeToOS(ShlOrdered(currentRangeStartPage, currentPage, pageSizeScaledLog),
                                    Shl(currentPage, pageSizeScaledLog));
        inTheRange := false;
        ghost var run := (currentRangeStartPage, currentPage);
        AddRun(runs, flags, run);
        runs := runs + [run];
      }
    }
  }

  function ShlOrdered(x: nat, y: nat, k: nat): (r: nat)
    requires x <= y
    ensures r == Shl(x, k) <= Shl(y, k)
  {
    ShlMono(x, y, k);
    Shl(x, k)
  }

  /** Hearing about one more page keeps the closed runs maximal, if they already ended
      before it or it is not flagged. */
  lemma PushFlag(runs: seq<(nat, nat)>, flags: seq<bool>, limit: nat, flag: bool)
    requires RunsBelow(runs, flags, limit)
    requires flag ==> forall k :: 0 <= k < |runs| ==> runs[k].1 < |flags|
    requires !flag ==> limit == |flags|
    ensures RunsBelow(runs, flags + [flag], if flag then limit else limit + 1)
  {
  }

  lemma AddRun(runs: seq<(nat, nat)>, flags: seq<bool>, run: (nat, nat))
    requires RunsBelow(runs, flags, run.0) && run.1 == |flags| && run.0 < run.1
    requires forall k :: 0 <= k < |runs| ==> runs[k].1 < run.0
    requires forall p :: run.0 <= p < run.1 ==> flags[p]
    requires run.0 > 0 ==> !flags[run.0 - 1]
    ensures MaximalRuns(runs + [run], flags)
  {
    var all := runs + [run];
    forall p | 0 <= p < |flags| && flags[p] ensures InSomeRun(all, p) {
      if p < run.0 {
        var k :| 0 <= k < |runs| && runs[k].0 <= p < runs[k].1;
        assert all[k] == runs[k];
      } else {
        assert all[|runs|] == run;
      }
    }
  }

  // The release itself.

  /** The five chunk/page shapes of the source: an upper bound for the chunks on a page and
      whether every page has exactly that many. */
  function PageShape(chunkSize: nat, pageSize: nat): (nat, bool)
    requires chunkSize > 0 && pageSize > 0
  {
    if chunkSize <= pageSize && Rem(pageSize, chunkSize) == 0 then (Quot(pageSize, chunkSize), true)
    else if chunkSize <= pageSize && Rem(chunkSize, Rem(pageSize, chunkSize)) == 0 then
      (Quot(pageSize, chunkSize) + 1, true)
    else if chunkSize <= pageSize then (Quot(pageSize, chunkSize) + 2, false)
    else if Rem(chunkSize, pageSize) == 0 then (1, true)
    else (2, false)
  }

  /** The shape is right for every page: an exact count on the fast path, a bound otherwise. */
  lemma PageShapeIsRight(p: nat, cs: nat, ps: nat)
    requires cs > 0 && ps > 0
    ensures var (max, same) := PageShape(cs, ps);
      && (if same then ChunksOn(p, cs, ps) == max else ChunksOn(p, cs, ps) <= max)
      && max > 0 && (!same ==> cs != ps)
  {
    if cs <= ps && Rem(ps, cs) == 0 {
      EvenlyDividedPage(p, cs, ps);
    } else if cs <= ps && Rem(cs, Rem(ps, cs)) == 0 {
      RemainderDividesChunk(p, cs, ps);
    } else if cs <= ps {
      SlowPathBound(p, cs, ps);
    } else if Rem(cs, ps) == 0 {
      ChunkIsWholePages(p, cs, ps);
    } else {
      SlowPathBound(p, cs, ps);
    }
  }

  /** The walk is spared exactly where it is not needed: all pages hold the same number of chunks. */
  lemma FastPathIffUniform(cs: nat, ps: nat)
    requires cs > 0 && ps > 0
    ensures PageShape(cs, ps).1 <==> forall p: nat :: ChunksOn(p, cs, ps) == ChunksOn(0, cs, ps)
  {
    if PageShape(cs, ps).1 {
      forall p: nat ensures ChunksOn(p, cs, ps) == ChunksOn(0, cs, ps) {
        PageShapeIsRight(p, cs, ps);
        PageShapeIsRight(0, cs, ps);
      }
    } else {
      var k := UnevenPages(cs, ps);
    }
  }

  /** The source classifies in bytes and walks in 16-byte units; the shape is the same. */
  lemma PageShapeScales(cs: nat, ps: nat)
    requires cs > 0 && ps > 0
    ensures PageShape(16 * cs, 16 * ps) == PageShape(cs, ps)
  {
    QuotScales(ps, cs);
    if Rem(ps, cs) != 0 { QuotScales(cs, Rem(ps, cs)); }
    QuotScales(cs, ps);
  }

  lemma {:induction false} QuotScales(a: nat, b: nat)
    requires b > 0
    ensures Rem(16 * a, 16 * b) == 16 * Rem(a, b) && Quot(16 * a, 16 * b) == Quot(a, b)
    decreases a
  {
    if a >= b { QuotScales(a - b, b); }
  }

  /** What a release looks at: a free list of distinct chunk offsets inside the first
      `pages` pages. */
  ghost predicate Releasable(free: seq<nat>, pages: nat, cs: nat, ps: nat) {
    && cs > 0 && ps > 0 && pages > 0
    && PageShape(cs, ps).0 < WordRange(WORD_LOG)
    && DistinctOffsets(free, cs)
    && forall i :: 0 <= i < |free| ==> free[i] + cs <= Product(pages, ps)
  }

  /** Counts one free chunk on the pages it touches: one increment when chunks cannot cross
      pages, a range of them otherwise. */
  method CountChunk(f: nat, cs: nat, psLog: nat, onePage: bool, counters: PackedCounterArray)
    requires cs > 0 && Rem(f, cs) == 0
    requires onePage ==> cs <= Pow2(psLog) && Rem(Pow2(psLog), cs) == 0
    requires counters.Valid() && Shr(f, psLog) <= Shr(f + cs - 1, psLog) < counters.n
    requires forall p :: Shr(f, psLog) <= p <= Shr(f + cs - 1, psLog) ==>
      counters.Counts()[p] + 1 < Pow2(Pow2(counters.sizeLog))
    modifies counters.buffer
    ensures counters.Valid()
    ensures forall p :: 0 <= p < counters.n ==>
      counters.Counts()[p] == old(counters.Counts()[p]) + Bit(Shr(f, psLog) <= p <= Shr(f + cs - 1, psLog))
  {
    if onePage {
      ChunkOnOnePage(f, cs, psLog);
      counters.Inc(Shr(f, psLog));
    } else {
      counters.IncRange(Shr(f, psLog), Shr(f + cs - 1, psLog));
    }
  }

  function Bit(b: bool): nat {
    if b then 1 else 0
  }

  method CountFreeChunks(freeArray: array<nat>, count: nat, pages: nat, cs: nat, psLog: nat,
                         counters: PackedCounterArray)
    requires count <= freeArray.Length
    requires Releasable(freeArray[..count], pages, cs, Pow2(psLog))
    requires freeArray != counters.buffer
    requires counters.Valid() && counters.n == pages && counters.Counts() == seq(pages, i => 0)
    requires PageShape(cs, Pow2(psLog)).0 < Pow2(Pow2(counters.sizeLog))
    modifies counters.buffer
    ensures counters.Valid()
    ensures forall p :: 0 <= p < pages ==>
      counters.Counts()[p] == FreeOn(freeArray[..count], p, cs, Pow2(psLog))
  {
    ghost var free, ps := freeArray[..count], Pow2(psLog);
    var onePage := cs <= Pow2(psLog) && Rem(Pow2(psLog), cs) == 0;
    var i := 0;
    while i < count
      invariant i <= count && counters.Valid() && freeArray[..count] == free
      invariant forall p :: 0 <= p < pages ==> counters.Counts()[p] == FreeOn(free[..i], p, cs, ps)
    {
      ghost var done, next := free[..i], free[..i + 1];
      PagesOfChunk(free, i, done, next, pages, cs, psLog);
      assert forall p :: 0 <= p < pages ==> FreeOn(done, p, cs, ps) == counters.Counts()[p];
      CountChunk(freeArray[i], cs, psLog, onePage, counters);
      i := i + 1;
    }
    assert free[..count] == free;
  }

  lemma ChunkOnOnePage(f: nat, cs: nat, psLog: nat)
    requires 0 < cs <= Pow2(psLog) && Rem(Pow2(psLog), cs) == 0 && Rem(f, cs) == 0
    ensures Shr(f + cs - 1, psLog) == Shr(f, psLog)
  {
    var ps := Pow2(psLog);
    var start, r := Shl(Shr(f, psLog), psLog), Low(f, psLog);
    HighLow(f, psLog);
    ShlIsProduct(Shr(f, psLog), psLog);
    MultipleScale(ps, Shr(f, psLog), cs);
    MultipleSub(f, start, cs);
    MultipleSub(ps, r, cs);
    ShrIs(f + cs - 1, psLog, Shr(f, psLog));
  }

  lemma CountOneMore(free: seq<nat>, i: nat, p: nat, cs: nat, psLog: nat)
    requires cs > 0 && DistinctOffsets(free, cs) && i < |free|
    ensures FreeOn(free[..i + 1], p, cs, Pow2(psLog))
         == FreeOn(free[..i], p, cs, Pow2(psLog))
            + Bit(Shr(free[i], psLog) <= p <= Shr(free[i] + cs - 1, psLog))
    ensures FreeOn(free[..i + 1], p, cs, Pow2(psLog)) <= PageShape(cs, Pow2(psLog)).0
  {
    var ps := Pow2(psLog);
    MultipleIs(free[i], cs);
    OverlapIsPageRange(Quot(free[i], cs), p, cs, ps);
    ShrIsQuot(free[i], psLog);
    ShrIsQuot(free[i] + cs - 1, psLog);
    assert free[..i + 1][..i] == free[..i];
    FullCountMeansWhollyFree(free[..i + 1], p, cs, ps);
    PageShapeIsRight(p, cs, ps);
  }

  lemma PageIndexBound(x: nat, psLog: nat, pages: nat)
    requires x < Product(pages, Pow2(psLog))
    ensures Shr(x, psLog) < pages
  {
    ShlIsProduct(pages, psLog);
    HighLow(x, psLog);
    ShlCancel(Shr(x, psLog), pages, psLog);
  }

  lemma {:induction false} ShrMono(x: nat, y: nat, k: nat)
    requires x <= y
    ensures Shr(x, k) <= Shr(y, k)
    decreases k
  {
    if k > 0 { ShrMono(x / 2, y / 2, k - 1); }
  }

  /** The i-th free chunk lies on pages inside the array, and each of them still has room
      for it in its counter. */
  lemma PagesOfChunk(free: seq<nat>, i: nat, done: seq<nat>, next: seq<nat>, pages: nat, cs: nat, psLog: nat)
    requires Releasable(free, pages, cs, Pow2(psLog)) && i < |free|
    requires done == free[..i] && next == free[..i + 1]
    ensures Shr(free[i], psLog) <= Shr(free[i] + cs - 1, psLog) < pages
    ensures forall p: nat :: (FreeOn(next, p, cs, Pow2(psLog))
      == FreeOn(done, p, cs, Pow2(psLog)) + Bit(Shr(free[i], psLog) <= p <= Shr(free[i] + cs - 1, psLog)))
    ensures forall p: nat :: FreeOn(next, p, cs, Pow2(psLog)) <= PageShape(cs, Pow2(psLog)).0
  {
    PageIndexBound(free[i] + cs - 1, psLog, pages);
    ShrMono(free[i], free[i] + cs - 1, psLog);
    forall p: nat
      ensures FreeOn(next, p, cs, Pow2(psLog))
           == FreeOn(done, p, cs, Pow2(psLog)) + Bit(Shr(free[i], psLog) <= p <= Shr(free[i] + cs - 1, psLog))
      ensures FreeOn(next, p, cs, Pow2(psLog)) <= PageShape(cs, Pow2(psLog)).0
    {
      CountOneMore(free, i, p, cs, psLog);
    }
  }

  method FlagSamePages(counters: PackedCounterArray, max: nat, tracker: FreePagesRangeTracker)
    requires counters.Valid() && tracker.Valid() && tracker.flags == []
    modifies tracker, tracker.mapper
    ensures tracker.Valid() && |tracker.flags| == counters.n
    ensures forall p :: 0 <= p < counters.n ==> (tracker.flags[p] <==> counters.Counts()[p] == max)
  {
    ghost var counts := counters.Counts();
    var i := 0;
    while i < counters.n
      invariant i <= counters.n && tracker.Valid() && |tracker.flags| == i
      invariant counters.Counts() == counts
      invariant forall p :: 0 <= p < i ==> (tracker.flags[p] <==> counts[p] == max)
    {
      var v := counters.Get(i);
      tracker.NextPage(v == max);
      i := i + 1;
    }
  }

  method FlagWalkedPages(counters: PackedCounterArray, cs: nat, ps: nat, tracker: FreePagesRangeTracker)
    requires cs > 0 && ps > 0 && cs != ps
    requires counters.Valid() && tracker.Valid() && tracker.flags == []
    modifies tracker, tracker.mapper
    ensures tracker.Valid() && |tracker.flags| == counters.n
    ensures forall p :: 0 <= p < counters.n ==>
      (tracker.flags[p] <==> counters.Counts()[p] == ChunksOn(p, cs, ps))
  {
    ghost var counts := counters.Counts();
    var prevPageBoundary, currentBoundary := 0, 0;
    var i := 0;
    CeilDivIs(0, cs, 0);
    while i < counters.n
      invariant i <= counters.n && tracker.Valid() && |tracker.flags| == i
      invariant counters.Counts() == counts
      invariant prevPageBoundary == Product(i, ps) && currentBoundary == BoundaryAt(i, cs, ps)
      invariant forall p :: 0 <= p < i ==> (tracker.flags[p] <==> counts[p] == ChunksOn(p, cs, ps))
    {
      WalkStepIsExact(i, cs, ps);
      var chunksPerPage;
      chunksPerPage, currentBoundary := WalkPage(prevPageBoundary, currentBoundary, cs, ps);
      prevPageBoundary := prevPageBoundary + ps;
      var v := counters.Get(i);
      tracker.NextPage(v == chunksPerPage);
      i := i + 1;
    }
  }

  /** The body of the boundary walk, as the source updates its two counters. */
  method WalkPage(prevPageBoundary: nat, boundary: nat, cs: nat, ps: nat)
    returns (chunksPerPage: nat, currentBoundary: nat)
    requires cs > 0
    ensures (chunksPerPage, currentBoundary) == WalkStep(boundary, prevPageBoundary, cs, ps)
  {
    var pn := if cs < ps then Quot(ps, cs) else 1;
    var pnc := Product(pn, cs);
    var pageBoundary := prevPageBoundary + ps;
    chunksPerPage, currentBoundary := pn, boundary;
    if currentBoundary < pageBoundary {
      if currentBoundary > prevPageBoundary { chunksPerPage := chunksPerPage + 1; }
      currentBoundary := currentBoundary + pnc;
      if currentBoundary < pageBoundary {
        chunksPerPage := chunksPerPage + 1;
        currentBoundary := currentBoundary + cs;
      }
    }
  }

  /** Which pages hold nothing but free chunks. */
  ghost function FreePages(free: seq<nat>, pages: nat, cs: nat, ps: nat): (flags: seq<bool>)
    ensures |flags| == pages
  {
    seq(pages, p requires 0 <= p < pages => WhollyFree(free, p, cs, ps))
  }

  lemma CountsDecide(free: seq<nat>, p: nat, cs: nat, ps: nat)
    requires cs > 0 && ps > 0 && DistinctOffsets(free, cs)
    ensures FreeOn(free, p, cs, ps) == ChunksOn(p, cs, ps) <==> WhollyFree(free, p, cs, ps)
    ensures PageShape(cs, ps).1 ==> ChunksOn(p, cs, ps) == PageShape(cs, ps).0
  {
    PageShapeIsRight(p, cs, ps);
    FullCountMeansWhollyFree(free, p, cs, ps);
  }

  /** Exactly the pages all of whose chunks are free go back to the OS, as maximal ranges. */
  method ReleaseFreeMemoryToOS(freeArray: array<nat>, count: nat, chunkSize: nat, pages: nat,
                               pageLog: nat, mapper: MemoryMapper)
    returns (ghost runs: seq<(nat, nat)>)
    requires chunkSize % 16 == 0 && pageLog >= COMPACT_PTR_SCALE && count <= freeArray.Length
    requires Releasable(freeArray[..count], pages, chunkSize / 16, Pow2(pageLog - COMPACT_PTR_SCALE))
    modifies mapper
    ensures MaximalRuns(runs,
      FreePages(freeArray[..count], pages, chunkSize / 16, Pow2(pageLog - COMPACT_PTR_SCALE)))
    ensures mapper.ranges == old(mapper.ranges) + Scaled(runs, pageLog - COMPACT_PTR_SCALE)
    ensures mapper.releasedRangesCount == old(mapper.releasedRangesCount) + |runs|
  {
    var cs, psLog := chunkSize / 16, pageLog - COMPACT_PTR_SCALE;
    var ps, pageSize := Pow2(psLog), Pow2(pageLog);
    assert pageSize == 16 * ps by { FourMoreBits(psLog); }
    PageShapeScales(cs, ps);
    PageShapeIsRight(0, cs, ps);
    var (max, same) := PageShape(chunkSize, pageSize);
    runs := CountAndRelease(freeArray, count, pages, cs, psLog, max, same, mapper);
  }

  lemma FourMoreBits(k: nat)
    ensures Pow2(k + 4) == 16 * Pow2(k)
  {
    assert Pow2(k + 2) == 4 * Pow2(k);
  }

  method CountAndRelease(freeArray: array<nat>, count: nat, pages: nat, cs: nat, psLog: nat,
                         max: nat, same: bool, mapper: MemoryMapper)
    returns (ghost runs: seq<(nat, nat)>)
    requires count <= freeArray.Length
    requires Releasable(freeArray[..count], pages, cs, Pow2(psLog))
    requires (max, same) == PageShape(cs, Pow2(psLog)) && max > 0 && (!same ==> cs != Pow2(psLog))
    modifies mapper
    ensures MaximalRuns(runs, FreePages(freeArray[..count], pages, cs, Pow2(psLog)))
    ensures mapper.ranges == old(mapper.ranges) + Scaled(runs, psLog)
    ensures mapper.releasedRangesCount == old(mapper.releasedRangesCount) + |runs|
  {
    ghost var free, ps := freeArray[..count], Pow2(psLog);
    var counters := new PackedCounterArray(pages, max);
    CountFreeChunks(freeArray, count, pages, cs, psLog, counters);
    var tracker := new FreePagesRangeTracker(mapper, psLog);
    if same {
      FlagSamePages(counters, max, tracker);
    } else {
      FlagWalkedPages(counters, cs, Pow2(psLog), tracker);
    }
    forall p: nat | p < pages ensures tracker.flags[p] <==> WhollyFree(free, p, cs, ps) {
      CountsDecide(free, p, cs, ps);
    }
    assert tracker.flags == FreePages(free, pages, cs, ps);
    tracker.Done();
    runs := tracker.runs;
  }
}
