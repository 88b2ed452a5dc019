/** One region and one per-thread cache of the 64-bit allocator as the objects they are:
    counters and arrays updated in place. Each method is proved equal to the operation on
    values that RegionState and ChunkOwnership reason about. */
module Primary64 {
  import opened Arith
  import opened RegionState
  import opened PageGrid
  import opened PageRelease
  import opened PackedCounters
  import opened Wrappers
  import Own = ChunkOwnership

  lemma FreeArrayInWords(c: Config)
    requires c.Legal()
    ensures c.FreeArraySize() % COMPACT_PTR_BYTES == 0
  {
    assert Pow2(c.regionLog - 4) == 2 * Pow2(c.regionLog - 5);
  }

  method CopyRange(src: array<nat>, from: nat, dst: array<nat>, to: nat, n: nat)
    requires from + n <= src.Length && to + n <= dst.Length && src != dst
    modifies dst
    ensures dst[to..to + n] == src[from..from + n]
    ensures dst[..to] == old(dst[..to]) && dst[to + n..] == old(dst[to + n..])
  {
    var i := 0;
    while i < n
      invariant i <= n
      invariant dst[to..to + i] == src[from..from + i]
      invariant dst[..to] == old(dst[..to]) && dst[to + n..] == old(dst[to + n..])
    {
      dst[to + i] := src[from + i];
      i := i + 1;
    }
  }

  class RegionInfo {
    const c: Config
    const freeArray: array<nat>  // the reserved eighth of the region; a prefix is mapped
    var numFreedChunks: nat
    var mappedFreeArray: nat
    var allocatedUser: nat
    var allocatedMeta: nat
    var mappedUser: nat
    var mappedMeta: nat
    var exhausted: bool
    var nAllocated: nat
    var nFreed: nat
    // release bookkeeping
    var nFreedAtLastRelease: nat
    var numReleases: nat
    var lastReleasedBytes: nat

    ghost predicate Valid()
      reads this, freeArray
    {
      && c.Legal()
      && freeArray.Length * COMPACT_PTR_BYTES == c.FreeArraySize()
      && numFreedChunks <= freeArray.Length
      && LayoutOk(c, View())
    }

    ghost function View(): Region
      requires numFreedChunks <= freeArray.Length
      reads this, freeArray
    {
      Region(freeArray[..numFreedChunks], mappedFreeArray, allocatedUser, allocatedMeta,
             mappedUser, mappedMeta, exhausted, nAllocated, nFreed)
    }

    constructor (c: Config)
      requires c.Legal()
      ensures Valid() && this.c == c && View() == FRESH && fresh(freeArray)
    {
      this.c := c;
      freeArray := new nat[c.FreeArraySize() / COMPACT_PTR_BYTES];
      numFreedChunks, mappedFreeArray, allocatedUser, allocatedMeta := 0, 0, 0, 0;
      mappedUser, mappedMeta, exhausted, nAllocated, nFreed := 0, 0, false, 0, 0;
      nFreedAtLastRelease, numReleases, lastReleasedBytes := 0, 0, 0;
      new;
      ConfigUnits(c);
      FreeArrayInWords(c);
      FreshRegionOk(c);
    }

    method EnsureFreeArraySpace(count: nat, granted: bool) returns (s: Status)
      requires Valid()
      modifies this`mappedFreeArray
      ensures Valid()
      ensures (View(), s) == RegionState.EnsureFreeArraySpace(c, old(View()), count, granted)
      ensures s == Done ==> count <= freeArray.Length
    {
      EnsureKeeps(c, View(), count, granted);
      var neededSpace := count * COMPACT_PTR_BYTES;
      if mappedFreeArray < neededSpace {
        var newMapped := RoundUp(neededSpace, FREE_ARRAY_MAP_SIZE);
        if newMapped > c.FreeArraySize() { return Fatal; }
        if !granted { return OutOfMemory; }
        mappedFreeArray := newMapped;
      }
      return Done;
    }

    method IsRegionExhausted(additional: nat) returns (full: bool)
      requires Valid()
      modifies this`exhausted
      ensures full == RegionState.IsRegionExhausted(c, old(View()), additional)
      ensures View() == old(View()).(exhausted := old(exhausted) || full)
    {
      full := mappedUser + mappedMeta + additional > c.UserSpace();
      if full { exhausted := true; }
    }

    method MapUserMemory(requested: nat, os: Os) returns (s: Status)
      requires Valid()
      modifies this`mappedUser, this`exhausted
      ensures Valid()
      ensures (View(), s) == MapUser(c, old(View()), requested, os)
    {
      MapUserKeeps(c, View(), requested, os);
      var totalUserBytes := allocatedUser + Product(requested, c.size);
      if totalUserBytes > mappedUser {
        var userMapSize := RoundUp(totalUserBytes - mappedUser, USER_MAP_SIZE);
        var full := IsRegionExhausted(userMapSize);
        if full || !os.user { return OutOfMemory; }
        mappedUser := mappedUser + userMapSize;
      }
      return Done;
    }

    method MapMetadata(newChunks: nat, os: Os) returns (s: Status)
      requires Valid()
      modifies this`mappedMeta, this`exhausted
      ensures Valid()
      ensures (View(), s) == MapMeta(c, old(View()), newChunks, os)
    {
      MapMetaKeeps(c, View(), newChunks, os);
      var totalMetaBytes := allocatedMeta + Product(newChunks, c.metadataSize);
      if totalMetaBytes > mappedMeta {
        var metaMapSize := RoundUp(totalMetaBytes - mappedMeta, META_MAP_SIZE);
        var full := IsRegionExhausted(metaMapSize);
        if full || !os.meta { return OutOfMemory; }
        mappedMeta := mappedMeta + metaMapSize;
      }
      return Done;
    }

    /** Writes the new chunks behind the free ones, from the top down. */
    method FillFreeArray(newChunks: nat)
      requires Valid() && numFreedChunks + newChunks <= freeArray.Length
      modifies freeArray
      ensures freeArray[..numFreedChunks] == old(freeArray[..numFreedChunks])
      ensures freeArray[numFreedChunks..numFreedChunks + newChunks]
           == FreshChunks(c, allocatedUser, newChunks)
    {
      var total := numFreedChunks + newChunks;
      ghost var news := FreshChunks(c, allocatedUser, newChunks);
      var i, chunk := 0, allocatedUser;
      while i < newChunks
        invariant i <= newChunks && chunk == allocatedUser + Product(i, c.size)
        invariant freeArray[..numFreedChunks] == old(freeArray[..numFreedChunks])
        invariant forall j :: newChunks - i <= j < newChunks ==> freeArray[numFreedChunks + j] == news[j]
      {
        freeArray[total - 1 - i] := chunk / 16;
        chunk := chunk + c.size;
        i := i + 1;
      }
    }

    method AddChunks(newChunks: nat, os: Os) returns (s: Status)
      requires Valid() && newChunks == NewChunks(c, View())
      requires allocatedMeta + Product(newChunks, c.metadataSize) <= mappedMeta
      modifies this, freeArray
      ensures Valid()
      ensures (View(), s) == RegionState.AddChunks(c, old(View()), newChunks, os)
    {
      AddChunksEffect(c, View(), newChunks, os);
      s := EnsureFreeArraySpace(numFreedChunks + newChunks, os.freeArray);
      if s == Done { PublishChunks(newChunks); }
    }

    method AddMetaAndChunks(os: Os) returns (s: Status)
      requires Valid()
      modifies this, freeArray
      ensures Valid()
      ensures (View(), s) == RegionState.AddMetaAndChunks(c, old(View()), os)
    {
      var newChunks := Quot(mappedUser - allocatedUser, c.size);
      MapMetaKeeps(c, View(), newChunks, os);
      s := MapMetadata(newChunks, os);
      if s == Done { s := AddChunks(newChunks, os); }
    }

    method PopulateFreeArray(requested: nat, os: Os) returns (s: Status)
      requires Valid()
      modifies this, freeArray
      ensures Valid()
      ensures (View(), s) == RegionState.PopulateFreeArray(c, old(View()), requested, os)
      ensures MapsOnlyGranted(old(View()), View(), os)
      ensures s != Done ==> View().free == old(View()).free && allocatedUser == old(allocatedUser)
    {
      PopulateEffect(c, View(), requested, os);
      s := MapUserMemory(requested, os);
      if s == Done { s := AddMetaAndChunks(os); }
    }

    /** All memory is mapped; now the counters advance. */
    method PublishChunks(newChunks: nat)
      requires Valid() && numFreedChunks + newChunks <= freeArray.Length
      modifies this, freeArray
      ensures numFreedChunks <= freeArray.Length && View() == Publish(c, old(View()), newChunks)
    {
      FillFreeArray(newChunks);
      ghost var n := numFreedChunks;
      numFreedChunks := numFreedChunks + newChunks;
      allocatedUser := allocatedUser + Product(newChunks, c.size);
      allocatedMeta := allocatedMeta + Product(newChunks, c.metadataSize);
      exhausted := false;
      assert freeArray[..numFreedChunks] == freeArray[..n] + freeArray[n..numFreedChunks];
    }

    method TakeLast(chunks: array<nat>, n: nat)
      requires Valid() && n <= chunks.Length && chunks != freeArray && n <= numFreedChunks
      modifies this`numFreedChunks, this`nAllocated, chunks
      ensures Valid() && View() == RegionState.TakeLast(old(View()), n)
      ensures chunks[..n] == old(View()).free[old(numFreedChunks) - n..]
    {
      ghost var free := freeArray[..numFreedChunks];
      numFreedChunks := numFreedChunks - n;
      CopyRange(freeArray, numFreedChunks, chunks, 0, n);
      nAllocated := nAllocated + n;
      assert free[..numFreedChunks] == freeArray[..numFreedChunks];
      assert free[numFreedChunks..] == freeArray[numFreedChunks..numFreedChunks + n];
    }

    method Refill(n: nat, os: Os) returns (s: Status)
      requires Valid()
      modifies this, freeArray
      ensures Valid() && (View(), s) == Refilled(c, old(View()), n, os)
      ensures s == Done ==> numFreedChunks >= n
    {
      RefilledEffect(c, View(), n, os);
      s := Done;
      if numFreedChunks < n { s := PopulateFreeArray(n - numFreedChunks, os); }
    }

    /** Copies the last n free chunks out. */
    method GetFromAllocator(chunks: array<nat>, n: nat, os: Os) returns (s: Status)
      requires Valid() && n <= chunks.Length && chunks != freeArray
      modifies this, freeArray, chunks
      ensures Valid()
      ensures var (r, got, s1) := RegionState.GetFromAllocator(c, old(View()), n, os);
        View() == r && s == s1 && (s == Done ==> chunks[..n] == got)
    {
      s := Refill(n, os);
      if s == Done { TakeLast(chunks, n); }
    }

    method ReturnToAllocator(chunks: array<nat>, first: nat, n: nat, granted: bool) returns (s: Status)
      requires Valid() && first + n <= chunks.Length && chunks != freeArray
      modifies this, freeArray
      ensures Valid()
      ensures (View(), s) == RegionState.ReturnToAllocator(c, old(View()), old(chunks[first..first + n]), granted)
    {
      ReturnEffect(c, View(), chunks[first..first + n], granted);
      s := EnsureFreeArraySpace(numFreedChunks + n, granted);
      if s != Done { return Fatal; }
      ghost var free := freeArray[..numFreedChunks];
      CopyRange(chunks, first, freeArray, numFreedChunks, n);
      assert freeArray[..numFreedChunks + n] == free + old(chunks[first..first + n]);
      numFreedChunks := numFreedChunks + n;
      nFreed := nFreed + n;
    }

    /** Gives whole free pages back whenever it is due, a page of bytes is free and a page of bytes
        was freed since the last release that gave anything back. The chunks stay where they are;
        the books change only if something went back. `due` stands for the release interval. */
    method MaybeReleaseToOS(mapper: MemoryMapper, pageLog: nat, due: bool)
      returns (ghost runs: seq<(nat, nat)>)
      requires Valid() && COMPACT_PTR_SCALE <= pageLog
      requires mapper.releasedRangesCount == 0
      requires nFreedAtLastRelease <= nFreed
      requires Product(numFreedChunks, c.size) >= Pow2(pageLog) ==>
        Releasable(freeArray[..numFreedChunks], Own.AllocatedPages(View(), Pow2(pageLog)),
                   c.Scaled(), Pow2(pageLog - COMPACT_PTR_SCALE))
      modifies this`nFreedAtLastRelease, this`numReleases, this`lastReleasedBytes, mapper
      ensures Valid() && View() == old(View()) && mapper.releasedRangesCount == 0
      ensures mapper.ranges == old(mapper.ranges) + Scaled(runs, pageLog - COMPACT_PTR_SCALE)
      ensures if due && Product(|View().free|, c.size) >= Pow2(pageLog)
                 && Product(nFreed - old(nFreedAtLastRelease), c.size) >= Pow2(pageLog) then
          MaximalRuns(runs, FreePages(View().free, Own.AllocatedPages(View(), Pow2(pageLog)),
                                      c.Scaled(), Pow2(pageLog - COMPACT_PTR_SCALE)))
        else runs == []
      ensures nFreedAtLastRelease == (if runs == [] then old(nFreedAtLastRelease) else nFreed)
      ensures numReleases == old(numReleases) + |runs|
    {
      runs := [];
      var pageSize := Pow2(pageLog);
      if Product(numFreedChunks, c.size) < pageSize { return; }
      if Product(nFreed - nFreedAtLastRelease, c.size) < pageSize { return; }
      if !due { return; }
      runs := ReleaseFreeMemoryToOS(freeArray, numFreedChunks, c.size,
                                    CeilDiv(allocatedUser, pageSize), pageLog, mapper);
      RecordRelease(mapper);
      assert View() == old(View());
    }

    /** Reads the mapper's counters; the books change only if something went back. */
    method RecordRelease(mapper: MemoryMapper)
      modifies this`nFreedAtLastRelease, this`numReleases, this`lastReleasedBytes
      modifies mapper`releasedRangesCount, mapper`releasedBytes
      ensures nFreedAtLastRelease == (if old(mapper.releasedRangesCount) == 0 then old(nFreedAtLastRelease) else nFreed)
      ensures numReleases == old(numReleases) + old(mapper.releasedRangesCount) && mapper.releasedRangesCount == 0
    {
      var any, ranges, bytes := mapper.GetAndResetStats();
      if any {
        nFreedAtLastRelease := nFreed;
        numReleases := numReleases + ranges;
        lastReleasedBytes := bytes;
      }
    }
  }

  class PerClass {
    const classMax: nat      // 2 * MaxCachedHint(class size)
    const chunks: array<nat>
    var count: nat
    var maxCount: nat

    ghost predicate Valid()
      reads this
    {
      && Own.LegalMax(classMax) && classMax <= chunks.Length
      && count <= maxCount && (maxCount == 0 || maxCount == classMax)
    }

    ghost function View(): Own.Cache
      requires count <= chunks.Length
      reads this, chunks
    {
      Own.Cache(chunks[..count], maxCount)
    }

    constructor (classMax: nat, capacity: nat)
      requires Own.LegalMax(classMax) && classMax <= capacity
      ensures Valid() && View() == Own.EMPTY_CACHE && this.classMax == classMax && fresh(chunks)
    {
      this.classMax := classMax;
      chunks := new nat[capacity];
      count, maxCount := 0, 0;
    }

    method InitCache()
      requires Valid()
      modifies this`maxCount
      ensures Valid() && View() == Own.InitCache(old(View()), classMax)
    {
      if maxCount == 0 { maxCount := classMax; }
    }

    method Refill(region: RegionInfo, os: Os) returns (s: Status)
      requires Valid() && region.Valid() && chunks != region.freeArray && count == 0
      modifies this, chunks, region, region.freeArray
      ensures Valid() && region.Valid()
      ensures var k1 := Own.InitCache(old(View()), classMax);
        var (r1, got, s1) := RegionState.GetFromAllocator(region.c, old(region.View()), k1.maxCount / 2, os);
        && region.View() == r1 && s == s1
        && View() == (if s == Done then k1.(chunks := got) else k1)
      ensures s == Done ==> count > 0
    {
      InitCache();
      var n := maxCount / 2;
      GetEffect(region.c, region.View(), n, os);
      s := region.GetFromAllocator(chunks, n, os);
      if s == Done { count := n; }
    }

    method Pop() returns (chunk: Option<nat>)
      requires Valid() && count > 0
      modifies this`count
      ensures Valid() && (View(), chunk) == Own.Pop(old(View()))
    {
      ghost var filled := chunks[..count];
      count := count - 1;
      chunk := Some(chunks[count]);
      assert chunks[..count] == filled[..|filled| - 1];
    }

    method Allocate(region: RegionInfo, os: Os) returns (chunk: Option<nat>, s: Status)
      requires Valid() && region.Valid() && chunks != region.freeArray
      modifies this, chunks, region, region.freeArray
      ensures Valid() && region.Valid()
      ensures (View(), region.View(), chunk, s)
           == Own.Allocate(region.c, classMax, old(View()), old(region.View()), os)
    {
      s, chunk := Done, None;
      if count == 0 { s := Refill(region, os); }
      if s == Done { chunk := Pop(); }
    }

    method Drain(region: RegionInfo, n: nat, granted: bool) returns (s: Status)
      requires Valid() && region.Valid() && chunks != region.freeArray && n <= count
      modifies this`count, region, region.freeArray
      ensures Valid() && region.Valid()
      ensures (View(), region.View(), s) == Own.Drain(region.c, old(View()), old(region.View()), n, granted)
    {
      var first := count - n;
      ghost var k := View();
      assert k.chunks[first..] == chunks[first..first + n] && k.chunks[..first] == chunks[..first];
      count := count - n;
      s := region.ReturnToAllocator(chunks, first, n, granted);
    }

    method Deallocate(region: RegionInfo, chunk: nat, granted: bool) returns (s: Status)
      requires Valid() && region.Valid() && chunks != region.freeArray
      modifies this, chunks, region, region.freeArray
      ensures Valid() && region.Valid()
      ensures var (k, r, s1) := Own.Deallocate(region.c, classMax, old(View()), old(region.View()), chunk, granted);
        s == s1 && (s == Done ==> View() == k && region.View() == r)
    {
      InitCache();
      s := Done;
      if count == maxCount {
        s := Drain(region, maxCount / 2, granted);
        if s != Done { return; }
      }
      ghost var before := chunks[..count];
      chunks[count] := chunk;
      count := count + 1;
      assert chunks[..count] == before + [chunk];
    }
  }
}
