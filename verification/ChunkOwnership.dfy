/** The per-thread cache of the 64-bit allocator (sanitizer_allocator_local_cache.h) and who
    owns each chunk of a region while any number of caches work on it. Every operation on
    the region runs under its mutex, so a run is a sequence of whole operations. */
module ChunkOwnership {
  import opened Wrappers
  import opened Arith
  import opened PageGrid
  import opened PageRelease
  import opened PackedCounters
  import opened RegionState

  /** One size class of one cache; `maxCount` is 0 until `InitCache` has run. */
  datatype Cache = Cache(chunks: seq<nat>, maxCount: nat)

  const EMPTY_CACHE := Cache([], 0)

  /** `maxCount` of the class, twice its caching hint. */
  ghost predicate LegalMax(maxCount: nat) {
    maxCount >= 2 && maxCount % 2 == 0
  }

  function InitCache(k: Cache, maxCount: nat): Cache {
    if k.maxCount != 0 then k else k.(maxCount := maxCount)
  }

  /** Hands out the cache's last chunk. */
  function Pop(k: Cache): (Cache, Option<nat>)
    requires |k.chunks| > 0
  {
    (k.(chunks := k.chunks[..|k.chunks| - 1]), Some(k.chunks[|k.chunks| - 1]))
  }

  function Allocate(c: Config, maxCount: nat, k: Cache, r: Region, os: Os): (Cache, Region, Option<nat>, Status)
    requires c.Legal()
  {
    if |k.chunks| == 0 then
      var k1 := InitCache(k, maxCount);
      var (r1, chunks, s) := GetFromAllocator(c, r, k1.maxCount / 2, os);
      if s != Done || |chunks| == 0 then (k1, r1, None, s)
      else var (k2, got) := Pop(k1.(chunks := chunks)); (k2, r1, got, Done)
    else var (k2, got) := Pop(k); (k2, r, got, Done)
  }

  function Drain(c: Config, k: Cache, r: Region, count: nat, granted: bool): (Cache, Region, Status)
    requires c.Legal() && count <= |k.chunks|
  {
    var first := |k.chunks| - count;
    var (r1, s) := ReturnToAllocator(c, r, k.chunks[first..], granted);
    (k.(chunks := k.chunks[..first]), r1, s)
  }

  function Deallocate(c: Config, maxCount: nat, k: Cache, r: Region, chunk: nat, granted: bool): (Cache, Region, Status)
    requires c.Legal()
  {
    var k1 := InitCache(k, maxCount);
    var (k2, r1, s) :=
      if |k1.chunks| == k1.maxCount then Drain(c, k1, r, k1.maxCount / 2, granted) else (k1, r, Done);
    (k2.(chunks := k2.chunks + [chunk]), r1, s)
  }

  function DrainAll(c: Config, k: Cache, r: Region, granted: bool): (Cache, Region, Status)
    requires c.Legal()
  {
    if |k.chunks| > 0 then Drain(c, k, r, |k.chunks|, granted) else (k, r, Done)
  }

  // The whole system.

  datatype System = System(region: Region, caches: seq<Cache>, used: multiset<nat>)

  datatype Op =
    | Malloc(cache: nat, os: Os)
    | Free(cache: nat, chunk: nat, granted: bool)
    | DrainCache(cache: nat, granted: bool)
    | NewCache

  const INITIAL := System(FRESH, [], multiset{})

  /** What the caller owes: an existing cache, and a chunk it holds. */
  predicate Enabled(s: System, op: Op) {
    match op
    case Malloc(i, _) => i < |s.caches|
    case Free(i, chunk, _) => i < |s.caches| && chunk in s.used
    case DrainCache(i, _) => i < |s.caches|
    case NewCache => true
  }

  /** One operation; None when the process dies in it. */
  function Step(c: Config, maxCount: nat, s: System, op: Op): Option<System>
    requires c.Legal() && Enabled(s, op)
  {
    match op
    case Malloc(i, os) =>
      var (k, r, got, status) := Allocate(c, maxCount, s.caches[i], s.region, os);
      if status == Fatal then None else
      Some(System(r, s.caches[i := k], if got.Some? then s.used + multiset{got.value} else s.used))
    case Free(i, chunk, granted) =>
      var (k, r, status) := Deallocate(c, maxCount, s.caches[i], s.region, chunk, granted);
      if status != Done then None else
      Some(System(r, s.caches[i := k], s.used - multiset{chunk}))
    case DrainCache(i, granted) =>
      var (k, r, status) := DrainAll(c, s.caches[i], s.region, granted);
      if status != Done then None else
      Some(System(r, s.caches[i := k], s.used))
    case NewCache => Some(s.(caches := s.caches + [EMPTY_CACHE]))
  }

  // The accounting.

  ghost function Cached(caches: seq<Cache>): multiset<nat> {
    if caches == [] then multiset{}
    else Cached(caches[..|caches| - 1]) + multiset(caches[|caches| - 1].chunks)
  }

  /** The chunk offsets of the first n chunks of the grid. */
  ghost function Grid(cs: nat, n: nat): seq<nat> {
    seq(n, k requires 0 <= k < n => Product(k, cs))
  }

  ghost function Owned(s: System): multiset<nat> {
    multiset(s.region.free) + Cached(s.caches) + s.used
  }

  ghost predicate CacheOk(k: Cache, maxCount: nat) {
    |k.chunks| <= k.maxCount && (k.maxCount == 0 || k.maxCount == maxCount)
  }

  /** Every chunk the region has carved is in exactly one of free array, a cache, or use. */
  ghost predicate Inv(c: Config, maxCount: nat, s: System)
    requires c.Legal()
  {
    && LayoutOk(c, s.region)
    && Owned(s) == multiset(Grid(c.Scaled(), Count(c, s.region)))
    && |s.region.free| + s.region.nAllocated - s.region.nFreed == Count(c, s.region)
    && forall i :: 0 <= i < |s.caches| ==> CacheOk(s.caches[i], maxCount)
  }

  lemma SwapLast<T>(a: multiset<T>, b: multiset<T>, c: multiset<T>)
    ensures a + b + c == a + c + b
  {
  }

  /** Replacing one cache exchanges its chunks in the total. */
  lemma {:induction false} CachedUpdate(caches: seq<Cache>, i: nat, k: Cache)
    requires i < |caches|
    ensures Cached(caches[i := k]) + multiset(caches[i].chunks) == Cached(caches) + multiset(k.chunks)
  {
    var last, after := |caches| - 1, caches[i := k];
    var old1, new1 := multiset(caches[i].chunks), multiset(k.chunks);
    if i < last {
      CachedUpdate(caches[..last], i, k);
      assert after[..last] == caches[..last][i := k];
      var tail := multiset(caches[last].chunks);
      assert Cached(after) == Cached(after[..last]) + tail;
      SwapLast(Cached(after[..last]), tail, old1);
      SwapLast(Cached(caches[..last]), tail, new1);
    } else {
      assert after[..last] == caches[..last];
      assert Cached(after) == Cached(caches[..last]) + new1;
      SwapLast(Cached(caches[..last]), old1, new1);
    }
  }

  /** The chunks `PopulateFreeArray` publishes are the next ones of the grid. */
  lemma {:induction false} FreshExtendsGrid(c: Config, n: nat, m: nat)
    requires c.Legal()
    ensures multiset(Grid(c.Scaled(), n)) + multiset(FreshChunks(c, Product(n, c.size), m))
         == multiset(Grid(c.Scaled(), n + m))
  {
    if m > 0 {
      FreshExtendsGrid(c, n, m - 1);
      FreshHead(c, n, m);
      GridLast(c.Scaled(), n + m);
      SwapLast(multiset(Grid(c.Scaled(), n)), multiset(FreshChunks(c, Product(n, c.size), m - 1)),
               multiset{Product(n + m - 1, c.Scaled())});
    } else {
      NoFreshChunks(c, Product(n, c.size));
    }
  }

  lemma GridLast(cs: nat, n: nat)
    requires n > 0
    ensures multiset(Grid(cs, n)) == multiset(Grid(cs, n - 1)) + multiset{Product(n - 1, cs)}
  {
    assert Grid(cs, n) == Grid(cs, n - 1) + [Product(n - 1, cs)];
  }

  lemma FreshHead(c: Config, n: nat, m: nat)
    requires c.Legal() && m > 0
    ensures multiset(FreshChunks(c, Product(n, c.size), m))
         == multiset{Product(n + m - 1, c.Scaled())} + multiset(FreshChunks(c, Product(n, c.size), m - 1))
  {
    OffsetOfChunk(c, n, m - 1);
    var x, rest := Product(n + m - 1, c.Scaled()), FreshChunks(c, Product(n, c.size), m - 1);
    assert FreshChunks(c, Product(n, c.size), m) == [x] + rest;
  }

  lemma OffsetOfChunk(c: Config, n: nat, j: nat)
    requires c.Legal()
    ensures (Product(n, c.size) + Product(j, c.size)) / 16 == Product(n + j, c.Scaled())
  {
  }

  lemma {:induction false} ScaleProduct(a: nat, b: nat)
    ensures Product(a, 16 * b) == 16 * Product(a, b)
  {
    if a > 0 { ScaleProduct(a - 1, b); }
  }

  lemma SplitSeq(s: seq<nat>, i: nat)
    requires i <= |s|
    ensures multiset(s[..i]) + multiset(s[i..]) == multiset(s)
  {
    assert s[..i] + s[i..] == s;
  }

  ghost function Got(got: Option<nat>): multiset<nat> {
    if got.Some? then multiset{got.value} else multiset{}
  }

  lemma LastApart(s: seq<nat>)
    requires |s| > 0
    ensures multiset(s) == multiset(s[..|s| - 1]) + multiset{s[|s| - 1]}
  {
    assert s == s[..|s| - 1] + [s[|s| - 1]];
  }

  lemma PopLast(free: multiset<nat>, chunks: seq<nat>)
    requires |chunks| > 0
    ensures free + multiset(chunks[..|chunks| - 1]) + multiset{chunks[|chunks| - 1]} == free + multiset(chunks)
  {
    LastApart(chunks);
  }

  /** One allocation: region and cache together lose the chunk that is handed out and gain
      what the region carves. */
  ghost predicate Moves(c: Config, k: Cache, r: Region, k1: Cache, r1: Region, got: Option<nat>)
    requires c.Legal()
  {
    && LayoutOk(c, r1) && Count(c, r1) >= Count(c, r)
    && multiset(r1.free) + multiset(k1.chunks) + Got(got)
       == multiset(r.free) + multiset(k.chunks)
          + multiset(FreshChunks(c, r.allocatedUser, Count(c, r1) - Count(c, r)))
    && |r1.free| + r1.nAllocated - r1.nFreed
       == |r.free| + r.nAllocated - r.nFreed + (Count(c, r1) - Count(c, r))
  }

  lemma RefillMoves(c: Config, k: Cache, r: Region, n: nat, r1: Region, chunks: seq<nat>, s: Status)
    requires c.Legal() && LayoutOk(c, r) && k.chunks == []
    requires Gives(c, r, n, r1, chunks, s)
    ensures Moves(c, k, r, k.(chunks := chunks), r1, None)
  {
    var news := FreshChunks(c, r.allocatedUser, Count(c, r1) - Count(c, r));
    assert multiset(r1.free + chunks) == multiset(r.free + news);
    assert |r1.free + chunks| == |r.free + news|;
  }

  lemma PopMoves(c: Config, k0: Cache, r0: Region, k: Cache, r: Region)
    requires c.Legal() && Moves(c, k0, r0, k, r, None) && |k.chunks| > 0
    ensures var (k1, got) := Pop(k); Moves(c, k0, r0, k1, r, got)
  {
    PopLast(multiset(r.free), k.chunks);
  }

  /** Allocation moves chunks from the region to the cache and one on to the caller. */
  lemma AllocateEffect(c: Config, maxCount: nat, k: Cache, r: Region, os: Os)
    requires c.Legal() && LegalMax(maxCount) && LayoutOk(c, r) && CacheOk(k, maxCount)
    ensures var (k1, r1, got, s) := Allocate(c, maxCount, k, r, os);
      && CacheOk(k1, maxCount) && Moves(c, k, r, k1, r1, got) && (s == Done <==> got.Some?)
  {
    if |k.chunks| == 0 {
      var k1 := InitCache(k, maxCount);
      GetEffect(c, r, k1.maxCount / 2, os);
      var (r1, chunks, s) := GetFromAllocator(c, r, k1.maxCount / 2, os);
      RefillMoves(c, k, r, k1.maxCount / 2, r1, chunks, s);
      if s == Done { PopMoves(c, k, r, k1.(chunks := chunks), r1); }
    } else {
      NoFreshChunks(c, r.allocatedUser);
      PopMoves(c, k, r, k, r);
    }
  }

  lemma DrainEffect(c: Config, k: Cache, r: Region, count: nat, granted: bool)
    requires c.Legal() && LayoutOk(c, r) && count <= |k.chunks|
    ensures var (k1, r1, s) := Drain(c, k, r, count, granted);
      && |k1.chunks| == |k.chunks| - count && k1.maxCount == k.maxCount
      && (s == Done ==>
            && LayoutOk(c, r1) && Count(c, r1) == Count(c, r)
            && multiset(r1.free) + multiset(k1.chunks) == multiset(r.free) + multiset(k.chunks)
            && |r1.free| + r1.nAllocated - r1.nFreed == |r.free| + r.nAllocated - r.nFreed)
  {
    var first := |k.chunks| - count;
    ReturnEffect(c, r, k.chunks[first..], granted);
    SplitSeq(k.chunks, first);
  }

  lemma DeallocateEffect(c: Config, maxCount: nat, k: Cache, r: Region, chunk: nat, granted: bool)
    requires c.Legal() && LegalMax(maxCount) && LayoutOk(c, r) && CacheOk(k, maxCount)
    ensures var (k1, r1, s) := Deallocate(c, maxCount, k, r, chunk, granted);
      s == Done ==>
        && LayoutOk(c, r1) && CacheOk(k1, maxCount) && Count(c, r1) == Count(c, r)
        && multiset(r1.free) + multiset(k1.chunks) == multiset(r.free) + multiset(k.chunks) + multiset{chunk}
        && |r1.free| + r1.nAllocated - r1.nFreed == |r.free| + r.nAllocated - r.nFreed
  {
    var k0 := InitCache(k, maxCount);
    if |k0.chunks| == k0.maxCount { DrainEffect(c, k0, r, k0.maxCount / 2, granted); }
  }

  /** Replacing one cache and the region keeps the invariant when no chunk is lost or made
      except the ones the region newly carves. */
  lemma ReplaceKeepsInv(c: Config, maxCount: nat, s: System, i: nat, k: Cache, r: Region, used: multiset<nat>)
    requires c.Legal() && Inv(c, maxCount, s) && i < |s.caches|
    requires LayoutOk(c, r) && CacheOk(k, maxCount) && Count(c, r) >= Count(c, s.region)
    requires multiset(r.free) + multiset(k.chunks) + used
      == multiset(s.region.free) + multiset(s.caches[i].chunks) + s.used
         + multiset(FreshChunks(c, s.region.allocatedUser, Count(c, r) - Count(c, s.region)))
    requires |r.free| + r.nAllocated - r.nFreed
      == |s.region.free| + s.region.nAllocated - s.region.nFreed + (Count(c, r) - Count(c, s.region))
    ensures Inv(c, maxCount, System(r, s.caches[i := k], used))
  {
    CachedUpdate(s.caches, i, k);
    CarvedExtendsGrid(c, s.region, r);
    Rebalance(
      multiset(s.region.free), Cached(s.caches), s.used, multiset(s.caches[i].chunks),
      multiset(r.free), Cached(s.caches[i := k]), used, multiset(k.chunks),
      multiset(FreshChunks(c, s.region.allocatedUser, Count(c, r) - Count(c, s.region))));
  }

  lemma CarvedExtendsGrid(c: Config, r0: Region, r: Region)
    requires c.Legal() && LayoutOk(c, r0) && Count(c, r0) <= Count(c, r)
    ensures multiset(Grid(c.Scaled(), Count(c, r0)))
              + multiset(FreshChunks(c, r0.allocatedUser, Count(c, r) - Count(c, r0)))
         == multiset(Grid(c.Scaled(), Count(c, r)))
  {
    FreshExtendsGrid(c, Count(c, r0), Count(c, r) - Count(c, r0));
  }

  lemma Rebalance(free0: multiset<nat>, cached0: multiset<nat>, used0: multiset<nat>, k0: multiset<nat>,
                  free1: multiset<nat>, cached1: multiset<nat>, used1: multiset<nat>, k1: multiset<nat>,
                  news: multiset<nat>)
    requires cached1 + k0 == cached0 + k1
    requires free1 + k1 + used1 == free0 + k0 + used0 + news
    ensures free1 + cached1 + used1 == free0 + cached0 + used0 + news
  {
    forall x: nat
      ensures free1[x] + cached1[x] + used1[x] == free0[x] + cached0[x] + used0[x] + news[x]
    {
      assert (cached1 + k0)[x] == (cached0 + k1)[x];
      assert (free1 + k1 + used1)[x] == (free0 + k0 + used0 + news)[x];
    }
  }

  lemma MallocKeepsInv(c: Config, maxCount: nat, s: System, i: nat, os: Os)
    requires c.Legal() && LegalMax(maxCount) && Inv(c, maxCount, s) && i < |s.caches|
    ensures var s1 := Step(c, maxCount, s, Malloc(i, os)); s1.Some? ==> Inv(c, maxCount, s1.value)
  {
    AllocateEffect(c, maxCount, s.caches[i], s.region, os);
    var (k, r, got, status) := Allocate(c, maxCount, s.caches[i], s.region, os);
    var news := multiset(FreshChunks(c, s.region.allocatedUser, Count(c, r) - Count(c, s.region)));
    AddUsed(multiset(r.free) + multiset(k.chunks), Got(got), s.used,
            multiset(s.region.free) + multiset(s.caches[i].chunks), news);
    ReplaceKeepsInv(c, maxCount, s, i, k, r, s.used + Got(got));
    assert got.None? ==> s.used + Got(got) == s.used;
  }

  lemma AddUsed(a: multiset<nat>, got: multiset<nat>, used: multiset<nat>, b: multiset<nat>, news: multiset<nat>)
    requires a + got == b + news
    ensures a + (used + got) == b + used + news
  {
    assert a + (used + got) == (a + got) + used;
    SwapLast(b, news, used);
  }

  lemma TakeUsed(a: multiset<nat>, b: multiset<nat>, used: multiset<nat>, x: nat)
    requires a == b + multiset{x} && x in used
    ensures a + (used - multiset{x}) == b + used
  {
  }

  lemma FreeKeepsInv(c: Config, maxCount: nat, s: System, i: nat, chunk: nat, granted: bool)
    requires c.Legal() && LegalMax(maxCount) && Inv(c, maxCount, s)
    requires i < |s.caches| && chunk in s.used
    ensures var s1 := Step(c, maxCount, s, Free(i, chunk, granted)); s1.Some? ==> Inv(c, maxCount, s1.value)
  {
    NoFreshChunks(c, s.region.allocatedUser);
    DeallocateEffect(c, maxCount, s.caches[i], s.region, chunk, granted);
    var (k, r, status) := Deallocate(c, maxCount, s.caches[i], s.region, chunk, granted);
    if status == Done {
      TakeUsed(multiset(r.free) + multiset(k.chunks),
               multiset(s.region.free) + multiset(s.caches[i].chunks), s.used, chunk);
      ReplaceKeepsInv(c, maxCount, s, i, k, r, s.used - multiset{chunk});
    }
  }

  lemma DrainKeepsInv(c: Config, maxCount: nat, s: System, i: nat, granted: bool)
    requires c.Legal() && LegalMax(maxCount) && Inv(c, maxCount, s) && i < |s.caches|
    ensures var s1 := Step(c, maxCount, s, DrainCache(i, granted)); s1.Some? ==> Inv(c, maxCount, s1.value)
  {
    NoFreshChunks(c, s.region.allocatedUser);
    var k0 := s.caches[i];
    if |k0.chunks| > 0 { DrainEffect(c, k0, s.region, |k0.chunks|, granted); }
    var (k, r, status) := DrainAll(c, k0, s.region, granted);
    if status == Done { ReplaceKeepsInv(c, maxCount, s, i, k, r, s.used); }
  }

  lemma NewCacheKeepsInv(c: Config, maxCount: nat, s: System)
    requires c.Legal() && Inv(c, maxCount, s)
    ensures Inv(c, maxCount, s.(caches := s.caches + [EMPTY_CACHE]))
  {
    var more := s.caches + [EMPTY_CACHE];
    assert more[..|more| - 1] == s.caches;
  }

  lemma StepKeepsInv(c: Config, maxCount: nat, s: System, op: Op)
    requires c.Legal() && LegalMax(maxCount) && Inv(c, maxCount, s) && Enabled(s, op)
    ensures var s1 := Step(c, maxCount, s, op); s1.Some? ==> Inv(c, maxCount, s1.value)
  {
    match op
    case Malloc(i, os) => MallocKeepsInv(c, maxCount, s, i, os);
    case Free(i, chunk, granted) => FreeKeepsInv(c, maxCount, s, i, chunk, granted);
    case DrainCache(i, granted) => DrainKeepsInv(c, maxCount, s, i, granted);
    case NewCache => NewCacheKeepsInv(c, maxCount, s);
  }

  /** A run: each operation is enabled where it happens and none of them kills the process. */
  ghost predicate IsRun(c: Config, maxCount: nat, states: seq<System>, ops: seq<Op>)
    requires c.Legal()
  {
    && |states| == |ops| + 1
    && states[0] == INITIAL
    && forall i :: 0 <= i < |ops| ==>
         Enabled(states[i], ops[i]) && Step(c, maxCount, states[i], ops[i]) == Some(states[i + 1])
  }

  /** Conservation: at every point of every run each carved chunk has exactly one owner, and
      the region's counters agree with the chunks. */
  lemma {:induction false} ChunksAreConserved(c: Config, maxCount: nat, states: seq<System>, ops: seq<Op>, n: nat)
    requires c.Legal() && LegalMax(maxCount) && IsRun(c, maxCount, states, ops) && n < |states|
    ensures Inv(c, maxCount, states[n])
  {
    if n == 0 {
      FreshRegionOk(c);
      assert Grid(c.Scaled(), 0) == [];
    } else {
      ChunksAreConserved(c, maxCount, states, ops, n - 1);
      StepKeepsInv(c, maxCount, states[n - 1], ops[n - 1]);
    }
  }

  lemma {:induction false} GridOnce(cs: nat, n: nat, x: nat)
    requires cs > 0
    ensures multiset(Grid(cs, n))[x] == if Rem(x, cs) == 0 && Quot(x, cs) < n then 1 else 0
  {
    if n == 0 {
      assert Grid(cs, 0) == [];
    } else {
      GridOnce(cs, n - 1, x);
      GridLast(cs, n);
      QuotOfProduct(n - 1, cs);
      QuotRem(x, cs);
    }
  }

  /** The chunk malloc returns had no owner among callers, and is one of the grid. */
  lemma NeverHandedOutTwice(c: Config, maxCount: nat, s: System, i: nat, os: Os)
    requires c.Legal() && LegalMax(maxCount) && Inv(c, maxCount, s) && i < |s.caches|
    ensures var (k, r, got, status) := Allocate(c, maxCount, s.caches[i], s.region, os);
      got.Some? ==> got.value !in s.used && Rem(got.value, c.Scaled()) == 0 && Quot(got.value, c.Scaled()) < Count(c, r)
  {
    var (k, r, got, status) := Allocate(c, maxCount, s.caches[i], s.region, os);
    ConfigUnits(c);
    StepKeepsInv(c, maxCount, s, Malloc(i, os));
    AllocateEffect(c, maxCount, s.caches[i], s.region, os);
    if got.Some? {
      var s1 := Step(c, maxCount, s, Malloc(i, os)).value;
      GridOnce(c.Scaled(), Count(c, r), got.value);
      assert Owned(s1)[got.value] >= s.used[got.value] + 1;
    }
  }

  // Which chunks move.

  /** What a refill of an empty cache does: the last half maximum of the free chunks, after the region
      has carved more only if there are fewer, go over in order and the top one is served; it fails
      exactly when carving was needed and could not be done, and then nothing is moved. */
  ghost predicate Refills(c: Config, maxCount: nat, r: Region, k1: Cache, r1: Region, got: Option<nat>, s: Status, carves: bool)
    requires c.Legal()
  {
    var need, added := maxCount / 2, Count(c, r1) - Count(c, r);
    && k1.maxCount == maxCount && added >= 0 && (|r.free| >= need ==> added == 0)
    && (s == Done <==> |r.free| >= need || carves)
    && if s == Done then
         && got.Some? && |k1.chunks| == need - 1
         && r1.free + (k1.chunks + [got.value]) == r.free + FreshChunks(c, r.allocatedUser, added)
       else got.None? && k1.chunks == [] && r1.free == r.free + FreshChunks(c, r.allocatedUser, added)
  }

  /** The region can carve the chunks it lacks. */
  ghost predicate Carves(c: Config, r: Region, need: nat, os: Os)
    requires c.Legal()
  {
    |r.free| < need && PopulateFreeArray(c, r, need - |r.free|, os).1 == Done
  }

  lemma PopRefills(c: Config, maxCount: nat, r: Region, r1: Region, chunks: seq<nat>, s: Status, carves: bool)
    requires c.Legal() && LegalMax(maxCount) && Gives(c, r, maxCount / 2, r1, chunks, s)
    requires if |r.free| < maxCount / 2 then s == Done <==> carves else s == Done && Count(c, r1) == Count(c, r)
    ensures
      if s == Done then
        && chunks != []
        && Refills(c, maxCount, r, Cache(chunks[..|chunks| - 1], maxCount), r1, Some(chunks[|chunks| - 1]), s, carves)
      else Refills(c, maxCount, r, Cache([], maxCount), r1, None, s, carves)
  {
    if s == Done {
      assert chunks == chunks[..|chunks| - 1] + [chunks[|chunks| - 1]];
    } else {
      assert r1.free + chunks == r1.free;
    }
  }

  lemma EmptyCacheAllocates(c: Config, maxCount: nat, k: Cache, r: Region, os: Os, r1: Region, chunks: seq<nat>, s: Status)
    requires c.Legal() && LegalMax(maxCount) && CacheOk(k, maxCount) && k.chunks == []
    requires GetFromAllocator(c, r, maxCount / 2, os) == (r1, chunks, s)
    ensures Allocate(c, maxCount, k, r, os) ==
      if s != Done || chunks == [] then (Cache([], maxCount), r1, None, s)
      else (Cache(chunks[..|chunks| - 1], maxCount), r1, Some(chunks[|chunks| - 1]), Done)
  {
    assert InitCache(k, maxCount) == Cache([], maxCount);
  }

  lemma EmptyCacheRefills(c: Config, maxCount: nat, k: Cache, r: Region, os: Os, r1: Region, chunks: seq<nat>,
                          s: Status, carves: bool)
    requires c.Legal() && LegalMax(maxCount) && CacheOk(k, maxCount) && k.chunks == []
    requires GetFromAllocator(c, r, maxCount / 2, os) == (r1, chunks, s) && Gives(c, r, maxCount / 2, r1, chunks, s)
    requires if |r.free| < maxCount / 2 then s == Done <==> carves else s == Done && Count(c, r1) == Count(c, r)
    ensures var (k1, r2, got, s2) := Allocate(c, maxCount, k, r, os); Refills(c, maxCount, r, k1, r2, got, s2, carves)
  {
    EmptyCacheAllocates(c, maxCount, k, r, os, r1, chunks, s);
    PopRefills(c, maxCount, r, r1, chunks, s, carves);
  }

  /** A cache with chunks serves the top one and leaves the region alone; an empty one refills. */
  lemma AllocateIsExact(c: Config, maxCount: nat, k: Cache, r: Region, os: Os)
    requires c.Legal() && LegalMax(maxCount) && LayoutOk(c, r) && CacheOk(k, maxCount)
    ensures var (k1, r1, got, s) := Allocate(c, maxCount, k, r, os);
      if k.chunks != [] then
        s == Done && r1 == r && got.Some? && k1.chunks + [got.value] == k.chunks && k1.maxCount == k.maxCount
      else Refills(c, maxCount, r, k1, r1, got, s, Carves(c, r, maxCount / 2, os))
  {
    if k.chunks == [] {
      GetEffect(c, r, maxCount / 2, os);
      var (r1, chunks, s) := GetFromAllocator(c, r, maxCount / 2, os);
      EmptyCacheRefills(c, maxCount, k, r, os, r1, chunks, s, Carves(c, r, maxCount / 2, os));
    }
  }

  /** A cache with room takes the chunk on top and leaves the region alone; a full one first gives the
      upper half back to the region, in order. */
  lemma DeallocateIsExact(c: Config, maxCount: nat, k: Cache, r: Region, chunk: nat, granted: bool)
    requires c.Legal() && LegalMax(maxCount) && LayoutOk(c, r) && CacheOk(k, maxCount)
    ensures var (k1, r1, s) := Deallocate(c, maxCount, k, r, chunk, granted);
      var half := maxCount / 2;
      if |k.chunks| < maxCount then s == Done && r1 == r && k1 == Cache(k.chunks + [chunk], maxCount)
      else
        s == Done ==> k1 == Cache(k.chunks[..half] + [chunk], maxCount) && r1.free == r.free + k.chunks[half..]
  {
    var k0 := InitCache(k, maxCount);
    if |k0.chunks| == k0.maxCount { ReturnEffect(c, r, k0.chunks[maxCount / 2..], granted); }
  }

  /** What was freed last is handed out next, and that undoes the free. */
  lemma MallocUndoesFree(c: Config, maxCount: nat, k: Cache, r: Region, chunk: nat, granted: bool, os: Os)
    requires c.Legal() && LegalMax(maxCount) && LayoutOk(c, r) && CacheOk(k, maxCount)
    ensures var (k1, r1, s) := Deallocate(c, maxCount, k, r, chunk, granted);
      s == Done ==>
        var (k2, r2, got, s2) := Allocate(c, maxCount, k1, r1, os);
        && s2 == Done && got == Some(chunk) && r2 == r1
        && (|k.chunks| < maxCount ==> r2 == r && k2.chunks == k.chunks)
  {
    DeallocateIsExact(c, maxCount, k, r, chunk, granted);
    var (k1, r1, s) := Deallocate(c, maxCount, k, r, chunk, granted);
    if s == Done {
      DeallocateEffect(c, maxCount, k, r, chunk, granted);
      AllocateIsExact(c, maxCount, k1, r1, os);
    }
  }

  /** A drained cache is empty and its chunks are the region's last free ones. */
  lemma DrainedIsEmpty(c: Config, k: Cache, r: Region, granted: bool)
    requires c.Legal() && LayoutOk(c, r)
    ensures var (k1, r1, s) := DrainAll(c, k, r, granted);
      k1 == k.(chunks := []) && (s == Done ==> r1.free == r.free + k.chunks) && (k.chunks == [] ==> s == Done && r1 == r)
  {
    if |k.chunks| > 0 {
      ReturnEffect(c, r, k.chunks[0..], granted);
      assert k.chunks[0..] == k.chunks && k.chunks[..0] == [];
    }
  }

  /** What a region carves lies on the free array with the lowest address on top, so that it is handed
      out from the bottom up: the entry j below the top is chunk n + j of the region. */
  lemma CarvedFromTheBottom(c: Config, n: nat, m: nat, j: nat)
    requires c.Legal() && j < m
    ensures FreshChunks(c, Product(n, c.size), m)[m - 1 - j] == Product(n + j, c.Scaled())
  {
    OffsetOfChunk(c, n, j);
  }

  // Page release and ownership.

  lemma MultiplicityOneIsDistinct(s: seq<nat>)
    requires forall x: nat :: multiset(s)[x] <= 1
    ensures forall i, j :: 0 <= i < j < |s| ==> s[i] != s[j]
  {
    forall i, j | 0 <= i < j < |s| ensures s[i] != s[j] {
      SplitSeq(s, j);
      assert s[..j][i] == s[i] && s[j..][0] == s[j];
      assert s[i] in multiset(s[..j]) && s[j] in multiset(s[j..]);
      assert multiset(s)[s[j]] == multiset(s[..j])[s[j]] + multiset(s[j..])[s[j]];
    }
  }

  /** The page count `MaybeReleaseToOS` passes on. */
  function AllocatedPages(r: Region, pageSize: nat): nat
    requires pageSize > 0
  {
    CeilDiv(r.allocatedUser, pageSize)
  }

  lemma FreeEntriesOnGrid(c: Config, maxCount: nat, s: System)
    requires c.Legal() && Inv(c, maxCount, s)
    ensures c.Scaled() > 0 && DistinctOffsets(s.region.free, c.Scaled())
    ensures forall i :: 0 <= i < |s.region.free| ==> Quot(s.region.free[i], c.Scaled()) < Count(c, s.region)
  {
    ConfigUnits(c);
    var free, n := s.region.free, Count(c, s.region);
    forall x: nat ensures multiset(free)[x] <= (if Rem(x, c.Scaled()) == 0 && Quot(x, c.Scaled()) < n then 1 else 0) {
      GridOnce(c.Scaled(), n, x);
      assert Owned(s)[x] >= multiset(free)[x];
    }
    MultiplicityOneIsDistinct(free);
    forall i | 0 <= i < |free|
      ensures Rem(free[i], c.Scaled()) == 0 && Quot(free[i], c.Scaled()) < n
    {
      assert free[i] in multiset(free);
    }
  }

  /** The free array of a reachable region is what page release needs. */
  lemma ReachableIsReleasable(c: Config, maxCount: nat, s: System, ps: nat)
    requires c.Legal() && Inv(c, maxCount, s) && ps > 0
    requires AllocatedPages(s.region, 16 * ps) > 0
    requires PageShape(c.Scaled(), ps).0 < WordRange(WORD_LOG)
    ensures Releasable(s.region.free, AllocatedPages(s.region, 16 * ps), c.Scaled(), ps)
  {
    FreeEntriesOnGrid(c, maxCount, s);
    PagesCoverChunks(c, s.region, ps);
    forall i | 0 <= i < |s.region.free|
      ensures s.region.free[i] + c.Scaled() <= Product(AllocatedPages(s.region, 16 * ps), ps)
    {
      EntryEnd(s.region.free[i], Count(c, s.region), c.Scaled());
    }
  }

  lemma PagesCoverChunks(c: Config, r: Region, ps: nat)
    requires c.Legal() && LayoutOk(c, r) && ps > 0
    ensures Product(Count(c, r), c.Scaled()) <= Product(AllocatedPages(r, 16 * ps), ps)
  {
    CeilDivBounds(r.allocatedUser, 16 * ps);
    ConfigUnits(c);
    ScaleProduct(Count(c, r), c.Scaled());
    ScaleProduct(AllocatedPages(r, 16 * ps), ps);
  }

  lemma EntryEnd(f: nat, n: nat, cs: nat)
    requires cs > 0 && Rem(f, cs) == 0 && Quot(f, cs) < n
    ensures f + cs <= Product(n, cs)
  {
  }

  /** No page that is released holds a byte of a chunk in use or in a cache. */
  lemma ReleasedPageHasNoOwner(c: Config, maxCount: nat, s: System, ps: nat, p: nat, chunk: nat)
    requires c.Legal() && Inv(c, maxCount, s) && ps > 0 && c.Scaled() > 0
    requires WhollyFree(s.region.free, p, c.Scaled(), ps)
    requires chunk in s.used || chunk in Cached(s.caches)
    ensures !Overlap(Quot(chunk, c.Scaled()), p, c.Scaled(), ps)
  {
    var cs := c.Scaled();
    GridOnce(cs, Count(c, s.region), chunk);
    assert Owned(s)[chunk] >= multiset(s.region.free)[chunk] + 1;
    MultipleIs(chunk, cs);
    assert Product(Quot(chunk, cs), cs) !in multiset(s.region.free);
  }
}
