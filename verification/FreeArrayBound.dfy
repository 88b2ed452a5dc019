/** Whether a region can carve more chunks than its free array lists, so that the CHECK in
    EnsureFreeArraySpace ends the process (sanitizer_allocator_primary64.h). User memory and
    metadata are mapped in steps, and a region is full when the next step does not fit, so the
    answer depends on the steps and not only on the bytes of a chunk. */
module FreeArrayBound {
  import opened Wrappers
  import opened Arith
  import opened RegionState
  import opened ChunkOwnership

  /** Chunks of 16 bytes in one mapping step of user memory. */
  const STEP_CHUNKS := 0x4000

  /** What some steps of 16-byte chunks take up, with all their metadata. */
  function Footprint(c: Config, steps: nat): nat {
    steps * USER_MAP_SIZE + RoundUp(Product(steps * STEP_CHUNKS, c.metadataSize), META_MAP_SIZE)
  }

  /** The steps after which there are more chunks than the free array can list. */
  function StepsTooMany(c: Config): nat
    requires c.Legal()
  {
    c.FreeArraySize() / (STEP_CHUNKS * COMPACT_PTR_BYTES) + 1
  }

  /** Chunks are of 16 bytes and one step more than the free array lists fits the region. */
  predicate Overflowable(c: Config)
    requires c.Legal()
  {
    c.size == 16 && Footprint(c, StepsTooMany(c)) <= c.UserSpace()
  }

  lemma FootprintMono(c: Config, a: nat, b: nat)
    requires a <= b
    ensures Footprint(c, a) <= Footprint(c, b)
  {
    var x, y := Product(a * STEP_CHUNKS, c.metadataSize), Product(b * STEP_CHUNKS, c.metadataSize);
    ProductMono(a * STEP_CHUNKS, b * STEP_CHUNKS, c.metadataSize);
    RoundUpProps(y, META_MAP_SIZE);
    RoundUpLeast(x, META_MAP_SIZE, RoundUp(y, META_MAP_SIZE));
  }

  lemma CountFits(c: Config, r: Region, count: nat)
    requires c.Legal() && LayoutOk(c, r) && count <= Count(c, r)
    ensures Product(count, c.size) + Product(count, c.metadataSize) <= c.UserSpace()
  {
    ProductMono(count, Count(c, r), c.size);
    ProductMono(count, Count(c, r), c.metadataSize);
  }

  /** Chunks that take 28 bytes or more with their metadata never outgrow the free array. */
  lemma WideChunksFit(c: Config, r: Region)
    requires c.Legal() && LayoutOk(c, r) && c.size + c.metadataSize >= 28
    ensures Count(c, r) * COMPACT_PTR_BYTES <= c.FreeArraySize()
  {
    ConfigUnits(c);
    CountFits(c, r, Count(c, r));
    ProductAddRight(Count(c, r), c.size, c.metadataSize);
    ProductMonoRight(Count(c, r), 28, c.size + c.metadataSize);
    ProductIsMul(Count(c, r), 28);
  }

  lemma WideIsNotOverflowable(c: Config)
    requires c.Legal() && c.size + c.metadataSize >= 28
    ensures !Overflowable(c)
  {
    var n := StepsTooMany(c) * STEP_CHUNKS;
    ConfigUnits(c);
    RoundUpProps(Product(n, c.metadataSize), META_MAP_SIZE);
    if c.size == 16 {
      ProductMonoRight(n, 12, c.metadataSize);
      ProductIsMul(n, 12);
    }
  }

  // The free array never overflows otherwise.

  /** Memory is mapped in whole steps, and the free array can list every chunk. */
  ghost predicate Bounded(c: Config, r: Region)
    requires c.Legal()
  {
    && Rem(r.mappedUser, USER_MAP_SIZE) == 0 && Rem(r.mappedMeta, META_MAP_SIZE) == 0
    && Count(c, r) * COMPACT_PTR_BYTES <= c.FreeArraySize()
  }

  lemma EnsureNotFatal(c: Config, r: Region, count: nat, granted: bool)
    requires c.Legal() && count * COMPACT_PTR_BYTES <= c.FreeArraySize()
    ensures EnsureFreeArraySpace(c, r, count, granted).1 != Fatal
    ensures granted ==> EnsureFreeArraySpace(c, r, count, granted).1 == Done
  {
    ConfigUnits(c);
    RoundUpLeast(count * COMPACT_PTR_BYTES, FREE_ARRAY_MAP_SIZE, c.FreeArraySize());
  }

  lemma WholeSteps(n: nat, d: nat)
    requires d > 0 && Rem(n, d) == 0
    ensures n == Quot(n, d) * d
  {
    MultipleIs(n, d);
    ProductIsMul(Quot(n, d), d);
  }

  /** Chunks of 16 bytes fill the mapped memory to the last byte. */
  lemma NarrowCount(c: Config, r: Region, n: nat)
    requires c.Legal() && c.size == 16 && Rem(r.mappedUser, USER_MAP_SIZE) == 0
    requires Product(n, 16) <= r.mappedUser < Product(n, 16) + 16
    ensures n == Quot(r.mappedUser, USER_MAP_SIZE) * STEP_CHUNKS
  {
    WholeSteps(r.mappedUser, USER_MAP_SIZE);
    ProductIsMul(n, 16);
  }

  lemma CarvedFits(c: Config, r: Region, newChunks: nat)
    requires c.Legal() && !Overflowable(c) && LayoutOk(c, r) && newChunks == NewChunks(c, r)
    requires Rem(r.mappedUser, USER_MAP_SIZE) == 0 && Rem(r.mappedMeta, META_MAP_SIZE) == 0
    requires r.allocatedMeta + Product(newChunks, c.metadataSize) <= r.mappedMeta
    ensures (Count(c, r) + newChunks) * COMPACT_PTR_BYTES <= c.FreeArraySize()
  {
    AdvanceKeeps(c, r, newChunks);
    var r1, n := Advance(c, r, newChunks), Count(c, r) + newChunks;
    if c.size + c.metadataSize >= 28 {
      WideChunksFit(c, r1);
    } else {
      QuotRem(r.mappedUser - r.allocatedUser, c.size);
      NarrowCount(c, r, n);
      var steps := Quot(r.mappedUser, USER_MAP_SIZE);
      WholeSteps(r.mappedUser, USER_MAP_SIZE);
      RoundUpLeast(Product(n, c.metadataSize), META_MAP_SIZE, r.mappedMeta);
      if steps >= StepsTooMany(c) { FootprintMono(c, StepsTooMany(c), steps); }
    }
  }

  lemma MapUserBounded(c: Config, r: Region, requested: nat, os: Os)
    requires c.Legal() && LayoutOk(c, r) && Bounded(c, r)
    ensures Bounded(c, MapUser(c, r, requested, os).0)
  {
    var total := r.allocatedUser + Product(requested, c.size);
    if total > r.mappedUser {
      RoundUpProps(total - r.mappedUser, USER_MAP_SIZE);
      MultipleAdd(r.mappedUser, RoundUp(total - r.mappedUser, USER_MAP_SIZE), USER_MAP_SIZE);
    }
  }

  lemma MapMetaBounded(c: Config, r: Region, newChunks: nat, os: Os)
    requires c.Legal() && LayoutOk(c, r) && Bounded(c, r)
    ensures Bounded(c, MapMeta(c, r, newChunks, os).0)
  {
    var total := r.allocatedMeta + Product(newChunks, c.metadataSize);
    if total > r.mappedMeta {
      RoundUpProps(total - r.mappedMeta, META_MAP_SIZE);
      MultipleAdd(r.mappedMeta, RoundUp(total - r.mappedMeta, META_MAP_SIZE), META_MAP_SIZE);
    }
  }

  lemma AddChunksBounded(c: Config, r: Region, newChunks: nat, os: Os)
    requires c.Legal() && !Overflowable(c) && LayoutOk(c, r) && Bounded(c, r)
    requires |r.free| <= Count(c, r) && newChunks == NewChunks(c, r)
    requires r.allocatedMeta + Product(newChunks, c.metadataSize) <= r.mappedMeta
    ensures var (r1, s) := AddChunks(c, r, newChunks, os); s != Fatal && Bounded(c, r1)
  {
    CarvedFits(c, r, newChunks);
    EnsureNotFatal(c, r, |r.free| + newChunks, os.freeArray);
    AddChunksEffect(c, r, newChunks, os);
  }

  /** The CHECK on the size of the free array holds in every population. */
  lemma FreeArrayNeverOverflows(c: Config, r: Region, requested: nat, os: Os)
    requires c.Legal() && !Overflowable(c) && LayoutOk(c, r) && Bounded(c, r) && |r.free| <= Count(c, r)
    ensures var (r1, s) := PopulateFreeArray(c, r, requested, os); s != Fatal && Bounded(c, r1)
  {
    var (r1, s1) := MapUser(c, r, requested, os);
    MapUserKeeps(c, r, requested, os);
    MapUserBounded(c, r, requested, os);
    if s1 == Done {
      var newChunks := NewChunks(c, r1);
      var (r2, s2) := MapMeta(c, r1, newChunks, os);
      MapMetaKeeps(c, r1, newChunks, os);
      MapMetaBounded(c, r1, newChunks, os);
      if s2 == Done { AddChunksBounded(c, r2, newChunks, os); }
    }
  }

  lemma FreeWithinCount(c: Config, maxCount: nat, s: System)
    requires c.Legal() && Inv(c, maxCount, s)
    ensures |s.region.free| + |Cached(s.caches)| + |s.used| == Count(c, s.region)
  {
    assert |Owned(s)| == |multiset(Grid(c.Scaled(), Count(c, s.region)))|;
  }

  lemma {:induction false} CachedAtLeast(caches: seq<Cache>, i: nat)
    requires i < |caches|
    ensures |caches[i].chunks| <= |Cached(caches)|
  {
    if i < |caches| - 1 { CachedAtLeast(caches[..|caches| - 1], i); }
  }

  lemma ReturnBounded(c: Config, r: Region, chunks: seq<nat>, granted: bool)
    requires c.Legal() && LayoutOk(c, r) && Bounded(c, r) && |r.free| + |chunks| <= Count(c, r)
    ensures var (r1, s) := ReturnToAllocator(c, r, chunks, granted); Bounded(c, r1) && (granted ==> s == Done)
  {
    EnsureNotFatal(c, r, |r.free| + |chunks|, granted);
  }

  lemma GetBounded(c: Config, r: Region, n: nat, os: Os)
    requires c.Legal() && !Overflowable(c) && LayoutOk(c, r) && Bounded(c, r) && |r.free| <= Count(c, r)
    ensures var (r1, chunks, s) := GetFromAllocator(c, r, n, os); s != Fatal && Bounded(c, r1)
  {
    RefilledEffect(c, r, n, os);
    if |r.free| < n { FreeArrayNeverOverflows(c, r, n - |r.free|, os); }
    var (r1, s) := Refilled(c, r, n, os);
    assert s != Fatal && Bounded(c, r1);
  }

  lemma MallocBounded(c: Config, maxCount: nat, s: System, i: nat, os: Os)
    requires c.Legal() && LegalMax(maxCount) && !Overflowable(c)
    requires Inv(c, maxCount, s) && Bounded(c, s.region) && i < |s.caches|
    ensures var s1 := Step(c, maxCount, s, Malloc(i, os)); s1.Some? && Bounded(c, s1.value.region)
  {
    FreeWithinCount(c, maxCount, s);
    if |s.caches[i].chunks| == 0 { GetBounded(c, s.region, InitCache(s.caches[i], maxCount).maxCount / 2, os); }
  }

  lemma FreeBounded(c: Config, maxCount: nat, s: System, i: nat, chunk: nat, granted: bool)
    requires c.Legal() && LegalMax(maxCount) && Inv(c, maxCount, s) && Bounded(c, s.region)
    requires i < |s.caches| && chunk in s.used
    ensures var s1 := Step(c, maxCount, s, Free(i, chunk, granted));
      (granted ==> s1.Some?) && (s1.Some? ==> Bounded(c, s1.value.region))
  {
    FreeWithinCount(c, maxCount, s);
    CachedAtLeast(s.caches, i);
    var k := InitCache(s.caches[i], maxCount);
    if |k.chunks| == k.maxCount {
      ReturnBounded(c, s.region, k.chunks[|k.chunks| - k.maxCount / 2..], granted);
    }
  }

  lemma DrainBounded(c: Config, maxCount: nat, s: System, i: nat, granted: bool)
    requires c.Legal() && Inv(c, maxCount, s) && Bounded(c, s.region) && i < |s.caches|
    ensures var s1 := Step(c, maxCount, s, DrainCache(i, granted));
      (granted ==> s1.Some?) && (s1.Some? ==> Bounded(c, s1.value.region))
  {
    FreeWithinCount(c, maxCount, s);
    CachedAtLeast(s.caches, i);
    ReturnBounded(c, s.region, s.caches[i].chunks[0..], granted);
  }

  /** What must not be refused: memory for the free array while chunks are given back. */
  predicate Granted(op: Op) {
    match op
    case Malloc(_, os) => true
    case Free(_, _, granted) => granted
    case DrainCache(_, granted) => granted
    case NewCache => true
  }

  lemma StepBounded(c: Config, maxCount: nat, s: System, op: Op)
    requires c.Legal() && LegalMax(maxCount) && !Overflowable(c)
    requires Inv(c, maxCount, s) && Bounded(c, s.region) && Enabled(s, op)
    ensures var s1 := Step(c, maxCount, s, op);
      (Granted(op) ==> s1.Some?) && (s1.Some? ==> Bounded(c, s1.value.region))
  {
    match op
    case Malloc(i, os) => MallocBounded(c, maxCount, s, i, os);
    case Free(i, chunk, granted) => FreeBounded(c, maxCount, s, i, chunk, granted);
    case DrainCache(i, granted) => DrainBounded(c, maxCount, s, i, granted);
    case NewCache =>
  }

  lemma {:induction false} RunsAreBounded(c: Config, maxCount: nat, states: seq<System>, ops: seq<Op>, n: nat)
    requires c.Legal() && LegalMax(maxCount) && !Overflowable(c)
    requires IsRun(c, maxCount, states, ops) && n < |states|
    ensures Bounded(c, states[n].region)
  {
    if n == 0 {
      FreshRegionOk(c);
    } else {
      RunsAreBounded(c, maxCount, states, ops, n - 1);
      ChunksAreConserved(c, maxCount, states, ops, n - 1);
      StepBounded(c, maxCount, states[n - 1], ops[n - 1]);
    }
  }

  /** In no run of such a class does an operation die, as long as the OS grants the free array
      its memory. */
  lemma OnlyTheOsKills(c: Config, maxCount: nat, states: seq<System>, ops: seq<Op>, op: Op)
    requires c.Legal() && LegalMax(maxCount) && !Overflowable(c)
    requires IsRun(c, maxCount, states, ops) && Enabled(states[|ops|], op) && Granted(op)
    ensures Step(c, maxCount, states[|ops|], op).Some?
  {
    RunsAreBounded(c, maxCount, states, ops, |ops|);
    ChunksAreConserved(c, maxCount, states, ops, |ops|);
    StepBounded(c, maxCount, states[|ops|], op);
  }

  // Otherwise it does: a run that carves one step too many and then frees every chunk.

  const GRANTED := Os(true, true, true)

  /** The region is carved to the end of its v-th step, with no more metadata than that takes. */
  ghost predicate Carved(c: Config, r: Region, v: nat)
    requires c.Legal()
  {
    && c.size == 16 && LayoutOk(c, r)
    && r.mappedUser == r.allocatedUser == v * USER_MAP_SIZE
    && r.mappedUser + r.mappedMeta == Footprint(c, v)
  }

  lemma CarvedCount(c: Config, r: Region, v: nat)
    requires c.Legal() && Carved(c, r, v)
    ensures Count(c, r) == v * STEP_CHUNKS
  {
    QuotRem(r.allocatedUser, 16);
    ProductIsMul(Count(c, r), 16);
  }

  lemma OneStep(c: Config, r: Region, v: nat, requested: nat)
    requires c.Legal() && Carved(c, r, v) && 0 < requested && requested * 16 <= USER_MAP_SIZE
    requires Footprint(c, v + 1) <= c.UserSpace()
    ensures MapUser(c, r, requested, GRANTED) == (r.(mappedUser := (v + 1) * USER_MAP_SIZE), Done)
    ensures NewChunks(c, r.(mappedUser := (v + 1) * USER_MAP_SIZE)) == STEP_CHUNKS
  {
    FootprintStep(c, v);
    ProductIsMul(requested, 16);
    CeilDivIs(requested * 16, USER_MAP_SIZE, 1);
    ProductOne(USER_MAP_SIZE);
    ProductIsMul(STEP_CHUNKS, 16);
    QuotOfProduct(STEP_CHUNKS, 16);
  }

  lemma FootprintStep(c: Config, v: nat)
    ensures Footprint(c, v) + USER_MAP_SIZE <= Footprint(c, v + 1)
  {
    FootprintMono(c, v, v + 1);
    var x, y := Product(v * STEP_CHUNKS, c.metadataSize), Product((v + 1) * STEP_CHUNKS, c.metadataSize);
    ProductMono(v * STEP_CHUNKS, (v + 1) * STEP_CHUNKS, c.metadataSize);
    RoundUpProps(y, META_MAP_SIZE);
    RoundUpLeast(x, META_MAP_SIZE, RoundUp(y, META_MAP_SIZE));
  }

  /** Rounding up from a multiple below ends where rounding the whole does. */
  lemma RoundUpFrom(m: nat, t: nat, d: nat)
    requires d > 0 && Rem(m, d) == 0 && m <= t
    ensures m + RoundUp(t - m, d) == RoundUp(t, d)
  {
    RoundUpProps(t, d);
    RoundUpProps(t - m, d);
    MultipleAdd(m, RoundUp(t - m, d), d);
    RoundUpLeast(t, d, m + RoundUp(t - m, d));
    MultipleSub(RoundUp(t, d), m, d);
    RoundUpLeast(t - m, d, RoundUp(t, d) - m);
  }

  lemma OneStepOfMeta(c: Config, r: Region, v: nat)
    requires c.Legal() && Carved(c, r, v) && Footprint(c, v + 1) <= c.UserSpace()
    ensures var (r1, s) := MapMeta(c, r.(mappedUser := (v + 1) * USER_MAP_SIZE), STEP_CHUNKS, GRANTED);
      && s == Done && r1 == r.(mappedUser := (v + 1) * USER_MAP_SIZE, mappedMeta := r1.mappedMeta)
      && r1.mappedUser + r1.mappedMeta == Footprint(c, v + 1)
      && r.allocatedMeta + Product(STEP_CHUNKS, c.metadataSize) <= r1.mappedMeta
  {
    CarvedCount(c, r, v);
    ProductAdd(v * STEP_CHUNKS, STEP_CHUNKS, c.metadataSize);
    MetaSteps(r.allocatedMeta, Product((v + 1) * STEP_CHUNKS, c.metadataSize), META_MAP_SIZE);
  }

  /** Mapping what is missing from one rounded size to a larger need gives the need rounded. */
  lemma MetaSteps(from: nat, to: nat, d: nat)
    requires d > 0 && from <= to
    ensures var m := RoundUp(from, d); m + (if to > m then RoundUp(to - m, d) else 0) == RoundUp(to, d) >= to
  {
    RoundUpProps(from, d);
    RoundUpProps(to, d);
    var m := RoundUp(from, d);
    if to > m {
      RoundUpFrom(m, to, d);
    } else {
      RoundUpLeast(to, d, m);
      RoundUpLeast(from, d, RoundUp(to, d));
    }
  }

  /** With room for one more step, a population carves it or fails the CHECK. */
  lemma PopulateStep(c: Config, r: Region, v: nat, requested: nat)
    requires c.Legal() && Carved(c, r, v) && 0 < requested && requested * 16 <= USER_MAP_SIZE
    requires Footprint(c, v + 1) <= c.UserSpace()
    ensures var (r1, s) := PopulateFreeArray(c, r, requested, GRANTED);
      s == Fatal || (s == Done && Carved(c, r1, v + 1) && |r1.free| == |r.free| + STEP_CHUNKS)
  {
    OneStep(c, r, v, requested);
    OneStepOfMeta(c, r, v);
    PopulateEffect(c, r, requested, GRANTED);
    ProductIsMul(STEP_CHUNKS, 16);
  }

  /** Half a cache fits one mapping step, as with any cache limit up to 2^18 bytes. */
  ghost predicate SmallCache(maxCount: nat) { LegalMax(maxCount) && maxCount / 2 * 16 <= USER_MAP_SIZE }

  /** One cache works on the region, which has some steps still to carve. */
  ghost predicate Growing(c: Config, maxCount: nat, s: System, v: nat)
    requires c.Legal()
  {
    Inv(c, maxCount, s) && |s.caches| == 1 && Carved(c, s.region, v)
  }

  lemma TakeCarved(c: Config, r: Region, n: nat)
    requires c.Legal() && n <= |r.free|
    ensures forall v :: Carved(c, r, v) ==> Carved(c, TakeLast(r, n), v)
  {
  }

  lemma GetStep(c: Config, r: Region, v: nat, n: nat)
    requires c.Legal() && Carved(c, r, v) && 0 < n && n * 16 <= USER_MAP_SIZE && Footprint(c, v + 1) <= c.UserSpace()
    ensures var (r1, chunks, s) := GetFromAllocator(c, r, n, GRANTED);
      s == Fatal || (s == Done && |chunks| == n && (Carved(c, r1, v) || Carved(c, r1, v + 1)))
  {
    var (r1, s) := Refilled(c, r, n, GRANTED);
    if |r.free| < n { PopulateStep(c, r, v, n - |r.free|); }
    assert s == Fatal || (s == Done && |r1.free| >= n && (Carved(c, r1, v) || Carved(c, r1, v + 1)));
    if s == Done { TakeCarved(c, r1, n); }
  }

  /** While there is room, each malloc succeeds or dies. */
  lemma MallocStep(c: Config, maxCount: nat, s: System, v: nat)
    requires c.Legal() && SmallCache(maxCount) && Growing(c, maxCount, s, v) && Footprint(c, v + 1) <= c.UserSpace()
    ensures var s1 := Step(c, maxCount, s, Malloc(0, GRANTED));
      s1.Some? ==>
        && |s1.value.used| == |s.used| + 1
        && (Growing(c, maxCount, s1.value, v) || Growing(c, maxCount, s1.value, v + 1))
  {
    MallocKeepsInv(c, maxCount, s, 0, GRANTED);
    if |s.caches[0].chunks| == 0 {
      GetStep(c, s.region, v, InitCache(s.caches[0], maxCount).maxCount / 2);
    }
  }

  /** From s these operations, with every mapping granted, end in the process's death. */
  ghost predicate Kills(c: Config, maxCount: nat, s: System, ops: seq<Op>)
    requires c.Legal()
    decreases |ops|
  {
    && ops != [] && Enabled(s, ops[0]) && AllGranted(ops[0])
    && var s1 := Step(c, maxCount, s, ops[0]);
       if s1.None? then |ops| == 1 else Kills(c, maxCount, s1.value, ops[1..])
  }

  predicate AllGranted(op: Op) {
    Granted(op) && (op.Malloc? ==> op.os == GRANTED)
  }

  lemma KillsFirst(c: Config, maxCount: nat, s: System, op: Op, rest: seq<Op>)
    requires c.Legal() && Enabled(s, op) && AllGranted(op)
    requires var s1 := Step(c, maxCount, s, op); s1.Some? ==> Kills(c, maxCount, s1.value, rest)
    ensures Kills(c, maxCount, s, if Step(c, maxCount, s, op).None? then [op] else [op] + rest)
  {
    assert ([op] + rest)[1..] == rest;
  }

  /** Once one step too many is carved and nothing is in use, draining the cache is fatal. */
  lemma DrainDies(c: Config, maxCount: nat, s: System, v: nat)
    requires c.Legal() && LegalMax(maxCount) && Growing(c, maxCount, s, v) && s.used == multiset{}
    requires v >= StepsTooMany(c)
    ensures Step(c, maxCount, s, DrainCache(0, true)).None?
  {
    var s1 := Step(c, maxCount, s, DrainCache(0, true));
    CarvedCount(c, s.region, v);
    if s1.Some? {
      StepKeepsInv(c, maxCount, s, DrainCache(0, true));
      FreeWithinCount(c, maxCount, s1.value);
      assert s1.value.caches[..0] == [];
      assert Cached(s1.value.caches) == Cached(s1.value.caches[..0]) + multiset(s1.value.caches[0].chunks);
      DrainCount(c, maxCount, s);
    }
  }

  lemma DrainCount(c: Config, maxCount: nat, s: System)
    requires c.Legal() && LegalMax(maxCount) && Inv(c, maxCount, s) && |s.caches| == 1
    ensures var s1 := Step(c, maxCount, s, DrainCache(0, true));
      s1.Some? ==> Count(c, s1.value.region) == Count(c, s.region)
  {
    if |s.caches[0].chunks| > 0 { DrainEffect(c, s.caches[0], s.region, |s.caches[0].chunks|, true); }
  }

  lemma DrainCarved(c: Config, k: Cache, r: Region, count: nat, v: nat)
    requires c.Legal() && Carved(c, r, v) && count <= |k.chunks|
    ensures var (k1, r1, s) := Drain(c, k, r, count, true); s == Done ==> Carved(c, r1, v)
  {
    ReturnEffect(c, r, k.chunks[|k.chunks| - count..], true);
  }

  lemma FreeStep(c: Config, maxCount: nat, s: System, v: nat, chunk: nat)
    requires c.Legal() && LegalMax(maxCount) && Growing(c, maxCount, s, v) && chunk in s.used
    ensures var s1 := Step(c, maxCount, s, Free(0, chunk, true));
      s1.Some? ==> Growing(c, maxCount, s1.value, v) && s1.value.used == s.used - multiset{chunk}
  {
    FreeKeepsInv(c, maxCount, s, 0, chunk, true);
    var k := InitCache(s.caches[0], maxCount);
    if |k.chunks| == k.maxCount { DrainCarved(c, k, s.region, k.maxCount / 2, v); }
  }

  lemma {:induction false} FreePhase(c: Config, maxCount: nat, s: System, v: nat) returns (ops: seq<Op>)
    requires c.Legal() && LegalMax(maxCount) && Growing(c, maxCount, s, v) && v >= StepsTooMany(c)
    ensures Kills(c, maxCount, s, ops)
    decreases |s.used|
  {
    var op, rest := DrainCache(0, true), [];
    if s.used == multiset{} {
      DrainDies(c, maxCount, s, v);
    } else {
      var chunk :| chunk in s.used;
      op := Free(0, chunk, true);
      FreeStep(c, maxCount, s, v, chunk);
      var s1 := Step(c, maxCount, s, op);
      if s1.Some? { rest := FreePhase(c, maxCount, s1.value, v); }
    }
    KillsFirst(c, maxCount, s, op, rest);
    ops := if Step(c, maxCount, s, op).None? then [op] else [op] + rest;
  }

  lemma {:induction false} MallocPhase(c: Config, maxCount: nat, s: System, v: nat) returns (ops: seq<Op>)
    requires c.Legal() && SmallCache(maxCount) && Overflowable(c)
    requires Growing(c, maxCount, s, v) && v <= StepsTooMany(c)
    ensures Kills(c, maxCount, s, ops)
    decreases StepsTooMany(c) * STEP_CHUNKS - |s.used|
  {
    if v == StepsTooMany(c) {
      ops := FreePhase(c, maxCount, s, v);
    } else {
      FootprintMono(c, v + 1, StepsTooMany(c));
      MallocStep(c, maxCount, s, v);
      var op, rest := Malloc(0, GRANTED), [];
      var s1 := Step(c, maxCount, s, op);
      FreeWithinCount(c, maxCount, s);
      CarvedCount(c, s.region, v);
      if s1.Some? {
        var v1 := if Growing(c, maxCount, s1.value, v) then v else v + 1;
        rest := MallocPhase(c, maxCount, s1.value, v1);
      }
      KillsFirst(c, maxCount, s, op, rest);
      ops := if s1.None? then [op] else [op] + rest;
    }
  }

  /** What Kills says, as a run and its last operation. */
  lemma {:induction false} KillingRun(c: Config, maxCount: nat, s: System, ops: seq<Op>) returns (states: seq<System>)
    requires c.Legal() && Kills(c, maxCount, s, ops)
    ensures |states| == |ops| && states[0] == s
    ensures forall i :: 0 <= i < |ops| ==> Enabled(states[i], ops[i]) && AllGranted(ops[i])
    ensures forall i :: 0 <= i < |ops| - 1 ==> Step(c, maxCount, states[i], ops[i]) == Some(states[i + 1])
    ensures Step(c, maxCount, states[|ops| - 1], ops[|ops| - 1]).None?
    decreases |ops|
  {
    states := [s];
    var s1 := Step(c, maxCount, s, ops[0]);
    if s1.Some? {
      var rest := KillingRun(c, maxCount, s1.value, ops[1..]);
      states := [s] + rest;
      forall i | 0 <= i < |ops|
        ensures Enabled(states[i], ops[i]) && AllGranted(ops[i])
        ensures i < |ops| - 1 ==> Step(c, maxCount, states[i], ops[i]) == Some(states[i + 1])
      {
        if i > 0 { assert states[i] == rest[i - 1] && ops[i] == ops[1..][i - 1]; }
      }
      assert states[|ops| - 1] == rest[|rest| - 1] && ops[|ops| - 1] == ops[1..][|rest| - 1];
    }
  }

  /** Some run ends in an operation that dies although the OS grants every mapping. */
  ghost predicate CheckFails(c: Config, maxCount: nat)
    requires c.Legal()
  {
    exists states, ops, op ::
      && IsRun(c, maxCount, states, ops) && Enabled(states[|ops|], op) && AllGranted(op)
      && Step(c, maxCount, states[|ops|], op).None?
  }

  const ONE_CACHE := System(FRESH, [EMPTY_CACHE], multiset{})

  lemma StartsGrowing(c: Config, maxCount: nat)
    requires c.Legal() && LegalMax(maxCount) && c.size == 16
    ensures Step(c, maxCount, INITIAL, NewCache) == Some(ONE_CACHE) && Growing(c, maxCount, ONE_CACHE, 0)
  {
    FreshRegionOk(c);
    assert IsRun(c, maxCount, [INITIAL], []);
    ChunksAreConserved(c, maxCount, [INITIAL], [], 0);
    assert INITIAL.caches + [EMPTY_CACHE] == [EMPTY_CACHE];
    StepKeepsInv(c, maxCount, INITIAL, NewCache);
  }

  lemma OverflowableRunDies(c: Config, maxCount: nat)
    requires c.Legal() && SmallCache(maxCount) && Overflowable(c)
    ensures CheckFails(c, maxCount)
  {
    StartsGrowing(c, maxCount);
    var tail := MallocPhase(c, maxCount, ONE_CACHE, 0);
    KillsFirst(c, maxCount, INITIAL, NewCache, tail);
    var ops := [NewCache] + tail;
    var states := KillingRun(c, maxCount, INITIAL, ops);
    assert IsRun(c, maxCount, states, ops[..|ops| - 1]);
  }

  /** The CHECK fails in some run exactly for 16-byte chunks of which one mapping step more than
      the free array lists fits the region. */
  lemma CheckFailsIffOverflowable(c: Config, maxCount: nat)
    requires c.Legal() && SmallCache(maxCount)
    ensures CheckFails(c, maxCount) <==> Overflowable(c)
  {
    if Overflowable(c) {
      OverflowableRunDies(c, maxCount);
    } else if CheckFails(c, maxCount) {
      var states, ops, op :| IsRun(c, maxCount, states, ops) && Enabled(states[|ops|], op) && AllGranted(op)
        && Step(c, maxCount, states[|ops|], op).None?;
      OnlyTheOsKills(c, maxCount, states, ops, op);
    }
  }

  /** In the smallest legal region that means up to six bytes of metadata per chunk. */
  lemma SmallestRegion(metadataSize: nat)
    ensures Config(21, metadataSize, 16).Legal()
    ensures Overflowable(Config(21, metadataSize, 16)) <==> metadataSize <= 6
  {
    var c, n := Config(21, metadataSize, 16), 5 * STEP_CHUNKS;
    assert Pow2(9) == 512;
    ShlPow(9, 9);
    assert Shl(512, 9) == 0x4_0000;
    assert Pow2(21) == 8 * Pow2(18);
    ConfigUnits(c);
    ProductComm(n, metadataSize);
    ProductIsMul(metadataSize, n);
    QuotOfProduct(8, META_MAP_SIZE);
    ProductIsMul(8, META_MAP_SIZE);
    RoundUpProps(metadataSize * n, META_MAP_SIZE);
    if metadataSize <= 6 { RoundUpLeast(metadataSize * n, META_MAP_SIZE, 8 * META_MAP_SIZE); }
  }
}
