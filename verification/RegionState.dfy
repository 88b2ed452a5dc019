/** The state of one region of the 64-bit primary allocator and what its operations do to
    it (sanitizer_allocator_primary64.h: PopulateFreeArray, GetFromAllocator,
    ReturnToAllocator). A region is
      chunk 0 ... chunk N-1 <gap> metadata N-1 ... metadata 0, free array
    and the free array holds 32-bit compact pointers: offsets in units of 16 bytes. */
module RegionState {
  import opened Arith
  import opened PageGrid

  const USER_MAP_SIZE := 0x4_0000
  const META_MAP_SIZE := 0x1_0000
  const FREE_ARRAY_MAP_SIZE := 0x4_0000
  const COMPACT_PTR_BYTES := 4

  /** Template parameters of the allocator, and the chunk size of the region's class. */
  datatype Config = Config(regionLog: nat, metadataSize: nat, size: nat) {
    predicate Legal() {
      && 21 <= regionLog <= 36
      && 0 < size <= RegionSize() && size % 16 == 0
    }

    function RegionSize(): nat { Pow2(regionLog) }

    /** One eighth of the region. */
    function FreeArraySize(): nat requires regionLog >= 3 { Pow2(regionLog - 3) }

    /** Room for user chunks and metadata together. */
    function UserSpace(): nat
      requires regionLog >= 3
    {
      assert RegionSize() >= FreeArraySize() by { Pow2Mono(regionLog - 3, regionLog); }
      RegionSize() - FreeArraySize()
    }

    function Scaled(): nat { size / 16 }
  }

  datatype Region = Region(
    free: seq<nat>, mappedFreeArray: nat, allocatedUser: nat, allocatedMeta: nat,
    mappedUser: nat, mappedMeta: nat, exhausted: bool, nAllocated: nat, nFreed: nat)

  const FRESH := Region([], 0, 0, 0, 0, 0, false, 0, 0)

  /** Whether the OS grants each of the mapping requests an operation may make. */
  datatype Os = Os(user: bool, meta: bool, freeArray: bool)

  datatype Status = Done | OutOfMemory | Fatal

  function EnsureFreeArraySpace(c: Config, r: Region, count: nat, granted: bool): (Region, Status)
    requires c.Legal()
  {
    var needed := count * COMPACT_PTR_BYTES;
    if r.mappedFreeArray < needed then
      var mapped := RoundUp(needed, FREE_ARRAY_MAP_SIZE);
      if mapped > c.FreeArraySize() then (r, Fatal)
      else if !granted then (r, OutOfMemory)
      else (r.(mappedFreeArray := mapped), Done)
    else (r, Done)
  }

  predicate IsRegionExhausted(c: Config, r: Region, additional: nat)
    requires c.Legal()
  {
    r.mappedUser + r.mappedMeta + additional > c.UserSpace()
  }

  /** The fresh chunks, highest first, so that the lowest is handed out first. */
  function FreshChunks(c: Config, allocatedUser: nat, count: nat): (s: seq<nat>)
    ensures |s| == count
  {
    seq(count, j requires 0 <= j < count => (allocatedUser + Product(count - 1 - j, c.size)) / 16)
  }

  /** Maps user memory when the request does not fit what is mapped. */
  function MapUser(c: Config, r: Region, requested: nat, os: Os): (Region, Status)
    requires c.Legal()
  {
    var total := r.allocatedUser + Product(requested, c.size);
    if total > r.mappedUser then
      var more := RoundUp(total - r.mappedUser, USER_MAP_SIZE);
      if IsRegionExhausted(c, r, more) then (r.(exhausted := true), OutOfMemory)
      else if !os.user then (r, OutOfMemory)
      else (r.(mappedUser := r.mappedUser + more), Done)
    else (r, Done)
  }

  function NewChunks(c: Config, r: Region): nat
    requires c.Legal()
  {
    if r.mappedUser < r.allocatedUser then 0 else Quot(r.mappedUser - r.allocatedUser, c.size)
  }

  function MapMeta(c: Config, r: Region, newChunks: nat, os: Os): (Region, Status)
    requires c.Legal()
  {
    var total := r.allocatedMeta + Product(newChunks, c.metadataSize);
    if total > r.mappedMeta then
      var more := RoundUp(total - r.mappedMeta, META_MAP_SIZE);
      if IsRegionExhausted(c, r, more) then (r.(exhausted := true), OutOfMemory)
      else if !os.meta then (r, OutOfMemory)
      else (r.(mappedMeta := r.mappedMeta + more), Done)
    else (r, Done)
  }

  function Publish(c: Config, r: Region, newChunks: nat): Region {
    r.(free := r.free + FreshChunks(c, r.allocatedUser, newChunks),
       allocatedUser := r.allocatedUser + Product(newChunks, c.size),
       allocatedMeta := r.allocatedMeta + Product(newChunks, c.metadataSize),
       exhausted := false)
  }

  /** With user memory and metadata mapped: room in the free array, then the chunks. */
  function AddChunks(c: Config, r: Region, newChunks: nat, os: Os): (Region, Status)
    requires c.Legal()
  {
    var (r1, s) := EnsureFreeArraySpace(c, r, |r.free| + newChunks, os.freeArray);
    if s != Done then (r1, s) else (Publish(c, r1, newChunks), Done)
  }

  function AddMetaAndChunks(c: Config, r: Region, os: Os): (Region, Status)
    requires c.Legal()
  {
    var newChunks := NewChunks(c, r);
    var (r1, s) := MapMeta(c, r, newChunks, os);
    if s != Done then (r1, s) else AddChunks(c, r1, newChunks, os)
  }

  function PopulateFreeArray(c: Config, r: Region, requested: nat, os: Os): (Region, Status)
    requires c.Legal()
  {
    var (r1, s) := MapUser(c, r, requested, os);
    if s != Done then (r1, s) else AddMetaAndChunks(c, r1, os)
  }

  /** Grows the free array when it holds fewer than n chunks. */
  function Refilled(c: Config, r: Region, n: nat, os: Os): (Region, Status)
    requires c.Legal()
  {
    if |r.free| < n then PopulateFreeArray(c, r, n - |r.free|, os) else (r, Done)
  }

  function TakeLast(r: Region, n: nat): Region
    requires n <= |r.free|
  {
    r.(free := r.free[..|r.free| - n], nAllocated := r.nAllocated + n)
  }

  /** The last n entries of the free array, after growing it if they are not there. */
  function GetFromAllocator(c: Config, r: Region, n: nat, os: Os): (Region, seq<nat>, Status)
    requires c.Legal()
  {
    var (r1, s) := Refilled(c, r, n, os);
    if s != Done then (r1, [], s)
    else if |r1.free| < n then (r1, [], Fatal)
    else (TakeLast(r1, n), r1.free[|r1.free| - n..], Done)
  }

  function ReturnToAllocator(c: Config, r: Region, chunks: seq<nat>, granted: bool): (Region, Status)
    requires c.Legal()
  {
    var (r1, s) := EnsureFreeArraySpace(c, r, |r.free| + |chunks|, granted);
    if s != Done then (r1, Fatal)
    else (r1.(free := r1.free + chunks, nFreed := r1.nFreed + |chunks|), Done)
  }

  // What every reachable region satisfies.

  ghost predicate LayoutOk(c: Config, r: Region)
    requires c.Legal()
  {
    && r.allocatedUser == Product(Count(c, r), c.size)
    && r.allocatedMeta == Product(Count(c, r), c.metadataSize)
    && r.allocatedUser <= r.mappedUser
    && r.allocatedMeta <= r.mappedMeta
    && r.mappedUser + r.mappedMeta <= c.UserSpace()
    && |r.free| * COMPACT_PTR_BYTES <= r.mappedFreeArray <= c.FreeArraySize()
  }

  /** How many chunks the region has carved out. */
  function Count(c: Config, r: Region): nat
    requires c.Legal()
  {
    Quot(r.allocatedUser, c.size)
  }

  lemma FreshRegionOk(c: Config)
    requires c.Legal()
    ensures LayoutOk(c, FRESH) && Count(c, FRESH) == 0
  {
  }

  lemma ConfigUnits(c: Config)
    requires c.Legal()
    ensures c.size == 16 * c.Scaled() && c.Scaled() > 0
    ensures c.UserSpace() == 7 * c.FreeArraySize()
    ensures Rem(c.FreeArraySize(), FREE_ARRAY_MAP_SIZE) == 0
  {
    assert Pow2(c.regionLog - 1) == 4 * c.FreeArraySize();
    assert c.RegionSize() == 8 * c.FreeArraySize();
    FreeArrayUnit(c.regionLog - 3);
  }

  lemma FreeArrayUnit(k: nat)
    requires k >= 18
    ensures Rem(Pow2(k), FREE_ARRAY_MAP_SIZE) == 0
  {
    assert Pow2(9) == 512;
    ShlPow(9, 9);
    assert Shl(512, 9) == FREE_ARRAY_MAP_SIZE;
    Pow2Divides(18, k);
  }

  lemma EnsureKeeps(c: Config, r: Region, count: nat, granted: bool)
    requires c.Legal() && LayoutOk(c, r)
    ensures var (r1, s) := EnsureFreeArraySpace(c, r, count, granted);
      && LayoutOk(c, r1) && r1 == r.(mappedFreeArray := r1.mappedFreeArray)
      && (s == Done ==> count * COMPACT_PTR_BYTES <= r1.mappedFreeArray)
  {
    RoundUpProps(count * COMPACT_PTR_BYTES, FREE_ARRAY_MAP_SIZE);
  }

  lemma MapUserKeeps(c: Config, r: Region, requested: nat, os: Os)
    requires c.Legal() && LayoutOk(c, r)
    ensures var (r1, s) := MapUser(c, r, requested, os);
      && LayoutOk(c, r1)
      && r1 == r.(mappedUser := r1.mappedUser, exhausted := r1.exhausted)
      && r.mappedUser <= r1.mappedUser
      && (s == Done ==> NewChunks(c, r1) >= requested)
  {
    var total := r.allocatedUser + Product(requested, c.size);
    if total > r.mappedUser { RoundUpProps(total - r.mappedUser, USER_MAP_SIZE); }
    var (r1, s) := MapUser(c, r, requested, os);
    if s == Done { QuotLe(r1.mappedUser - r1.allocatedUser, c.size, requested); }
  }

  lemma MapMetaKeeps(c: Config, r: Region, newChunks: nat, os: Os)
    requires c.Legal() && LayoutOk(c, r)
    ensures var (r1, s) := MapMeta(c, r, newChunks, os);
      && LayoutOk(c, r1)
      && r1 == r.(mappedMeta := r1.mappedMeta, exhausted := r1.exhausted)
      && (s == Done ==> r.allocatedMeta + Product(newChunks, c.metadataSize) <= r1.mappedMeta)
  {
    var total := r.allocatedMeta + Product(newChunks, c.metadataSize);
    if total > r.mappedMeta { RoundUpProps(total - r.mappedMeta, META_MAP_SIZE); }
  }

  lemma PublishKeeps(c: Config, r: Region, newChunks: nat)
    requires c.Legal() && LayoutOk(c, r)
    requires newChunks == NewChunks(c, r)
    requires r.allocatedMeta + Product(newChunks, c.metadataSize) <= r.mappedMeta
    requires (|r.free| + newChunks) * COMPACT_PTR_BYTES <= r.mappedFreeArray
    ensures LayoutOk(c, Publish(c, r, newChunks))
    ensures Count(c, Publish(c, r, newChunks)) == Count(c, r) + newChunks
  {
    AdvanceKeeps(c, r, newChunks);
  }

  lemma AddChunksEffect(c: Config, r: Region, newChunks: nat, os: Os)
    requires c.Legal() && LayoutOk(c, r)
    requires newChunks == NewChunks(c, r)
    requires r.allocatedMeta + Product(newChunks, c.metadataSize) <= r.mappedMeta
    ensures var (r1, s) := AddChunks(c, r, newChunks, os);
      && LayoutOk(c, r1)
      && r1.nAllocated == r.nAllocated && r1.nFreed == r.nFreed
      && (if s == Done then
            Count(c, r1) == Count(c, r) + newChunks
            && r1.free == r.free + FreshChunks(c, r.allocatedUser, newChunks)
          else r1.free == r.free && r1.allocatedUser == r.allocatedUser)
  {
    var (r1, s) := EnsureFreeArraySpace(c, r, |r.free| + newChunks, os.freeArray);
    EnsureKeeps(c, r, |r.free| + newChunks, os.freeArray);
    if s == Done { PublishKeeps(c, r1, newChunks); }
  }

  /** What one call does to the chunks: nothing, or it appends the next `added` of the grid. */
  ghost predicate Grows(c: Config, r: Region, r1: Region, s: Status, least: nat)
    requires c.Legal()
  {
    && LayoutOk(c, r1)
    && r1.nAllocated == r.nAllocated && r1.nFreed == r.nFreed
    && Count(c, r1) >= Count(c, r)
    && r1.free == r.free + FreshChunks(c, r.allocatedUser, Count(c, r1) - Count(c, r))
    && (if s == Done then Count(c, r1) >= Count(c, r) + least else Count(c, r1) == Count(c, r))
  }

  lemma AddMetaEffect(c: Config, r: Region, os: Os)
    requires c.Legal() && LayoutOk(c, r)
    ensures var (r1, s) := AddMetaAndChunks(c, r, os); Grows(c, r, r1, s, NewChunks(c, r))
  {
    NoFreshChunks(c, r.allocatedUser);
    var newChunks := NewChunks(c, r);
    var (r1, s) := MapMeta(c, r, newChunks, os);
    MapMetaKeeps(c, r, newChunks, os);
    if s == Done { AddChunksEffect(c, r1, newChunks, os); }
  }

  /** No mapping ever shrinks, and each grows only if its own request was granted. */
  ghost predicate MapsOnlyGranted(r: Region, r1: Region, os: Os) {
    && (r1.mappedUser == r.mappedUser || (os.user && r1.mappedUser > r.mappedUser))
    && (r1.mappedMeta == r.mappedMeta || (os.meta && r1.mappedMeta > r.mappedMeta))
    && (r1.mappedFreeArray == r.mappedFreeArray || (os.freeArray && r1.mappedFreeArray > r.mappedFreeArray))
  }

  lemma PopulateMapsGranted(c: Config, r: Region, requested: nat, os: Os)
    requires c.Legal() && LayoutOk(c, r)
    ensures MapsOnlyGranted(r, PopulateFreeArray(c, r, requested, os).0, os)
  {
    var (r1, s) := MapUser(c, r, requested, os);
    MapUserKeeps(c, r, requested, os);
    if s == Done {
      var (r2, s2) := MapMeta(c, r1, NewChunks(c, r1), os);
      MapMetaKeeps(c, r1, NewChunks(c, r1), os);
      if s2 == Done {
        RoundUpProps((|r2.free| + NewChunks(c, r1)) * COMPACT_PTR_BYTES, FREE_ARRAY_MAP_SIZE);
      }
    }
  }

  /** Populating either adds exactly the chunks that follow the ones already carved, or
      leaves every chunk where it was; the layout bounds survive in both cases. */
  lemma PopulateEffect(c: Config, r: Region, requested: nat, os: Os)
    requires c.Legal() && LayoutOk(c, r)
    ensures var (r1, s) := PopulateFreeArray(c, r, requested, os);
      && Grows(c, r, r1, s, requested) && MapsOnlyGranted(r, r1, os)
      && (s != Done ==> r1.free == r.free && r1.allocatedUser == r.allocatedUser)
  {
    PopulateMapsGranted(c, r, requested, os);
    NoFreshChunks(c, r.allocatedUser);
    var (r1, s) := MapUser(c, r, requested, os);
    MapUserKeeps(c, r, requested, os);
    if s == Done { AddMetaEffect(c, r1, os); }
  }

  // Which memory a population maps, and when it succeeds.

  /** Where the end of a mapping stands once `need` bytes are mapped: it stays if they are, and
      otherwise moves on by the fewest whole units, counted from `base`. */
  ghost predicate Covers(mapped: nat, need: nat, base: nat, unit: nat, after: nat) {
    if need <= mapped then after == mapped
    else base <= need <= after < need + unit && Rem(after - base, unit) == 0
  }

  lemma CoversIsRoundUp(mapped: nat, need: nat, base: nat, unit: nat, after: nat)
    requires unit > 0 && mapped < need && Covers(mapped, need, base, unit, after)
    ensures after == base + RoundUp(need - base, unit)
  {
    RoundUpIs(need - base, unit, after - base);
  }

  /** The state behind a population that maps user memory up to u, metadata up to m and the free
      array up to a, and what decides how far it gets. */
  ghost predicate PopulatedTo(c: Config, r: Region, os: Os, u: nat, m: nat, a: nat, n: nat, r1: Region, s: Status)
    requires c.Legal()
  {
    var userFits, metaFits, fits := u + r.mappedMeta <= c.UserSpace(), u + m <= c.UserSpace(), a <= c.FreeArraySize();
    var user := u == r.mappedUser || (userFits && os.user);
    var meta := user && (m == r.mappedMeta || (metaFits && os.meta));
    && (s == Done <==> meta && (a == r.mappedFreeArray || (fits && os.freeArray)))
    && (s == Fatal <==> meta && a != r.mappedFreeArray && !fits)
    && r1.mappedUser == (if user then u else r.mappedUser)
    && r1.mappedMeta == (if meta then m else r.mappedMeta)
    && r1.mappedFreeArray == (if s == Done then a else r.mappedFreeArray)
    && (if s == Done then
          && r1.free == r.free + FreshChunks(c, r.allocatedUser, n) && Count(c, r1) == Count(c, r) + n
          && r1.allocatedUser <= u < r1.allocatedUser + c.size && !r1.exhausted
        else
          && r1.free == r.free && r1.allocatedUser == r.allocatedUser && r1.allocatedMeta == r.allocatedMeta
          && r1.exhausted == (r.exhausted || (u != r.mappedUser && !userFits) || (user && m != r.mappedMeta && !metaFits)))
  }

  /** A population in terms of the layout alone. Let u, m and a be where the three mappings have to
      end so that the chunks asked for, the metadata of all n chunks that then fit and the list of
      all free chunks are covered. Each mapping moves there only if its own request was granted
      and fits; the population succeeds exactly when every request it needed was granted and
      fitted, kills the process exactly when the free array alone does not fit, and otherwise
      carves nothing. */
  lemma PopulateIsExact(c: Config, r: Region, requested: nat, os: Os, u: nat, m: nat, a: nat, n: nat)
    requires c.Legal() && LayoutOk(c, r)
    requires Covers(r.mappedUser, r.allocatedUser + Product(requested, c.size), r.mappedUser, USER_MAP_SIZE, u)
    requires Product(n, c.size) <= u - r.allocatedUser < Product(n, c.size) + c.size
    requires Covers(r.mappedMeta, r.allocatedMeta + Product(n, c.metadataSize), r.mappedMeta, META_MAP_SIZE, m)
    requires Covers(r.mappedFreeArray, (|r.free| + n) * COMPACT_PTR_BYTES, 0, FREE_ARRAY_MAP_SIZE, a)
    ensures var (r1, s) := PopulateFreeArray(c, r, requested, os); PopulatedTo(c, r, os, u, m, a, n, r1, s)
  {
    var (r1, s1) := MapUser(c, r, requested, os);
    MapUserKeeps(c, r, requested, os);
    MapUserIsExact(c, r, requested, os, u);
    if s1 == Done {
      QuotIs(u - r.allocatedUser, c.size, n);
      AddMetaIsExact(c, r1, os, m, a, n);
    }
  }

  /** The same from mapped user memory on. */
  lemma AddMetaIsExact(c: Config, r: Region, os: Os, m: nat, a: nat, n: nat)
    requires c.Legal() && LayoutOk(c, r) && n == NewChunks(c, r)
    requires Covers(r.mappedMeta, r.allocatedMeta + Product(n, c.metadataSize), r.mappedMeta, META_MAP_SIZE, m)
    requires Covers(r.mappedFreeArray, (|r.free| + n) * COMPACT_PTR_BYTES, 0, FREE_ARRAY_MAP_SIZE, a)
    ensures var (r1, s) := AddMetaAndChunks(c, r, os); PopulatedTo(c, r, os, r.mappedUser, m, a, n, r1, s)
  {
    var (r1, s) := MapMeta(c, r, n, os);
    MapMetaKeeps(c, r, n, os);
    MapMetaIsExact(c, r, n, os, m);
    if s == Done {
      AddChunksEffect(c, r1, n, os);
      AddChunksIsExact(c, r1, n, os, a);
    }
  }

  lemma MapUserIsExact(c: Config, r: Region, requested: nat, os: Os, u: nat)
    requires c.Legal() && Covers(r.mappedUser, r.allocatedUser + Product(requested, c.size), r.mappedUser, USER_MAP_SIZE, u)
    ensures var (r1, s) := MapUser(c, r, requested, os);
      && (s == Done <==> u == r.mappedUser || (u + r.mappedMeta <= c.UserSpace() && os.user)) && s != Fatal
      && r1.mappedUser == (if s == Done then u else r.mappedUser)
      && r1.exhausted == (r.exhausted || (u != r.mappedUser && u + r.mappedMeta > c.UserSpace()))
  {
    var need := r.allocatedUser + Product(requested, c.size);
    if need > r.mappedUser { CoversIsRoundUp(r.mappedUser, need, r.mappedUser, USER_MAP_SIZE, u); }
  }

  lemma MapMetaIsExact(c: Config, r: Region, n: nat, os: Os, m: nat)
    requires c.Legal() && Covers(r.mappedMeta, r.allocatedMeta + Product(n, c.metadataSize), r.mappedMeta, META_MAP_SIZE, m)
    ensures var (r1, s) := MapMeta(c, r, n, os);
      && (s == Done <==> m == r.mappedMeta || (r.mappedUser + m <= c.UserSpace() && os.meta)) && s != Fatal
      && r1.mappedMeta == (if s == Done then m else r.mappedMeta)
      && r1.exhausted == (r.exhausted || (m != r.mappedMeta && r.mappedUser + m > c.UserSpace()))
  {
    var need := r.allocatedMeta + Product(n, c.metadataSize);
    if need > r.mappedMeta { CoversIsRoundUp(r.mappedMeta, need, r.mappedMeta, META_MAP_SIZE, m); }
  }

  lemma AddChunksIsExact(c: Config, r: Region, n: nat, os: Os, a: nat)
    requires c.Legal() && LayoutOk(c, r) && n == NewChunks(c, r)
    requires r.allocatedMeta + Product(n, c.metadataSize) <= r.mappedMeta
    requires Covers(r.mappedFreeArray, (|r.free| + n) * COMPACT_PTR_BYTES, 0, FREE_ARRAY_MAP_SIZE, a)
    ensures var (r1, s) := AddChunks(c, r, n, os); var fits := a <= c.FreeArraySize();
      && (s == Done <==> a == r.mappedFreeArray || (fits && os.freeArray))
      && (s == Fatal <==> a != r.mappedFreeArray && !fits)
      && r1.mappedFreeArray == (if s == Done then a else r.mappedFreeArray)
      && r1.mappedUser == r.mappedUser && r1.mappedMeta == r.mappedMeta
      && (if s == Done then r1.allocatedUser <= r.mappedUser < r1.allocatedUser + c.size && !r1.exhausted
          else r1 == r)
  {
    var need := (|r.free| + n) * COMPACT_PTR_BYTES;
    if need > r.mappedFreeArray { CoversIsRoundUp(r.mappedFreeArray, need, 0, FREE_ARRAY_MAP_SIZE, a); }
    QuotRem(r.mappedUser - r.allocatedUser, c.size);
  }

  lemma RefilledEffect(c: Config, r: Region, n: nat, os: Os)
    requires c.Legal() && LayoutOk(c, r)
    ensures var (r1, s) := Refilled(c, r, n, os);
      Grows(c, r, r1, s, 0) && (s == Done ==> |r1.free| >= n)
  {
    NoFreshChunks(c, r.allocatedUser);
    if |r.free| < n { PopulateEffect(c, r, n - |r.free|, os); }
  }

  lemma NoFreshChunks(c: Config, allocatedUser: nat)
    ensures FreshChunks(c, allocatedUser, 0) == []
  {
  }

  ghost function Advance(c: Config, r: Region, newChunks: nat): Region {
    r.(allocatedUser := r.allocatedUser + Product(newChunks, c.size),
       allocatedMeta := r.allocatedMeta + Product(newChunks, c.metadataSize))
  }

  lemma AdvanceKeeps(c: Config, r: Region, newChunks: nat)
    requires c.Legal() && LayoutOk(c, r) && newChunks == NewChunks(c, r)
    requires r.allocatedMeta + Product(newChunks, c.metadataSize) <= r.mappedMeta
    ensures LayoutOk(c, Advance(c, r, newChunks))
    ensures Count(c, Advance(c, r, newChunks)) == Count(c, r) + newChunks
  {
    var n, r1 := Count(c, r), Advance(c, r, newChunks);
    ProductAdd(n, newChunks, c.size);
    ProductAdd(n, newChunks, c.metadataSize);
    QuotOfProduct(n + newChunks, c.size);
    QuotRem(r.mappedUser - r.allocatedUser, c.size);
  }

  /** What a request for n chunks does: it hands out the last n free ones, after the region
      may have carved more, or nothing. */
  ghost predicate Gives(c: Config, r: Region, n: nat, r1: Region, chunks: seq<nat>, s: Status)
    requires c.Legal()
  {
    && LayoutOk(c, r1)
    && r1.nFreed == r.nFreed && r1.nAllocated == r.nAllocated + |chunks|
    && Count(c, r1) >= Count(c, r)
    && r1.free + chunks == r.free + FreshChunks(c, r.allocatedUser, Count(c, r1) - Count(c, r))
    && (if s == Done then |chunks| == n else chunks == [])
  }

  lemma TakeGives(c: Config, r: Region, n: nat, r1: Region)
    requires c.Legal() && Grows(c, r, r1, Done, 0) && |r1.free| >= n
    ensures Gives(c, r, n, TakeLast(r1, n), r1.free[|r1.free| - n..], Done)
  {
    assert r1.free == r1.free[..|r1.free| - n] + r1.free[|r1.free| - n..];
  }

  lemma NothingGives(c: Config, r: Region, n: nat, r1: Region, s: Status)
    requires c.Legal() && Grows(c, r, r1, s, 0) && s != Done
    ensures Gives(c, r, n, r1, [], s)
  {
    assert r1.free + [] == r1.free;
  }

  lemma GetEffect(c: Config, r: Region, n: nat, os: Os)
    requires c.Legal() && LayoutOk(c, r)
    ensures var (r1, chunks, s) := GetFromAllocator(c, r, n, os);
      && Gives(c, r, n, r1, chunks, s)
      && (if |r.free| < n then s == PopulateFreeArray(c, r, n - |r.free|, os).1
          else s == Done && Count(c, r1) == Count(c, r) && r1.mappedUser == r.mappedUser)
  {
    RefilledEffect(c, r, n, os);
    var (r1, s) := Refilled(c, r, n, os);
    if s == Done { TakeGives(c, r, n, r1); } else { NothingGives(c, r, n, r1, s); }
  }

  lemma ReturnEffect(c: Config, r: Region, chunks: seq<nat>, granted: bool)
    requires c.Legal() && LayoutOk(c, r)
    ensures var (r1, s) := ReturnToAllocator(c, r, chunks, granted);
      && Count(c, r1) == Count(c, r) && r1.allocatedUser == r.allocatedUser
      && (s == Done ==>
            && LayoutOk(c, r1) && r1.free == r.free + chunks
            && r1.nFreed == r.nFreed + |chunks| && r1.nAllocated == r.nAllocated)
  {
    EnsureKeeps(c, r, |r.free| + |chunks|, granted);
  }

  /** Returning chunks succeeds exactly when the list of free chunks is mapped or its mapping, up to
      a, fits and is granted; the process dies otherwise. */
  lemma ReturnIsExact(c: Config, r: Region, chunks: seq<nat>, granted: bool, a: nat)
    requires c.Legal()
    requires Covers(r.mappedFreeArray, (|r.free| + |chunks|) * COMPACT_PTR_BYTES, 0, FREE_ARRAY_MAP_SIZE, a)
    ensures var (r1, s) := ReturnToAllocator(c, r, chunks, granted);
      && s == (if a == r.mappedFreeArray || (a <= c.FreeArraySize() && granted) then Done else Fatal)
      && (s == Done ==> r1 == r.(free := r.free + chunks, nFreed := r.nFreed + |chunks|, mappedFreeArray := a))
  {
    var need := (|r.free| + |chunks|) * COMPACT_PTR_BYTES;
    if need > r.mappedFreeArray { CoversIsRoundUp(r.mappedFreeArray, need, 0, FREE_ARRAY_MAP_SIZE, a); }
  }
}
