/** Addresses in the 64-bit primary allocator (sanitizer_allocator_primary64.h): which class,
    chunk and metadata slot an address belongs to. The space is a row of 2^classesLog regions
    of 2^regionLog bytes; `constant` says whether its start is a compile-time constant, which
    changes how the code finds a region. */
module RegionLayout {
  import opened Wrappers
  import opened Arith
  import opened RegionState

  datatype Space = Space(beg: nat, constant: bool, regionLog: nat, classesLog: nat, numClasses: nat, metadataSize: nat) {
    function RegionSize(): nat { Pow2(regionLog) }
    function Rounded(): nat { Pow2(classesLog) }  // kNumClassesRounded
    function SpaceSize(): nat { Product(Rounded(), RegionSize()) }
    function RegionBeg(classId: nat): nat { beg + Product(classId, RegionSize()) }

    /** What the code relies on: a constant start is a multiple of the region size. */
    predicate Legal() {
      && 21 <= regionLog <= 36
      && numClasses <= Rounded()
      && (constant ==> Rem(beg, RegionSize()) == 0)
    }

    predicate PointerIsMine(p: nat) {
      if constant && SpaceSize() > 0 && Rem(beg, SpaceSize()) == 0 then
        Quot(p, SpaceSize()) == Quot(beg, SpaceSize())
      else beg <= p < beg + SpaceSize()
    }

    function GetSizeClass(p: nat): nat
      requires p >= beg
    {
      if constant && SpaceSize() > 0 && Rem(beg, SpaceSize()) == 0 then Rem(Quot(p, RegionSize()), Rounded())
      else Rem(Quot(p - beg, RegionSize()), Rounded())
    }

    function GetRegionBegin(p: nat): nat
      requires p >= beg
    {
      if constant then RoundDown(p, RegionSize()) else RoundDown(p - beg, RegionSize()) + beg
    }

    function GetChunkIdx(p: nat, size: nat): nat
      requires p >= beg && size > 0
    {
      Quot(Rem(if constant then p else p - beg, RegionSize()), size)
    }

    function MetadataEnd(regionBeg: nat): nat
      requires regionLog >= 3
    {
      Pow2Mono(regionLog - 3, regionLog);
      regionBeg + RegionSize() - Pow2(regionLog - 3)
    }

    /** `size` is the chunk size of the class and `mappedUser` its region's mapped bytes. */
    function GetBlockBegin(p: nat, size: nat, mappedUser: nat): Option<nat>
      requires p >= beg
    {
      if GetSizeClass(p) >= numClasses || size == 0 then None
      else
        var start := Product(GetChunkIdx(p, size), size);
        if mappedUser >= start + size then Some(GetRegionBegin(p) + start) else None
    }

    function GetMetaData(p: nat, size: nat): int
      requires p >= beg && size > 0 && regionLog >= 3
    {
      MetadataEnd(RegionBeg(GetSizeClass(p))) - Product(1 + GetChunkIdx(p, size), metadataSize)
    }
  }

  /** An address at offset `off` of region `classId`. */
  ghost predicate At(s: Space, p: nat, classId: nat, off: nat) {
    && classId < s.Rounded() && off < s.RegionSize()
    && p == s.RegionBeg(classId) + off
  }

  /** The class index survives the shortcut for constant starts. */
  lemma ConstantClass(b: nat, classId: nat, n: nat)
    requires classId < n && Rem(b, n) == 0
    ensures Rem(b + classId, n) == classId
  {
    MultipleIs(b, n);
    QuotIs(b + classId, n, Quot(b, n));
  }

  lemma QuotOfMultiple(beg: nat, n: nat, r: nat)
    requires r > 0 && n > 0 && Product(n, r) > 0 && Rem(beg, Product(n, r)) == 0
    ensures Rem(beg, r) == 0 && Rem(Quot(beg, r), n) == 0
  {
    var k := Quot(beg, Product(n, r));
    MultipleIs(beg, Product(n, r));
    ProductAssoc(k, n, r);
    QuotOfProduct(Product(k, n), r);
    QuotOfProduct(k, n);
  }

  lemma RegionQuotient(s: Space, p: nat, classId: nat, off: nat)
    requires s.Legal() && At(s, p, classId, off)
    ensures Quot(p - s.beg, s.RegionSize()) == classId && Rem(p - s.beg, s.RegionSize()) == off
    ensures s.constant ==>
      Quot(p, s.RegionSize()) == Quot(s.beg, s.RegionSize()) + classId && Rem(p, s.RegionSize()) == off
  {
    var R := s.RegionSize();
    QuotIs(p - s.beg, R, classId);
    if s.constant {
      MultipleIs(s.beg, R);
      ProductAdd(Quot(s.beg, R), classId, R);
      QuotIs(p, R, Quot(s.beg, R) + classId);
    }
  }

  /** Both ways of finding class, region and chunk agree with where the address is. */
  lemma AddressDecodes(s: Space, p: nat, classId: nat, off: nat, size: nat)
    requires s.Legal() && At(s, p, classId, off) && size > 0
    ensures s.GetSizeClass(p) == classId
    ensures s.GetRegionBegin(p) == s.RegionBeg(classId)
    ensures s.GetChunkIdx(p, size) == Quot(off, size)
  {
    RegionQuotient(s, p, classId, off);
    ConstantClass(0, classId, s.Rounded());
    SpaceNotEmpty(s);
    if s.constant && Rem(s.beg, s.SpaceSize()) == 0 {
      QuotOfMultiple(s.beg, s.Rounded(), s.RegionSize());
      ConstantClass(Quot(s.beg, s.RegionSize()), classId, s.Rounded());
    }
  }

  /** The shortcut test for constant starts is the range test. */
  lemma PointerIsMineIsRange(s: Space, p: nat)
    ensures s.PointerIsMine(p) <==> s.beg <= p < s.beg + s.SpaceSize()
  {
    SpaceNotEmpty(s);
    if s.constant && Rem(s.beg, s.SpaceSize()) == 0 {
      var b := Quot(s.beg, s.SpaceSize());
      MultipleIs(s.beg, s.SpaceSize());
      QuotRem(p, s.SpaceSize());
      if s.beg <= p < s.beg + s.SpaceSize() { QuotIs(p, s.SpaceSize(), b); }
    }
  }

  lemma SpaceNotEmpty(s: Space)
    ensures s.SpaceSize() > 0
  {
    ProductMono(1, s.Rounded(), s.RegionSize());
  }

  /** The assumption on constant starts is needed: without it the code does not find even the
      first byte of a region. */
  lemma ConstantStartMustBeAligned(s: Space, classId: nat)
    requires s.constant
    ensures s.GetRegionBegin(s.RegionBeg(classId)) == s.RegionBeg(classId) <==> Rem(s.beg, s.RegionSize()) == 0
  {
    var R, p := s.RegionSize(), s.RegionBeg(classId);
    QuotOfProduct(classId, R);
    if Rem(s.beg, R) == 0 { MultipleAdd(s.beg, Product(classId, R), R); }
    if Rem(p, R) == 0 { MultipleSub(p, Product(classId, R), R); }
  }

  ghost predicate Describes(s: Space, c: Config) {
    c.Legal() && c.regionLog == s.regionLog && c.metadataSize == s.metadataSize
  }

  /** Every address of a mapped chunk leads to the chunk's start... */
  lemma BlockBeginInsideChunk(s: Space, c: Config, r: Region, p: nat, classId: nat, k: nat, off: nat)
    requires s.Legal() && Describes(s, c) && LayoutOk(c, r)
    requires classId < s.numClasses && At(s, p, classId, off)
    requires Product(k, c.size) <= off < Product(k + 1, c.size) <= r.mappedUser
    ensures s.GetBlockBegin(p, c.size, r.mappedUser) == Some(s.RegionBeg(classId) + Product(k, c.size))
  {
    AddressDecodes(s, p, classId, off, c.size);
    QuotIs(off, c.size, k);
  }

  /** ...and every address past the user memory, so all metadata and the free array, to none. */
  lemma BlockBeginOutsideUser(s: Space, c: Config, r: Region, p: nat, classId: nat, off: nat)
    requires s.Legal() && Describes(s, c) && LayoutOk(c, r)
    requires At(s, p, classId, off) && off >= c.UserSpace() - r.mappedMeta
    ensures s.GetBlockBegin(p, c.size, r.mappedUser) == None
  {
    AddressDecodes(s, p, classId, off, c.size);
    QuotRem(off, c.size);
  }

  lemma ChunkInUserSpace(c: Config, r: Region, k: nat)
    requires c.Legal() && LayoutOk(c, r) && k < Count(c, r)
    ensures Product(k, c.size) + c.size <= r.allocatedUser <= r.mappedUser <= c.UserSpace() <= c.RegionSize()
  {
    ProductMono(k, Count(c, r), c.size);
  }

  /** The metadata slot of a carved chunk, as offsets of its region: the k-th slot down from
      the free array, inside the mapped metadata. */
  lemma MetadataSlot(s: Space, c: Config, r: Region, p: nat, classId: nat, k: nat)
    requires s.Legal() && Describes(s, c) && LayoutOk(c, r)
    requires classId < s.numClasses && k < Count(c, r)
    requires p == s.RegionBeg(classId) + Product(k, c.size)
    ensures s.GetMetaData(p, c.size) == s.RegionBeg(classId) + c.UserSpace() - Product(k + 1, s.metadataSize)
    ensures Product(k + 1, s.metadataSize) <= r.mappedMeta
  {
    ChunkInUserSpace(c, r, k);
    AddressDecodes(s, p, classId, Product(k, c.size), c.size);
    QuotOfProduct(k, c.size);
    ProductMono(k + 1, Count(c, r), c.metadataSize);
  }

  /** User chunks, metadata slots and the free array of a reachable region never meet: for
      carved chunks j and k, chunk j ends before slot k starts, slot k ends at or before the
      free array, different slots are apart, and the free array ends within the region. */
  lemma RegionPartsAreDisjoint(s: Space, c: Config, r: Region, pj: nat, pk: nat, classId: nat, j: nat, k: nat)
    requires s.Legal() && Describes(s, c) && LayoutOk(c, r)
    requires classId < s.numClasses && j < Count(c, r) && k < Count(c, r)
    requires pj == s.RegionBeg(classId) + Product(j, c.size) && pk == s.RegionBeg(classId) + Product(k, c.size)
    ensures pj + c.size <= s.GetMetaData(pk, c.size)
    ensures s.GetMetaData(pk, c.size) + s.metadataSize <= s.MetadataEnd(s.RegionBeg(classId))
    ensures s.MetadataEnd(s.RegionBeg(classId)) + r.mappedFreeArray <= s.RegionBeg(classId + 1)
    ensures j < k ==> s.GetMetaData(pk, c.size) + s.metadataSize <= s.GetMetaData(pj, c.size)
    ensures j < k ==> pj + c.size <= pk
  {
    ChunkInUserSpace(c, r, j);
    MetadataSlot(s, c, r, pj, classId, j);
    MetadataSlot(s, c, r, pk, classId, k);
    if j < k {
      ProductMono(j + 1, k + 1, s.metadataSize);
      ProductMono(j, k, c.size);
    }
  }

  /** All regions of the space; class 0 has none. */
  ghost predicate SpaceOk(s: Space, cs: seq<Config>, rs: seq<Region>) {
    && s.Legal() && |cs| == |rs| == s.numClasses
    && forall a :: 0 < a < s.numClasses ==> Describes(s, cs[a]) && LayoutOk(cs[a], rs[a])
  }

  /** p is the k-th carved chunk of class a. */
  ghost predicate IsChunk(s: Space, cs: seq<Config>, rs: seq<Region>, p: nat, a: nat, k: nat)
    requires SpaceOk(s, cs, rs)
  {
    0 < a < s.numClasses && k < Count(cs[a], rs[a]) && p == s.RegionBeg(a) + Product(k, cs[a].size)
  }

  /** Chunk, slot and free array lie within the region of their class. */
  lemma PartsStayInRegion(s: Space, cs: seq<Config>, rs: seq<Region>, p: nat, a: nat, k: nat)
    requires SpaceOk(s, cs, rs) && IsChunk(s, cs, rs, p, a, k)
    ensures s.RegionBeg(a) <= p && p + cs[a].size <= s.GetMetaData(p, cs[a].size)
    ensures s.GetMetaData(p, cs[a].size) + s.metadataSize <= s.MetadataEnd(s.RegionBeg(a))
    ensures s.MetadataEnd(s.RegionBeg(a)) + rs[a].mappedFreeArray <= s.RegionBeg(a + 1)
  {
    RegionPartsAreDisjoint(s, cs[a], rs[a], p, p, a, k, k);
  }

  /** So the parts of two regions never meet: everything of the lower class ends before anything
      of the higher one begins. */
  lemma RegionsAreDisjoint(s: Space, cs: seq<Config>, rs: seq<Region>, pj: nat, a: nat, j: nat, pk: nat, b: nat, k: nat)
    requires SpaceOk(s, cs, rs) && IsChunk(s, cs, rs, pj, a, j) && IsChunk(s, cs, rs, pk, b, k) && a < b
    ensures pj + cs[a].size <= s.GetMetaData(pj, cs[a].size)
    ensures s.GetMetaData(pj, cs[a].size) + s.metadataSize <= s.MetadataEnd(s.RegionBeg(a))
    ensures s.MetadataEnd(s.RegionBeg(a)) + rs[a].mappedFreeArray <= s.RegionBeg(b) <= pk
    ensures pk + cs[b].size <= s.GetMetaData(pk, cs[b].size)
  {
    PartsStayInRegion(s, cs, rs, pj, a, j);
    PartsStayInRegion(s, cs, rs, pk, b, k);
    ProductMono(a + 1, b, s.RegionSize());
  }

  /** Different chunks of the space, of one class or of two, have different metadata, and the slots
      do not overlap. */
  lemma MetadataIsInjective(s: Space, cs: seq<Config>, rs: seq<Region>, pj: nat, a: nat, j: nat, pk: nat, b: nat, k: nat)
    requires SpaceOk(s, cs, rs) && s.metadataSize > 0
    requires IsChunk(s, cs, rs, pj, a, j) && IsChunk(s, cs, rs, pk, b, k)
    ensures var mj, mk := s.GetMetaData(pj, cs[a].size), s.GetMetaData(pk, cs[b].size);
      if pj == pk then a == b && j == k && mj == mk else mj + s.metadataSize <= mk || mk + s.metadataSize <= mj
  {
    if a < b {
      RegionsAreDisjoint(s, cs, rs, pj, a, j, pk, b, k);
    } else if b < a {
      RegionsAreDisjoint(s, cs, rs, pk, b, k, pj, a, j);
    } else if j < k {
      RegionPartsAreDisjoint(s, cs[a], rs[a], pj, pk, a, j, k);
    } else if k < j {
      RegionPartsAreDisjoint(s, cs[a], rs[a], pk, pj, a, k, j);
    }
  }

  // Compact pointers: 32-bit offsets in units of 16 bytes.

  const U32 := 0x1_0000_0000

  function PointerToCompactPtr(base: nat, p: nat): nat
    requires base <= p
  {
    (p - base) / 16 % U32
  }

  function CompactPtrToPointer(base: nat, compact: nat): nat {
    base + compact * 16
  }

  /** Chunk addresses round-trip: they are 16-byte units inside a region of at most 2^36. */
  lemma CompactPointersRoundTrip(s: Space, c: Config, r: Region, classId: nat, k: nat)
    requires s.Legal() && Describes(s, c) && LayoutOk(c, r) && k < Count(c, r)
    ensures var base := s.RegionBeg(classId);
      var p := base + Product(k, c.size);
      && CompactPtrToPointer(base, PointerToCompactPtr(base, p)) == p
      && PointerToCompactPtr(base, p) == Product(k, c.Scaled())
  {
    ConfigUnits(c);
    ScaleChunk(k, c.Scaled());
    ChunkInUserSpace(c, r, k);
    Pow2Mono(c.regionLog, 36);
    LargestRegion();
  }

  lemma LargestRegion()
    ensures Pow2(36) == 16 * U32
  {
    assert Pow2(9) == 512;
    ShlPow(9, 9);
    ShlPow(18, 9);
    ShlPow(27, 9);
    assert Shl(Shl(Shl(512, 9), 9), 9) == 16 * U32;
  }

  lemma {:induction false} ScaleChunk(k: nat, cs: nat)
    ensures Product(k, 16 * cs) == 16 * Product(k, cs)
  {
    if k > 0 { ScaleChunk(k - 1, cs); }
  }
}
