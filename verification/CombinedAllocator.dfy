/** Routing a request to the primary or the secondary allocator, and why the primary's chunks
    are aligned (sanitizer_allocator_combined.h). */
module CombinedAllocator {
  import opened Arith
  import opened SizeClassMap
  import opened RegionLayout

  const U64 := 0x1_0000_0000_0000_0000

  datatype Route = Overflow | Primary(classId: nat) | Secondary(size: nat)

  predicate CanAllocate(p: Params, size: nat, alignment: nat) {
    size <= p.MaxSize() && alignment <= p.MaxSize()
  }

  /** Where `Allocate` sends a request. The size is rounded up to the alignment only for the
      primary; the secondary aligns on its own. */
  function RouteOf(p: Params, request: nat, alignment: nat): Route
    requires p.Legal() && alignment > 0
  {
    var size := if request == 0 then 1 else request;
    if (size + alignment) % U64 < size then Overflow
    else
      var rounded := if alignment > 8 then RoundUp(size, alignment) else size;
      if CanAllocate(p, rounded, alignment) then Primary(p.ClassID(rounded)) else Secondary(size)
  }

  /** The space starts on a multiple of the largest class, and a region holds at least one
      chunk of it. */
  ghost predicate Hosts(s: Space, p: Params)
    requires p.Legal()
  {
    s.Legal() && Rem(s.beg, p.MaxSize()) == 0 && p.maxLog <= s.regionLog
  }

  /** Which allocator serves a request, in terms of the size r that has to fit: the request, or the
      next multiple of an alignment above 8. It is refused exactly if request and alignment do not
      add up in a machine word; otherwise the primary serves it, from the least class that holds r,
      exactly if some class does and no class is smaller than the alignment; the secondary gets the
      size that was asked for, not r. */
  lemma RouteIsExact(p: Params, request: nat, alignment: nat, r: nat)
    requires p.Legal() && request < U64 && 0 < alignment < U64
    requires var size := Max(request, 1);
      if alignment <= 8 then r == size else size <= r < size + alignment && Rem(r, alignment) == 0
    ensures var size, route, largest := Max(request, 1), RouteOf(p, request, alignment), p.LargestClassID();
      && (route == Overflow <==> size + alignment >= U64)
      && (route.Primary? <==> size + alignment < U64 && Max(r, alignment) <= p.Size(largest))
      && (route.Primary? ==>
            && route.classId <= largest && r <= p.Size(route.classId)
            && forall c: nat :: c < route.classId ==> p.Size(c) < r)
      && (route.Secondary? ==> route.size == size)
  {
    RouteIs(p, request, alignment, r);
    LargestSize(p);
    if r <= p.MaxSize() { LeastClass(p, r); }
  }

  lemma SumWraps(a: nat, b: nat)
    requires a < U64 && b < U64
    ensures (a + b) % U64 < a <==> a + b >= U64
  {
  }

  lemma RouteIs(p: Params, request: nat, alignment: nat, r: nat)
    requires p.Legal() && request < U64 && 0 < alignment < U64
    requires var size := Max(request, 1);
      if alignment <= 8 then r == size else size <= r < size + alignment && Rem(r, alignment) == 0
    ensures var size := Max(request, 1);
      RouteOf(p, request, alignment) ==
        if size + alignment >= U64 then Overflow
        else if Max(r, alignment) <= p.MaxSize() then Primary(p.ClassID(r))
        else Secondary(size)
  {
    var size := Max(request, 1);
    SumWraps(size, alignment);
    if alignment > 8 { RoundUpIs(size, alignment, r); }
  }

  lemma LeastClass(p: Params, r: nat)
    requires p.Legal() && r <= p.MaxSize()
    ensures var k := p.ClassID(r);
      k <= p.LargestClassID() && r <= p.Size(k) && forall c: nat :: c < k ==> p.Size(c) < r
  {
    ClassIDCovers(p, r);
    forall c: nat | c < p.ClassID(r) ensures p.Size(c) < r { LeastCoveringClass(p, r, c); }
  }

  function Max(a: nat, b: nat): nat { if a < b then b else a }

  /** The chosen class is a real one, large enough for the request. */
  lemma PrimaryClassFits(p: Params, request: nat, alignment: nat)
    requires p.Legal() && alignment > 0
    ensures var route := RouteOf(p, request, alignment);
      route.Primary? ==> 1 <= route.classId <= p.LargestClassID() && request <= p.Size(route.classId)
  {
    var size := if request == 0 then 1 else request;
    RoundUpProps(size, alignment);
    var rounded := if alignment > 8 then RoundUp(size, alignment) else size;
    if RouteOf(p, request, alignment).Primary? {
      ClassIDCovers(p, rounded);
      ProductZero(p.MinSize());
    }
  }

  lemma RegionBegAligned(s: Space, p: Params, classId: nat, k: nat)
    requires p.Legal() && Hosts(s, p) && k <= p.maxLog
    ensures Rem(s.RegionBeg(classId), Pow2(k)) == 0
  {
    Pow2Divides(k, p.maxLog);
    MultipleTrans(s.beg, p.MaxSize(), Pow2(k));
    Pow2Divides(k, s.regionLog);
    MultipleScale(s.RegionSize(), classId, Pow2(k));
    MultipleAdd(s.beg, Product(classId, s.RegionSize()), Pow2(k));
  }

  /** Every chunk the primary may return for a request with alignment 2^k above 8 is a
      multiple of that alignment: the CHECK after allocation cannot fail. */
  lemma PrimaryChunksAreAligned(p: Params, s: Space, request: nat, k: nat, chunk: nat)
    requires p.Legal() && Hosts(s, p) && Pow2(k) > 8
    requires RouteOf(p, request, Pow2(k)).Primary?
    ensures var c := RouteOf(p, request, Pow2(k)).classId;
      Rem(s.RegionBeg(c) + Product(chunk, p.Size(c)), Pow2(k)) == 0
  {
    var size := if request == 0 then 1 else request;
    var rounded := RoundUp(size, Pow2(k));
    var c := p.ClassID(rounded);
    RoundUpProps(size, Pow2(k));
    ClassSizeKeepsAlignment(p, rounded, k);
    MultipleScale(p.Size(c), chunk, Pow2(k));
    if p.maxLog < k { Pow2StrictMono(p.maxLog, k); }
    RegionBegAligned(s, p, c, k);
    MultipleAdd(s.RegionBeg(c), Product(chunk, p.Size(c)), Pow2(k));
  }

  /** Without a stronger request, chunks are aligned to the smallest class size. */
  lemma MallocAlignment(p: Params, s: Space, request: nat, alignment: nat, chunk: nat)
    requires p.Legal() && Hosts(s, p) && 0 < alignment <= 8
    requires p.minLog + (p.numBits - 1) <= p.midLog
    requires RouteOf(p, request, alignment).Primary?
    ensures var c := RouteOf(p, request, alignment).classId;
      Rem(s.RegionBeg(c) + Product(chunk, p.Size(c)), p.MinSize()) == 0
  {
    var size := if request == 0 then 1 else request;
    var c := p.ClassID(size);
    SizeIsMultipleOfMin(p, size);
    MultipleScale(p.Size(c), chunk, p.MinSize());
    RegionBegAligned(s, p, c, p.minLog);
    MultipleAdd(s.RegionBeg(c), Product(chunk, p.Size(c)), p.MinSize());
  }

  lemma SizeIsMultipleOfMin(p: Params, size: nat)
    requires p.Legal() && size <= p.MaxSize()
    requires p.minLog + (p.numBits - 1) <= p.midLog
    ensures Rem(p.Size(p.ClassID(size)), p.MinSize()) == 0
  {
    if size <= p.MidSize() {
      ClassIDLinear(p, size);
      ShlAligned(p.ClassID(size), p.minLog, p.minLog);
    } else {
      var l, h := ClassIDOctave(p, size);
      OctaveSize(p, l, h);
      ShlAligned(h, l - p.S(), p.minLog);
      Pow2Divides(p.minLog, l);
      MultipleAdd(Pow2(l), Shl(h, l - p.S()), p.MinSize());
    }
  }

  /** A chunk is freed into the allocator that served it: the primary recognises its own
      chunks, and decodes the class they came from. */
  lemma FreeFindsItsClass(p: Params, s: Space, classId: nat, chunk: nat)
    requires p.Legal() && Hosts(s, p) && s.numClasses == p.NumClasses()
    requires 1 <= classId <= p.LargestClassID()
    requires Product(chunk, p.Size(classId)) < s.RegionSize()
    ensures var a := s.RegionBeg(classId) + Product(chunk, p.Size(classId));
      s.PointerIsMine(a) && s.GetSizeClass(a) == classId
  {
    var off := Product(chunk, p.Size(classId));
    var a := s.RegionBeg(classId) + off;
    AddressDecodes(s, a, classId, off, 1);
    PointerIsMineIsRange(s, a);
    ProductMono(classId, s.Rounded(), s.RegionSize());
  }
}
