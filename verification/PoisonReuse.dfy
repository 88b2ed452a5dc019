/** CQMSan's heap shadow (cqmsan_allocator.cpp and SetShadow of cqmsan_poisoning.cpp): what malloc,
    calloc, realloc and free do to it, and why skipping the part a previous free poisoned changes
    nothing. The allocator underneath is the caller: it says which chunk it hands out. */
module PoisonReuse {
  import A = Arith

  type Byte = bv8

  const POISON: Byte := 0xFF

  function Fill(s: seq<Byte>, lo: nat, n: nat, v: Byte): (r: seq<Byte>)
    requires lo + n <= |s|
    ensures |r| == |s|
  {
    seq(|s|, k requires 0 <= k < |s| => if lo <= k < lo + n then v else s[k])
  }

  function Copy(s: seq<Byte>, dst: nat, src: nat, n: nat): (r: seq<Byte>)
    requires dst + n <= |s| && src + n <= |s|
    ensures |r| == |s|
  {
    seq(|s|, k requires 0 <= k < |s| => if dst <= k < dst + n then s[src + (k - dst)] else s[k])
  }

  function Patch(s: seq<Byte>, lo: nat, data: seq<Byte>): (r: seq<Byte>)
    requires lo + |data| <= |s|
    ensures |r| == |s|
  {
    seq(|s|, k requires 0 <= k < |s| => if lo <= k < lo + |data| then data[k - lo] else s[k])
  }

  /** The metadata of a chunk and whether it is handed out. `cap` is the size the allocator
      really gave it. */
  datatype Chunk = Chunk(cap: nat, primary: bool, live: bool, requested: nat, poisoned: nat)

  datatype Flags = Flags(poisonInMalloc: bool, poisonInFree: bool, poisonReuse: bool)

  datatype Heap = Heap(shadow: seq<Byte>, chunks: map<nat, Chunk>)

  predicate Apart(a: nat, n: nat, b: nat, m: nat) { a + n <= b || b + m <= a }

  /** Chunks lie in the address range and apart, and the recorded part of every free primary
      chunk is poisoned. */
  ghost predicate Inv(h: Heap) {
    && (forall p :: p in h.chunks ==> ChunkOk(h, p))
    && (forall p, q :: p in h.chunks && q in h.chunks && p != q ==> Apart(p, h.chunks[p].cap, q, h.chunks[q].cap))
  }

  ghost predicate ChunkOk(h: Heap, p: nat)
    requires p in h.chunks
  {
    var c := h.chunks[p];
    && p + c.cap <= |h.shadow| && c.requested <= c.cap && c.poisoned <= c.cap && (c.live || c.primary)
    && (!c.live ==> forall k :: p <= k < p + c.poisoned ==> h.shadow[k] == POISON)
  }

  // What the allocator may do.

  /** The chunk the allocator hands out: a free one, or one it never handed out before. */
  ghost predicate MayHandOut(h: Heap, p: nat, cap: nat, primary: bool) {
    if p in h.chunks then
      !h.chunks[p].live && h.chunks[p].primary && primary && h.chunks[p].cap == cap
    else
      p + cap <= |h.shadow| && forall q :: q in h.chunks ==> Apart(p, cap, q, h.chunks[q].cap)
  }

  function HandOut(h: Heap, p: nat, cap: nat, primary: bool): Chunk {
    if p in h.chunks then h.chunks[p] else Chunk(cap, primary, false, 0, 0)
  }

  // The operations.

  /** `CQMsanAllocate` on the chunk the allocator returned; `zero` for calloc. */
  function Allocate(h: Heap, f: Flags, p: nat, cap: nat, primary: bool, size: nat, zero: bool): (r: Heap)
    requires size <= cap && p + cap <= |h.shadow|
    ensures |r.shadow| == |h.shadow|
  {
    var c := HandOut(h, p, cap, primary).(live := true, requested := size);
    if zero then Heap(Fill(h.shadow, p, size, 0), h.chunks[p := c.(poisoned := 0)])
    else if f.poisonInMalloc then
      var already := if f.poisonReuse && primary then c.poisoned else 0;
      Heap(if already < size then Fill(h.shadow, p + already, size - already, POISON) else h.shadow,
           h.chunks[p := c.(poisoned := size)])
    else Heap(h.shadow, h.chunks[p := c])
  }

  /** `CQMsanDeallocate`; the secondary's chunk is unmapped, which cleans its shadow. */
  function Deallocate(h: Heap, f: Flags, p: nat): (r: Heap)
    requires p in h.chunks && h.chunks[p].requested <= h.chunks[p].cap && p + h.chunks[p].cap <= |h.shadow|
    ensures |r.shadow| == |h.shadow|
  {
    var c := h.chunks[p];
    if !c.primary then Heap(Fill(h.shadow, p, c.cap, 0), h.chunks - {p})
    else if f.poisonInFree then
      Heap(Fill(h.shadow, p, c.requested, POISON), h.chunks[p := c.(live := false, requested := 0, poisoned := c.requested)])
    else Heap(h.shadow, h.chunks[p := c.(live := false, requested := 0, poisoned := 0)])
  }

  /** `CQMsanReallocate` when the new size still fits the chunk. */
  function ReallocInPlace(h: Heap, f: Flags, p: nat, size: nat): (r: Heap)
    requires p in h.chunks && size <= h.chunks[p].cap && p + h.chunks[p].cap <= |h.shadow|
    ensures |r.shadow| == |h.shadow|
  {
    var c := h.chunks[p];
    Heap(if size > c.requested && f.poisonInMalloc then Fill(h.shadow, p + c.requested, size - c.requested, POISON) else h.shadow,
         h.chunks[p := c.(requested := size)])
  }

  /** `CQMsanReallocate` when it moves to q: allocate, copy, free. */
  function ReallocMove(h: Heap, f: Flags, p: nat, size: nat, q: nat, cap: nat, primary: bool): (r: Heap)
    requires p in h.chunks && p != q && h.chunks[p].requested <= h.chunks[p].cap && p + h.chunks[p].cap <= |h.shadow|
    requires size <= cap && q + cap <= |h.shadow|
    ensures |r.shadow| == |h.shadow|
  {
    var h1 := Allocate(h, f, q, cap, primary, size, false);
    var h2 := h1.(shadow := Copy(h1.shadow, q, p, A.Min(size, h.chunks[p].requested)));
    Deallocate(h2, f, p)
  }

  /** What the program and the allocator do, one call or store at a time. A null result changes
      nothing and is not listed. */
  datatype Op =
    | Malloc(p: nat, cap: nat, primary: bool, size: nat, zero: bool)
    | Free(p: nat)
    | Realloc(p: nat, size: nat, q: nat, cap: nat, primary: bool)   // q, cap, primary: where it moves
    | Store(at: nat, shadow: seq<Byte>)                             // the shadow an instrumented store writes

  /** What a caller may ask: blocks it owns, and stores that do not touch a free chunk. */
  ghost predicate Allowed(h: Heap, op: Op) {
    match op
    case Malloc(p, cap, primary, size, _) => size <= cap && MayHandOut(h, p, cap, primary)
    case Free(p) => p in h.chunks && h.chunks[p].live
    case Realloc(p, size, q, cap, primary) =>
      && p in h.chunks && h.chunks[p].live && size > 0
      && (size > h.chunks[p].cap ==> size <= cap && MayHandOut(h, q, cap, primary))
    case Store(at, data) =>
      && at + |data| <= |h.shadow|
      && forall p :: p in h.chunks && !h.chunks[p].live ==> Apart(at, |data|, p, h.chunks[p].cap)
  }

  /** The chunks an operation touches lie in the address range. */
  predicate InRange(h: Heap, op: Op) {
    match op
    case Malloc(p, cap, _, _, _) => p + cap <= |h.shadow|
    case Free(p) => ChunkInRange(h, p)
    case Realloc(p, size, q, cap, _) =>
      ChunkInRange(h, p) && (p in h.chunks && size > h.chunks[p].cap ==> p != q && q + cap <= |h.shadow|)
    case Store(_, _) => true
  }

  predicate ChunkInRange(h: Heap, p: nat) {
    p in h.chunks ==> h.chunks[p].requested <= h.chunks[p].cap && p + h.chunks[p].cap <= |h.shadow|
  }

  lemma AllowedIsInRange(h: Heap, op: Op)
    requires Inv(h) && Allowed(h, op)
    ensures InRange(h, op)
  {
    match op
    case Malloc(p, cap, primary, size, zero) => HandedOutIsApart(h, p, cap, primary);
    case Free(p) => assert ChunkOk(h, p);
    case Realloc(p, size, q, cap, primary) =>
      assert ChunkOk(h, p);
      if size > h.chunks[p].cap { HandedOutIsApart(h, q, cap, primary); }
    case Store(_, _) =>
  }

  function Step(h: Heap, f: Flags, op: Op): (r: Heap)
    requires InRange(h, op) && Allowed(h, op)
    ensures |r.shadow| == |h.shadow|
  {
    match op
    case Malloc(p, cap, primary, size, zero) => Allocate(h, f, p, cap, primary, size, zero)
    case Free(p) => Deallocate(h, f, p)
    case Realloc(p, size, q, cap, primary) =>
      if size <= h.chunks[p].cap then ReallocInPlace(h, f, p, size) else ReallocMove(h, f, p, size, q, cap, primary)
    case Store(at, data) => h.(shadow := Patch(h.shadow, at, data))
  }

  // The invariant.

  /** Changing the shadow inside [lo, lo + n) and chunk p only, where p covers the change. */
  lemma OneChunkChanges(h: Heap, g: Heap, p: nat, lo: nat, n: nat)
    requires Inv(h) && |g.shadow| == |h.shadow|
    requires forall k :: 0 <= k < |h.shadow| && !(lo <= k < lo + n) ==> g.shadow[k] == h.shadow[k]
    requires p in g.chunks && p <= lo && lo + n <= p + g.chunks[p].cap
    requires g.chunks.Keys == h.chunks.Keys + {p}
    requires forall q :: q in h.chunks && q != p ==> g.chunks[q] == h.chunks[q] && Apart(p, g.chunks[p].cap, q, h.chunks[q].cap)
    requires ChunkOk(g, p)
    ensures Inv(g)
  {
  }

  lemma HandedOutIsApart(h: Heap, p: nat, cap: nat, primary: bool)
    requires Inv(h) && MayHandOut(h, p, cap, primary)
    ensures p + cap <= |h.shadow|
    ensures forall q :: q in h.chunks && q != p ==> Apart(p, cap, q, h.chunks[q].cap)
  {
  }

  lemma AllocateKeeps(h: Heap, f: Flags, p: nat, cap: nat, primary: bool, size: nat, zero: bool)
    requires Inv(h) && size <= cap && p + cap <= |h.shadow| && MayHandOut(h, p, cap, primary)
    ensures Inv(Allocate(h, f, p, cap, primary, size, zero))
  {
    HandedOutIsApart(h, p, cap, primary);
    if p in h.chunks { assert ChunkOk(h, p); }
    OneChunkChanges(h, Allocate(h, f, p, cap, primary, size, zero), p, p, size);
  }

  lemma DeallocateKeeps(h: Heap, f: Flags, p: nat)
    requires Inv(h) && p in h.chunks && h.chunks[p].live && ChunkOk(h, p)
    ensures Inv(Deallocate(h, f, p))
  {
    var c, g := h.chunks[p], Deallocate(h, f, p);
    if c.primary {
      OneChunkChanges(h, g, p, p, c.requested);
    } else {
      forall q | q in g.chunks ensures ChunkOk(g, q) { assert ChunkOk(h, q) && Apart(p, c.cap, q, h.chunks[q].cap); }
    }
  }

  lemma InPlaceKeeps(h: Heap, f: Flags, p: nat, size: nat)
    requires Inv(h) && p in h.chunks && h.chunks[p].live && size <= h.chunks[p].cap && ChunkOk(h, p)
    ensures Inv(ReallocInPlace(h, f, p, size))
  {
  }

  /** The state between the copy and the free of a moving realloc. */
  lemma CopyKeeps(h: Heap, f: Flags, p: nat, size: nat, q: nat, cap: nat, primary: bool)
    requires Inv(h) && p in h.chunks && h.chunks[p].live && ChunkOk(h, p) && size <= cap
    requires MayHandOut(h, q, cap, primary) && p != q && q + cap <= |h.shadow|
    ensures var h1 := Allocate(h, f, q, cap, primary, size, false);
      Inv(h1.(shadow := Copy(h1.shadow, q, p, A.Min(size, h.chunks[p].requested))))
  {
    var h1 := Allocate(h, f, q, cap, primary, size, false);
    AllocateKeeps(h, f, q, cap, primary, size, false);
    var n := A.Min(size, h.chunks[p].requested);
    assert ChunkOk(h1, q) && h1.chunks[q].live;
    HandedOutIsApart(h, q, cap, primary);
    OneChunkChanges(h1, h1.(shadow := Copy(h1.shadow, q, p, n)), q, q, n);
  }

  lemma MoveKeeps(h: Heap, f: Flags, p: nat, size: nat, q: nat, cap: nat, primary: bool)
    requires Inv(h) && p in h.chunks && h.chunks[p].live && ChunkOk(h, p) && size <= cap
    requires MayHandOut(h, q, cap, primary) && p != q && q + cap <= |h.shadow|
    ensures Inv(ReallocMove(h, f, p, size, q, cap, primary))
  {
    CopyKeeps(h, f, p, size, q, cap, primary);
    var h1 := Allocate(h, f, q, cap, primary, size, false);
    var h2 := h1.(shadow := Copy(h1.shadow, q, p, A.Min(size, h.chunks[p].requested)));
    assert ChunkOk(h2, p);
    DeallocateKeeps(h2, f, p);
  }

  lemma StoreKeeps(h: Heap, at: nat, data: seq<Byte>)
    requires Inv(h) && Allowed(h, Store(at, data))
    ensures Inv(h.(shadow := Patch(h.shadow, at, data)))
  {
  }

  lemma StepKeepsInv(h: Heap, f: Flags, op: Op)
    requires Inv(h) && Allowed(h, op)
    ensures InRange(h, op) && Inv(Step(h, f, op))
  {
    AllowedIsInRange(h, op);
    match op
    case Malloc(p, cap, primary, size, zero) =>
      HandedOutIsApart(h, p, cap, primary);
      AllocateKeeps(h, f, p, cap, primary, size, zero);
    case Free(p) =>
      assert ChunkOk(h, p);
      DeallocateKeeps(h, f, p);
    case Realloc(p, size, q, cap, primary) =>
      assert ChunkOk(h, p);
      if size <= h.chunks[p].cap {
        InPlaceKeeps(h, f, p, size);
      } else {
        HandedOutIsApart(h, q, cap, primary);
        MoveKeeps(h, f, p, size, q, cap, primary);
      }
    case Store(at, data) => StoreKeeps(h, at, data);
  }

  // The optimisation changes nothing.

  function Conservative(f: Flags): Flags { f.(poisonReuse := false) }

  /** On a chunk whose recorded part is poisoned, poisoning the rest poisons the block. */
  lemma AllocateSame(h: Heap, f: Flags, p: nat, cap: nat, primary: bool, size: nat, zero: bool)
    requires Inv(h) && size <= cap && p + cap <= |h.shadow| && MayHandOut(h, p, cap, primary)
    ensures Allocate(h, f, p, cap, primary, size, zero) == Allocate(h, Conservative(f), p, cap, primary, size, zero)
  {
  }

  lemma StepSame(h: Heap, f: Flags, op: Op)
    requires Inv(h) && Allowed(h, op)
    ensures InRange(h, op) && Step(h, f, op) == Step(h, Conservative(f), op)
  {
    AllowedIsInRange(h, op);
    match op
    case Malloc(p, cap, primary, size, zero) =>
      HandedOutIsApart(h, p, cap, primary);
      AllocateSame(h, f, p, cap, primary, size, zero);
    case Realloc(p, size, q, cap, primary) =>
      assert ChunkOk(h, p);
      if size > h.chunks[p].cap {
        HandedOutIsApart(h, q, cap, primary);
        AllocateSame(h, f, q, cap, primary, size, false);
      }
    case _ =>
  }

  /** The heaps of a run, from one without chunks. */
  ghost predicate IsRun(hs: seq<Heap>, ops: seq<Op>, f: Flags) {
    && |hs| == |ops| + 1 && hs[0].chunks == map[]
    && forall t :: 0 <= t < |ops| ==> Allowed(hs[t], ops[t]) && InRange(hs[t], ops[t]) && hs[t + 1] == Step(hs[t], f, ops[t])
  }

  /** Over every run, with any setting of the other two flags, the whole shadow is byte for byte
      what it is when malloc always poisons the whole block. */
  lemma {:induction false} ReuseRefinesRepoisoning(hs: seq<Heap>, gs: seq<Heap>, ops: seq<Op>, f: Flags, n: nat)
    requires IsRun(hs, ops, f) && IsRun(gs, ops, Conservative(f)) && hs[0] == gs[0] && n < |hs|
    ensures hs[n] == gs[n] && Inv(hs[n])
  {
    if n > 0 {
      ReuseRefinesRepoisoning(hs, gs, ops, f, n - 1);
      StepSame(hs[n - 1], f, ops[n - 1]);
      StepKeepsInv(hs[n - 1], f, ops[n - 1]);
    }
  }

  // What the calls promise about a block.

  ghost predicate All(s: seq<Byte>, lo: nat, hi: nat, v: Byte) {
    forall k :: lo <= k < hi && k < |s| ==> s[k] == v
  }

  /** The shadow and the record of every other chunk are as before. */
  ghost predicate OthersUntouched(h: Heap, g: Heap, p: nat) {
    forall q :: q in h.chunks && q != p ==> q in g.chunks && g.chunks[q] == h.chunks[q] && SameShadow(h, g, q, h.chunks[q].cap)
  }

  ghost predicate SameShadow(h: Heap, g: Heap, lo: nat, n: nat) {
    |g.shadow| == |h.shadow| && forall k :: lo <= k < lo + n && k < |h.shadow| ==> g.shadow[k] == h.shadow[k]
  }

  /** No shadow byte outside the range changed. */
  ghost predicate OnlyWithin(h: Heap, g: Heap, lo: nat, n: nat) {
    |g.shadow| == |h.shadow| && forall k :: 0 <= k < |h.shadow| && !(lo <= k < lo + n) ==> g.shadow[k] == h.shadow[k]
  }

  /** A malloced block is poisoned all over, a callocated one clean all over; without the flag malloc
      leaves the shadow alone. The record says how much of the block is known to be poison. */
  lemma FreshBlock(h: Heap, f: Flags, p: nat, cap: nat, primary: bool, size: nat, zero: bool)
    requires Inv(h) && Allowed(h, Malloc(p, cap, primary, size, zero))
    ensures InRange(h, Malloc(p, cap, primary, size, zero))
    ensures var g := Step(h, f, Malloc(p, cap, primary, size, zero));
      var record := if zero then 0 else if f.poisonInMalloc then size else if p in h.chunks then h.chunks[p].poisoned else 0;
      && g.chunks.Keys == h.chunks.Keys + {p} && g.chunks[p] == Chunk(cap, primary, true, size, record)
      && OthersUntouched(h, g, p) && OnlyWithin(h, g, p, size)
      && (zero ==> All(g.shadow, p, p + size, 0))
      && (!zero && f.poisonInMalloc ==> All(g.shadow, p, p + size, POISON))
      && (!zero && !f.poisonInMalloc ==> g.shadow == h.shadow)
  {
    HandedOutIsApart(h, p, cap, primary);
    if p in h.chunks { assert ChunkOk(h, p); }
  }

  /** A freed block of the primary is poisoned over what its owner had asked for, which is what the
      record says, and nothing behind that; without the flag the shadow stays and nothing is
      recorded. A block of the secondary reads clean all over and is gone. */
  lemma FreedBlock(h: Heap, f: Flags, p: nat)
    requires Inv(h) && Allowed(h, Free(p))
    ensures InRange(h, Free(p))
    ensures var g, c := Step(h, f, Free(p)), h.chunks[p];
      && OthersUntouched(h, g, p)
      && (c.primary && f.poisonInFree ==>
            && g.chunks.Keys == h.chunks.Keys && g.chunks[p] == Chunk(c.cap, true, false, 0, c.requested)
            && All(g.shadow, p, p + c.requested, POISON) && OnlyWithin(h, g, p, c.requested))
      && (c.primary && !f.poisonInFree ==>
            g.chunks.Keys == h.chunks.Keys && g.chunks[p] == Chunk(c.cap, true, false, 0, 0) && g.shadow == h.shadow)
      && (!c.primary ==>
            g.chunks.Keys == h.chunks.Keys - {p} && All(g.shadow, p, p + c.cap, 0) && OnlyWithin(h, g, p, c.cap))
  {
    assert ChunkOk(h, p);
  }

  /** Whether the operation hands out chunk p. */
  predicate HandsOut(h: Heap, op: Op, p: nat) {
    match op
    case Malloc(r, _, _, _, _) => r == p
    case Realloc(o, size, q, _, _) => q == p && o in h.chunks && size > h.chunks[o].cap
    case _ => false
  }

  /** An operation that does not hand out a free chunk leaves its record alone. */
  lemma FreeChunkStays(h: Heap, f: Flags, op: Op, p: nat)
    requires Inv(h) && Allowed(h, op) && p in h.chunks && !h.chunks[p].live && !HandsOut(h, op, p)
    ensures InRange(h, op) && p in Step(h, f, op).chunks && Step(h, f, op).chunks[p] == h.chunks[p]
  {
    AllowedIsInRange(h, op);
  }

  /** In every run a block freed under poison_in_free stays poisoned until its chunk is handed out
      again, whatever happens to the rest of the heap: a load through a dangling pointer is seen. */
  lemma {:induction false} FreedStaysPoisoned(hs: seq<Heap>, ops: seq<Op>, f: Flags, p: nat, t: nat, n: nat)
    requires IsRun(hs, ops, f) && t < n < |hs| && ops[t] == Free(p)
    requires p in hs[t].chunks && hs[t].chunks[p].primary && f.poisonInFree
    requires forall u :: t < u < n ==> !HandsOut(hs[u], ops[u], p)
    ensures Inv(hs[t]) && Inv(hs[n])
    ensures p in hs[n].chunks && hs[n].chunks[p] == Chunk(hs[t].chunks[p].cap, true, false, 0, hs[t].chunks[p].requested)
    ensures All(hs[n].shadow, p, p + hs[t].chunks[p].requested, POISON)
    decreases n
  {
    RunKeepsInv(hs, ops, f, t);
    RunKeepsInv(hs, ops, f, n);
    if n == t + 1 {
      FreedBlock(hs[t], f, p);
    } else {
      FreedStaysPoisoned(hs, ops, f, p, t, n - 1);
      FreeChunkStays(hs[n - 1], f, ops[n - 1], p);
      assert ChunkOk(hs[n], p);
    }
  }

  lemma {:induction false} RunKeepsInv(hs: seq<Heap>, ops: seq<Op>, f: Flags, n: nat)
    requires IsRun(hs, ops, f) && n < |hs|
    ensures Inv(hs[n])
  {
    if n > 0 {
      RunKeepsInv(hs, ops, f, n - 1);
      StepKeepsInv(hs[n - 1], f, ops[n - 1]);
    }
  }

  /** The first n shadow bytes of block r are what block p had before. */
  ghost predicate Carried(h: Heap, p: nat, g: Heap, r: nat, n: nat) {
    p + n <= |h.shadow| && r + n <= |g.shadow| && forall k :: r <= k < r + n ==> g.shadow[k] == h.shadow[p + (k - r)]
  }

  /** Growing or shrinking in place keeps the common part and poisons what is new. */
  lemma ResizedBlock(h: Heap, f: Flags, p: nat, size: nat)
    requires Inv(h) && p in h.chunks && h.chunks[p].live && size <= h.chunks[p].cap && ChunkOk(h, p)
    ensures var g, was := ReallocInPlace(h, f, p, size), h.chunks[p].requested;
      && g.chunks.Keys == h.chunks.Keys && g.chunks[p] == h.chunks[p].(requested := size) && OthersUntouched(h, g, p)
      && Carried(h, p, g, p, A.Min(was, size)) && OnlyWithin(h, g, p, size)
      && (f.poisonInMalloc ==> All(g.shadow, p + was, p + size, POISON)) && (!f.poisonInMalloc ==> g.shadow == h.shadow)
  {
    forall q | q in h.chunks && q != p ensures SameShadow(h, ReallocInPlace(h, f, p, size), q, h.chunks[q].cap) {
      assert Apart(p, h.chunks[p].cap, q, h.chunks[q].cap);
    }
  }

  /** The record of a block that realloc moved to. */
  ghost function Moved(h: Heap, f: Flags, q: nat, cap: nat, primary: bool, size: nat): Chunk {
    Chunk(cap, primary, true, size, if f.poisonInMalloc then size else if q in h.chunks then h.chunks[q].poisoned else 0)
  }

  lemma StillUntouched(h: Heap, g: Heap, g1: Heap, q: nat, cap: nat, n: nat)
    requires OthersUntouched(h, g, q) && g1.chunks == g.chunks && n <= cap && OnlyWithin(g, g1, q, n)
    requires forall r :: r in h.chunks && r != q ==> Apart(q, cap, r, h.chunks[r].cap)
    ensures OthersUntouched(h, g1, q)
  {
    forall r | r in h.chunks && r != q ensures SameShadow(h, g1, r, h.chunks[r].cap) {
      assert SameShadow(h, g, r, h.chunks[r].cap);
    }
  }

  /** Moving, up to the free of the old block. */
  lemma CopiedBlock(h: Heap, f: Flags, p: nat, size: nat, q: nat, cap: nat, primary: bool)
    requires Inv(h) && p in h.chunks && h.chunks[p].live && ChunkOk(h, p) && size <= cap
    requires MayHandOut(h, q, cap, primary) && p != q && q + cap <= |h.shadow|
    ensures var h1, n := Allocate(h, f, q, cap, primary, size, false), A.Min(size, h.chunks[p].requested);
      var h2 := h1.(shadow := Copy(h1.shadow, q, p, n));
      && h2.chunks.Keys == h.chunks.Keys + {q} && h2.chunks[q] == Moved(h, f, q, cap, primary, size) && OthersUntouched(h, h2, q)
      && Carried(h, p, h2, q, n) && (f.poisonInMalloc ==> All(h2.shadow, q + h.chunks[p].requested, q + size, POISON))
  {
    HandedOutIsApart(h, q, cap, primary);
    FreshBlock(h, f, q, cap, primary, size, false);
    var h1, n := Step(h, f, Malloc(q, cap, primary, size, false)), A.Min(size, h.chunks[p].requested);
    assert SameShadow(h, h1, p, h.chunks[p].cap);
    StillUntouched(h, h1, h1.(shadow := Copy(h1.shadow, q, p, n)), q, cap, n);
    BlockCopied(h, h1, p, size, q);
  }

  lemma BlockCopied(h: Heap, h1: Heap, p: nat, size: nat, q: nat)
    requires p in h.chunks && h.chunks[p].requested <= h.chunks[p].cap && p + h.chunks[p].cap <= |h.shadow|
    requires SameShadow(h, h1, p, h.chunks[p].cap) && q + size <= |h.shadow|
    ensures var n := A.Min(size, h.chunks[p].requested); var h2 := h1.(shadow := Copy(h1.shadow, q, p, n));
      && Carried(h, p, h2, q, n)
      && (All(h1.shadow, q, q + size, POISON) ==> All(h2.shadow, q + h.chunks[p].requested, q + size, POISON))
  {
  }

  lemma CarriedOn(h: Heap, p: nat, g: Heap, r: nat, n: nat, g1: Heap, size: nat, was: nat)
    requires Carried(h, p, g, r, n) && n <= size && SameShadow(g, g1, r, size)
    ensures Carried(h, p, g1, r, n)
    ensures All(g.shadow, r + was, r + size, POISON) ==> All(g1.shadow, r + was, r + size, POISON)
  {
  }

  /** So does moving, which frees the old block and leaves every third one alone. */
  lemma MovedBlock(h: Heap, f: Flags, p: nat, size: nat, q: nat, cap: nat, primary: bool)
    requires Inv(h) && p in h.chunks && h.chunks[p].live && ChunkOk(h, p) && size <= cap
    requires MayHandOut(h, q, cap, primary) && p != q && q + cap <= |h.shadow|
    ensures var g, was := ReallocMove(h, f, p, size, q, cap, primary), h.chunks[p].requested;
      && q in g.chunks && g.chunks[q] == Moved(h, f, q, cap, primary, size)
      && Carried(h, p, g, q, A.Min(was, size)) && (f.poisonInMalloc ==> All(g.shadow, q + was, q + size, POISON))
      && (p in g.chunks <==> h.chunks[p].primary) && (!h.chunks[p].primary ==> All(g.shadow, p, p + h.chunks[p].cap, 0))
      && (p in g.chunks ==> g.chunks[p] == Chunk(h.chunks[p].cap, true, false, 0, if f.poisonInFree then was else 0))
      && (p in g.chunks && f.poisonInFree ==> All(g.shadow, p, p + was, POISON))
      && (forall r :: r in h.chunks && r != p && r != q ==>
            r in g.chunks && g.chunks[r] == h.chunks[r] && SameShadow(h, g, r, h.chunks[r].cap))
  {
    HandedOutIsApart(h, q, cap, primary);
    var n := A.Min(size, h.chunks[p].requested);
    CopiedBlock(h, f, p, size, q, cap, primary);
    var h1 := Allocate(h, f, q, cap, primary, size, false);
    var h2 := h1.(shadow := Copy(h1.shadow, q, p, n));
    CopyKeeps(h, f, p, size, q, cap, primary);
    FreedBlock(h2, f, p);
    FreedElsewhere(h2, f, p, q, size);
    CarriedOn(h, p, h2, q, n, Deallocate(h2, f, p), size, h.chunks[p].requested);
  }

  /** Freeing leaves the shadow of another block alone. */
  lemma FreedElsewhere(h: Heap, f: Flags, p: nat, q: nat, n: nat)
    requires p in h.chunks && h.chunks[p].requested <= h.chunks[p].cap && p + h.chunks[p].cap <= |h.shadow|
    requires Apart(q, n, p, h.chunks[p].cap)
    ensures SameShadow(h, Deallocate(h, f, p), q, n)
  {
  }

  /** Such a store changes what malloc makes of the chunk exactly when it leaves a byte that is not
      poison in the part that both the last free recorded and the new block covers. */
  lemma DanglingStoreMattersIff(h: Heap, f: Flags, p: nat, at: nat, data: seq<Byte>, size: nat)
    requires Inv(h) && p in h.chunks && !h.chunks[p].live && size <= h.chunks[p].cap && p + h.chunks[p].cap <= |h.shadow|
    requires at + |data| <= |h.shadow| && f.poisonInMalloc && f.poisonReuse
    ensures var g, cap := h.(shadow := Patch(h.shadow, at, data)), h.chunks[p].cap;
      Allocate(g, f, p, cap, true, size, false) != Allocate(g, Conservative(f), p, cap, true, size, false) <==>
        exists k :: 0 <= k < |data| && p <= at + k < p + A.Min(h.chunks[p].poisoned, size) && data[k] != POISON
  {
    var g, c := h.(shadow := Patch(h.shadow, at, data)), h.chunks[p];
    assert ChunkOk(h, p);
    var fast, full := Allocate(g, f, p, c.cap, true, size, false), Allocate(g, Conservative(f), p, c.cap, true, size, false);
    var n := A.Min(c.poisoned, size);
    if k :| 0 <= k < |data| && p <= at + k < p + n && data[k] != POISON {
      assert g.shadow[at + k] == data[k] == fast.shadow[at + k] && full.shadow[at + k] == POISON;
    } else {
      forall i | p <= i < p + n ensures g.shadow[i] == POISON {
        if at <= i < at + |data| { assert data[i - at] == POISON; }
      }
      assert fast.shadow == full.shadow;
    }
  }

  /** A store through a dangling pointer is what the optimisation does not survive: after it the
      next block of that chunk is not poisoned all over. */
  lemma DanglingStoreBreaksReuse() returns (h: Heap, g: Heap)
    ensures Inv(h) && !Allowed(h, Store(0, [0])) && 1 <= |h.shadow|
    ensures g == h.(shadow := Patch(h.shadow, 0, [0]))
    ensures var f := Flags(true, true, true); var m := Malloc(0, 8, true, 8, false);
      Allowed(g, m) && !All(Allocate(g, f, 0, 8, true, 8, false).shadow, 0, 8, POISON)
  {
    h := Heap(seq(8, k => POISON), map[0 := Chunk(8, true, false, 0, 8)]);
    assert ChunkOk(h, 0);
    g := h.(shadow := Patch(h.shadow, 0, [0]));
    assert g.shadow[0] == 0 && |g.shadow| == 8;
    assert Allocate(g, Flags(true, true, true), 0, 8, true, 8, false).shadow == g.shadow;
  }

  // The code, on shadow memory changed in place.

  class Runtime {
    const pageSize: nat
    const threshold: nat              // clear_shadow_mmap_threshold
    const flags: Flags
    const shadow: array<Byte>
    var chunks: map<nat, Chunk>

    ghost predicate Valid() reads this, shadow {
      pageSize > 0 && A.Rem(shadow.Length, pageSize) == 0 && Inv(State())
    }

    ghost function State(): Heap reads this, shadow { Heap(shadow[..], chunks) }

    constructor (pages: nat, pageSize: nat, threshold: nat, flags: Flags)
      requires pageSize > 0
      ensures Valid() && fresh(shadow)
      ensures this.pageSize == pageSize && this.threshold == threshold && this.flags == flags
      ensures State() == Heap(seq(A.Product(pages, pageSize), k => 0), map[])
    {
      this.pageSize := pageSize;
      this.threshold := threshold;
      this.flags := flags;
      this.shadow := new Byte[A.Product(pages, pageSize)](k => 0);
      this.chunks := map[];
      A.QuotOfProduct(pages, pageSize);
    }

    method Memset(lo: nat, n: nat, v: Byte)
      requires lo + n <= shadow.Length
      modifies shadow
      ensures shadow[..] == Fill(old(shadow[..]), lo, n, v)
    {
      for i := 0 to n
        invariant forall k :: 0 <= k < shadow.Length ==> shadow[k] == if lo <= k < lo + i then v else old(shadow[k])
      {
        shadow[lo + i] := v;
      }
    }

    /** A fixed mapping over part of the shadow: whole pages, which read as zero afterwards. */
    method RemapPages(lo: nat, n: nat)
      requires pageSize > 0 && A.Rem(lo, pageSize) == 0 && lo + A.RoundUp(n, pageSize) <= shadow.Length
      modifies shadow
      ensures shadow[..] == Fill(old(shadow[..]), lo, A.RoundUp(n, pageSize), 0)
    {
      Memset(lo, A.RoundUp(n, pageSize), 0);
    }

    /** `SetShadow`: however it goes about it, exactly the range gets the value. */
    method SetShadow(lo: nat, size: nat, value: Byte)
      requires pageSize > 0 && lo + size <= shadow.Length
      modifies shadow
      ensures shadow[..] == Fill(old(shadow[..]), lo, size, value)
    {
      var hi := lo + size;
      if value != 0 || hi - lo < threshold {
        Memset(lo, size, value);
        return;
      }
      var pageBeg, pageEnd := A.RoundUp(lo, pageSize), A.RoundDown(hi, pageSize);
      A.RoundUpProps(lo, pageSize);
      A.RoundDownProps(hi, pageSize);
      if pageBeg >= pageEnd {
        Memset(lo, size, 0);
      } else {
        ghost var was := shadow[..];
        if pageBeg != lo { Memset(lo, pageBeg - lo, 0); }
        if pageEnd != hi { Memset(pageEnd, hi - pageEnd, 0); }
        assert shadow[..] == Fill(Fill(was, lo, pageBeg - lo, 0), pageEnd, hi - pageEnd, 0);
        A.MultipleSub(pageEnd, pageBeg, pageSize);
        A.RoundUpOfMultiple(pageEnd - pageBeg, pageSize);
        RemapPages(pageBeg, pageEnd - pageBeg);
      }
    }

    method CopyShadow(dst: nat, src: nat, n: nat)
      requires dst + n <= shadow.Length && src + n <= shadow.Length && Apart(dst, n, src, n)
      modifies shadow
      ensures shadow[..] == Copy(old(shadow[..]), dst, src, n)
    {
      for i := 0 to n
        invariant forall k :: 0 <= k < shadow.Length ==>
          shadow[k] == if dst <= k < dst + i then old(shadow[src + (k - dst)]) else old(shadow[k])
      {
        shadow[dst + i] := shadow[src + i];
      }
    }

    /** `CQMsanAllocate`, with the chunk the allocator returned. */
    method CQMsanAllocate(size: nat, zero: bool, p: nat, cap: nat, primary: bool)
      requires Valid() && Allowed(State(), Malloc(p, cap, primary, size, zero))
      modifies this`chunks, shadow
      ensures Valid() && old(InRange(State(), Malloc(p, cap, primary, size, zero)))
      ensures State() == Step(old(State()), flags, Malloc(p, cap, primary, size, zero))
    {
      StepKeepsInv(State(), flags, Malloc(p, cap, primary, size, zero));
      HandedOutIsApart(State(), p, cap, primary);
      if p in chunks { assert ChunkOk(State(), p); }
      var meta := if p in chunks then chunks[p] else Chunk(cap, primary, false, 0, 0);
      meta := meta.(live := true, requested := size);
      if zero {
        SetShadow(p, size, 0);
        meta := meta.(poisoned := 0);
      } else if flags.poisonInMalloc {
        var already := if flags.poisonReuse && primary then meta.poisoned else 0;
        if already < size { SetShadow(p + already, size - already, POISON); }
        meta := meta.(poisoned := size);
      }
      chunks := chunks[p := meta];
    }

    /** `CQMsanDeallocate`. */
    method CQMsanDeallocate(p: nat)
      requires Valid() && Allowed(State(), Free(p))
      modifies this`chunks, shadow
      ensures Valid() && old(InRange(State(), Free(p))) && State() == Step(old(State()), flags, Free(p))
    {
      StepKeepsInv(State(), flags, Free(p));
      assert ChunkOk(State(), p);
      var meta := chunks[p];
      var size := meta.requested;
      meta := meta.(requested := 0, poisoned := 0);
      if flags.poisonInFree && meta.primary {
        SetShadow(p, size, POISON);
        meta := meta.(poisoned := size);
      }
      if meta.primary {
        chunks := chunks[p := meta.(live := false)];
      } else {
        SetShadow(p, meta.cap, 0);
        chunks := chunks - {p};
      }
    }

    method Resize(p: nat, size: nat)
      requires Valid() && p in chunks && chunks[p].live && size <= chunks[p].cap && ChunkOk(State(), p)
      modifies this`chunks, shadow
      ensures Valid() && State() == ReallocInPlace(old(State()), flags, p, size)
    {
      InPlaceKeeps(State(), flags, p, size);
      var oldSize := chunks[p].requested;
      chunks := chunks[p := chunks[p].(requested := size)];
      if size > oldSize && flags.poisonInMalloc { SetShadow(p + oldSize, size - oldSize, POISON); }
    }

    /** `cqmsan_realloc` of a block; size 0 frees it. q, cap and primary are what the allocator
        returns if the block has to move. */
    method CQMsanRealloc(p: nat, size: nat, q: nat, cap: nat, primary: bool)
      requires Valid() && Allowed(State(), if size == 0 then Free(p) else Realloc(p, size, q, cap, primary))
      modifies this`chunks, shadow
      ensures Valid() && old(InRange(State(), if size == 0 then Free(p) else Realloc(p, size, q, cap, primary)))
      ensures State() == Step(old(State()), flags, if size == 0 then Free(p) else Realloc(p, size, q, cap, primary))
    {
      if size == 0 {
        CQMsanDeallocate(p);
        return;
      }
      assert ChunkOk(State(), p);
      var oldSize := chunks[p].requested;
      if size <= chunks[p].cap {
        Resize(p, size);
        return;
      }
      ghost var h := State();
      HandedOutIsApart(h, q, cap, primary);
      AllocateKeeps(h, flags, q, cap, primary, size, false);
      CQMsanAllocate(size, false, q, cap, primary);
      var n := A.Min(size, oldSize);
      CopyShadow(q, p, n);
      CopyKeeps(h, flags, p, size, q, cap, primary);
      CQMsanDeallocate(p);
    }
  }
}
