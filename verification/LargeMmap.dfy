/** The secondary allocator: one mmap per block, a header page in front of it, and an array
    of headers searched in two ways (sanitizer_allocator_secondary.h). */
module LargeMmap {
  import opened Wrappers
  import opened Arith
  import HeapSort

  const U64 := 0x1_0000_0000_0000_0000

  /** What a header records, with the address it sits at. */
  datatype Mapping = Mapping(addr: nat, mapBeg: nat, mapSize: nat, size: nat) {
    function MapEnd(): nat { mapBeg + mapSize }
  }

  // Sizes and placement.

  /** `RoundUpMapSize` and the alignment surcharge, in 64-bit arithmetic. */
  function MapSize(size: nat, alignment: nat, pageSize: nat): nat
    requires pageSize > 0
  {
    var rounded := RoundDown((size + pageSize - 1) % U64, pageSize);
    (rounded + pageSize + (if alignment > pageSize then alignment else 0)) % U64
  }

  /** The same sum over the integers. */
  ghost function TrueMapSize(size: nat, alignment: nat, pageSize: nat): nat
    requires pageSize > 0
  {
    RoundUp(size, pageSize) + pageSize + (if alignment > pageSize then alignment else 0)
  }

  lemma RoundDownIsRoundUp(size: nat, pageSize: nat)
    requires pageSize > 0
    ensures RoundDown(size + pageSize - 1, pageSize) == RoundUp(size, pageSize)
  {
    QuotRem(size + pageSize - 1, pageSize);
  }

  /** The test `map_size < size` catches every wrap of the size computation and nothing else. */
  lemma OverflowCheckIsExact(size: nat, alignment: nat, pageSize: nat)
    requires 0 < pageSize <= U64 / 16 && alignment <= U64 / 2 && size < U64
    ensures MapSize(size, alignment, pageSize) >= size <==> TrueMapSize(size, alignment, pageSize) < U64
    ensures MapSize(size, alignment, pageSize) >= size ==>
      MapSize(size, alignment, pageSize) == TrueMapSize(size, alignment, pageSize)
  {
    RoundDownIsRoundUp(size, pageSize);
    RoundUpProps(size, pageSize);
    var sum := size + pageSize - 1;
    assert sum % U64 == if sum >= U64 then sum - U64 else sum;
    if sum >= U64 { SmallRoundsToZero(sum - U64, pageSize); }
    var total := TrueMapSize(size, alignment, pageSize);
    assert total % U64 == if total >= U64 then total - U64 else total;
  }

  lemma SmallRoundsToZero(x: nat, pageSize: nat)
    requires x < pageSize
    ensures RoundDown(x, pageSize) == 0
  {
  }

  /** Where the user block starts inside a fresh mapping. */
  function Place(mapBeg: nat, alignment: nat, pageSize: nat): nat
    requires alignment > 0
  {
    var res := mapBeg + pageSize;
    var off := Rem(res, alignment);
    if off != 0 then res + (alignment - off) else res
  }

  /** The CHECKs after placement hold: the block is aligned to the request and to the page, its
      header page precedes it inside the mapping, and it ends inside the mapping. */
  lemma PlacementIsAlignedAndFits(mapBeg: nat, size: nat, k: nat, pageLog: nat)
    requires Rem(mapBeg, Pow2(pageLog)) == 0
    ensures var res := Place(mapBeg, Pow2(k), Pow2(pageLog));
      && Rem(res, Pow2(k)) == 0 && Rem(res, Pow2(pageLog)) == 0
      && mapBeg + Pow2(pageLog) <= res
      && res + size <= mapBeg + TrueMapSize(size, Pow2(k), Pow2(pageLog))
  {
    var A, P := Pow2(k), Pow2(pageLog);
    var base := mapBeg + P;
    QuotOfProduct(1, P);
    MultipleAdd(mapBeg, P, P);
    RoundUpProps(size, P);
    if k <= pageLog {
      Pow2Divides(k, pageLog);
      MultipleTrans(base, P, A);
      Pow2Mono(k, pageLog);
    } else {
      Pow2Divides(pageLog, k);
      Pow2StrictMono(pageLog, k);
      NextMultiple(base, A);
      MultipleTrans(Place(mapBeg, A, P), A, P);
    }
  }

  lemma NextMultiple(x: nat, d: nat)
    requires d > 0
    ensures Rem(x, d) != 0 ==> Rem(x + (d - Rem(x, d)), d) == 0
  {
    QuotRem(x, d);
    QuotOfProduct(Quot(x, d) + 1, d);
  }

  /** A header sits at `m.addr`; only its place in the array changes while it lives. */
  class Header {
    const m: Mapping
    var chunkIdx: nat

    constructor (m: Mapping, chunkIdx: nat)
      ensures this.m == m && this.chunkIdx == chunkIdx
    {
      this.m, this.chunkIdx := m, chunkIdx;
    }
  }

  // What a lookup should answer.

  ghost predicate Covers(m: Mapping, p: nat) {
    m.addr <= p < m.MapEnd()
  }

  ghost predicate WellPlaced(m: Mapping) {
    0 < m.addr && m.mapBeg <= m.addr < m.MapEnd()
  }

  ghost predicate Apart(m: Mapping, n: Mapping) {
    m.MapEnd() <= n.mapBeg || n.MapEnd() <= m.mapBeg
  }

  /** Live mappings: headers inside their mapping, mappings pairwise disjoint. */
  ghost predicate Live(s: seq<Header>) {
    && (forall i :: 0 <= i < |s| ==> WellPlaced(s[i].m))
    && forall i, j :: 0 <= i < j < |s| ==> Apart(s[i].m, s[j].m)
  }

  /** The answer: the user address of the mapping whose header-to-end range holds p. */
  ghost predicate Answers(s: seq<Header>, p: nat, pageSize: nat, r: Option<nat>) {
    match r
    case None => forall i :: 0 <= i < |s| ==> !Covers(s[i].m, p)
    case Some(user) => exists i :: 0 <= i < |s| && Covers(s[i].m, p) && user == s[i].m.addr + pageSize
  }

  lemma CoveredOnce(s: seq<Header>, i: nat, k: nat, p: nat)
    requires Live(s) && i < |s| && k < |s| && i != k
    ensures !(Covers(s[i].m, p) && Covers(s[k].m, p))
  {
  }

  /** There is only one right answer, so both lookups give the same one. */
  lemma AnswerIsUnique(s: seq<Header>, t: seq<Header>, p: nat, pageSize: nat, r1: Option<nat>, r2: Option<nat>)
    requires Live(s) && multiset(s) == multiset(t)
    requires Answers(s, p, pageSize, r1) && Answers(t, p, pageSize, r2)
    ensures r1 == r2
  {
    if r2.Some? {
      var j: nat :| j < |t| && Covers(t[j].m, p) && r2.value == t[j].m.addr + pageSize;
      var i := PermutationIndex(s, t, j);
      if r1.Some? {
        var k: nat :| k < |s| && Covers(s[k].m, p) && r1.value == s[k].m.addr + pageSize;
        if i != k { CoveredOnce(s, i, k, p); }
      }
    } else if r1.Some? {
      var k: nat :| k < |s| && Covers(s[k].m, p) && r1.value == s[k].m.addr + pageSize;
      var j := PermutationIndex(t, s, k);
    }
  }

  /** The closest header at or below p decides: if p is past its mapping, p is in none. */
  lemma NearestDecides(s: seq<Header>, p: nat, i: nat)
    requires Live(s) && i < |s| && s[i].m.addr <= p && !Covers(s[i].m, p)
    requires forall j :: 0 <= j < |s| && s[j].m.addr <= p ==> s[j].m.addr <= s[i].m.addr
    ensures forall j :: 0 <= j < |s| ==> !Covers(s[j].m, p)
  {
  }

  lemma OutsideAll(s: seq<Header>, p: nat)
    requires Live(s) && |s| > 0 && SortedByAddress(s)
    requires p < s[0].m.addr || p >= s[|s| - 1].m.addr + s[|s| - 1].m.mapSize
    ensures forall i :: 0 <= i < |s| ==> !Covers(s[i].m, p)
  {
  }

  // The header array.

  ghost function TotalSize(s: seq<Header>): nat {
    if s == [] then 0 else TotalSize(s[..|s| - 1]) + s[|s| - 1].m.mapSize
  }

  /** Removal as the code does it: the last entry takes the freed place. */
  function RemoveSwap<T>(s: seq<T>, i: nat): seq<T>
    requires i < |s|
  {
    s[i := s[|s| - 1]][..|s| - 1]
  }

  lemma {:induction false} TotalUpdate(s: seq<Header>, i: nat, h: Header)
    requires i < |s|
    ensures TotalSize(s[i := h]) + s[i].m.mapSize == TotalSize(s) + h.m.mapSize
  {
    var last := |s| - 1;
    if i < last {
      TotalUpdate(s[..last], i, h);
      assert s[i := h][..last] == s[..last][i := h];
    } else {
      assert s[i := h][..last] == s[..last];
    }
  }

  lemma RemoveTotal(s: seq<Header>, i: nat)
    requires i < |s|
    ensures TotalSize(RemoveSwap(s, i)) + s[i].m.mapSize == TotalSize(s)
  {
    TotalUpdate(s, i, s[|s| - 1]);
  }

  lemma RemovePermutes<T>(s: seq<T>, i: nat)
    requires i < |s|
    ensures multiset(RemoveSwap(s, i)) + multiset{s[i]} == multiset(s)
  {
    var last, t := |s| - 1, RemoveSwap(s, i);
    assert s[..last] + [s[last]] == s;
    if i < last {
      assert s[..last] == s[..i] + [s[i]] + s[i + 1..last];
      assert t == s[..i] + [s[last]] + s[i + 1..last];
      MiddleOut(s[..i], s[i + 1..last], s[i], s[last]);
    } else {
      assert t == s[..last];
    }
  }

  lemma MiddleOut<T>(a: seq<T>, b: seq<T>, x: T, y: T)
    ensures multiset(a + [y] + b) + multiset{x} == multiset(a + [x] + b + [y])
  {
  }

  lemma CancelRight<T>(a: multiset<T>, b: multiset<T>, c: multiset<T>)
    requires a + c == b + c
    ensures a == b
  {
    forall x: T | x in a || x in b ensures a[x] == b[x] {
      assert (a + c)[x] == (b + c)[x];
    }
  }

  lemma RemoveKeepsLive(s: seq<Header>, i: nat)
    requires Live(s) && i < |s|
    ensures Live(RemoveSwap(s, i))
  {
  }

  /** A header array in which every header knows its place. */
  ghost predicate Indexed(chunks: seq<Header>)
    reads chunks
  {
    forall i :: 0 <= i < |chunks| ==> chunks[i].chunkIdx == i
  }

  ghost predicate SortedByAddress(chunks: seq<Header>) {
    forall i, j :: 0 <= i < j < |chunks| ==> chunks[i].m.addr <= chunks[j].m.addr
  }

  // Sorting keeps the set of headers.

  lemma PermutationIndex<T>(s: seq<T>, t: seq<T>, i: nat) returns (j: nat)
    requires multiset(s) == multiset(t) && i < |t|
    ensures j < |s| && s[j] == t[i]
  {
    assert t[i] in multiset(s);
    j :| 0 <= j < |s| && s[j] == t[i];
  }

  lemma TwiceInMultiset<T>(t: seq<T>, i: nat, j: nat)
    requires i < j < |t| && t[i] == t[j]
    ensures multiset(t)[t[i]] >= 2
  {
    assert t == t[..j] + t[j..];
    assert t[..j][i] == t[i] && t[j..][0] == t[j];
  }

  lemma {:induction false} OnceInMultiset<T>(t: seq<T>, x: T)
    requires forall i, j :: 0 <= i < j < |t| ==> t[i] != t[j]
    ensures multiset(t)[x] <= 1
  {
    if t != [] {
      var rest, y := t[..|t| - 1], t[|t| - 1];
      OnceInMultiset(rest, x);
      assert t == rest + [y];
      if x == y { assert x !in rest; }
    }
  }

  lemma DistinctPermutation<T>(s: seq<T>, t: seq<T>)
    requires multiset(s) == multiset(t)
    requires forall i, j :: 0 <= i < j < |s| ==> s[i] != s[j]
    ensures forall i, j :: 0 <= i < j < |t| ==> t[i] != t[j]
  {
    forall i, j | 0 <= i < j < |t| ensures t[i] != t[j] {
      OnceInMultiset(s, t[i]);
      if t[i] == t[j] { TwiceInMultiset(t, i, j); }
    }
  }

  /** Reordering headers keeps them live. */
  lemma SortedKeepsLive(s: seq<Header>, t: seq<Header>)
    requires multiset(s) == multiset(t) && Live(s)
    requires forall i, j :: 0 <= i < j < |s| ==> s[i] != s[j]
    ensures Live(t)
  {
    DistinctPermutation(s, t);
    forall i: nat | i < |t| ensures WellPlaced(t[i].m) {
      var i0 := PermutationIndex(s, t, i);
    }
    forall i: nat, j: nat | i < j < |t| ensures Apart(t[i].m, t[j].m) {
      var i0 := PermutationIndex(s, t, i);
      var j0 := PermutationIndex(s, t, j);
      assert i0 < j0 ==> Apart(s[i0].m, s[j0].m);
      assert j0 < i0 ==> Apart(s[j0].m, s[i0].m);
    }
  }

  lemma {:induction false} TotalOfPermutation(s: seq<Header>, t: seq<Header>)
    requires multiset(s) == multiset(t)
    ensures TotalSize(s) == TotalSize(t)
    decreases |t|
  {
    assert |multiset(s)| == |multiset(t)|;
    if |t| > 0 {
      var last := |t| - 1;
      var i := PermutationIndex(s, t, last);
      RemoveTotal(s, i);
      RemovePermutes(s, i);
      assert t == t[..last] + [t[last]];
      CancelRight(multiset(t[..last]), multiset(RemoveSwap(s, i)), multiset{t[last]});
      TotalOfPermutation(RemoveSwap(s, i), t[..last]);
    }
  }

  lemma SortedKeeps(s: seq<Header>, t: seq<Header>)
    requires multiset(s) == multiset(t) && Live(s)
    requires forall i, j :: 0 <= i < j < |s| ==> s[i] != s[j]
    ensures Live(t) && TotalSize(t) == TotalSize(s)
    ensures forall i, j :: 0 <= i < j < |t| ==> t[i] != t[j]
    ensures forall h :: h in t ==> h in s
  {
    SortedKeepsLive(s, t);
    DistinctPermutation(s, t);
    TotalOfPermutation(s, t);
    forall h | h in t ensures h in s { assert h in multiset(t); }
  }

  class LargeMmapAllocator {
    const pageLog: nat
    var chunks: seq<Header>
    var chunksSorted: bool
    var nAllocs: nat
    var nFrees: nat
    var currentlyAllocated: nat
    var maxAllocated: nat

    function PageSize(): nat { Pow2(pageLog) }

    ghost predicate Valid()
      reads this, chunks
    {
      && Indexed(chunks)
      && Live(chunks)
      && (chunksSorted ==> SortedByAddress(chunks))
      && nFrees + |chunks| == nAllocs
      && currentlyAllocated == TotalSize(chunks) <= maxAllocated
    }

    constructor (pageLog: nat)
      ensures Valid() && chunks == [] && this.pageLog == pageLog
    {
      this.pageLog := pageLog;
      chunks, chunksSorted := [], false;
      nAllocs, nFrees, currentlyAllocated, maxAllocated := 0, 0, 0, 0;
    }

    /** `mapped` is what mmap returns for the size asked for: a fresh page-aligned mapping,
        or nothing. */
    method Allocate(size: nat, k: nat, mapped: Option<nat>) returns (res: Option<nat>, h: Header?)
      requires Valid() && size < U64 && Pow2(k) <= U64 / 2 && PageSize() <= U64 / 16
      requires mapped.Some? ==> mapped.value > 0 && Rem(mapped.value, PageSize()) == 0
      requires mapped.Some? ==> forall i :: 0 <= i < |chunks| ==>
        Apart(chunks[i].m, Mapping(0, mapped.value, TrueMapSize(size, Pow2(k), PageSize()), size))
      modifies this
      ensures Valid()
      ensures res.None? <==> TrueMapSize(size, Pow2(k), PageSize()) >= U64 || mapped.None?
      ensures res.None? ==> h == null && unchanged(this)
      ensures res.Some? ==>
        && h != null && fresh(h) && chunks == old(chunks) + [h]
        && h.m.addr + PageSize() == res.value && h.m.size == size
        && h.m.mapBeg == mapped.value && h.m.mapSize == TrueMapSize(size, Pow2(k), PageSize())
        && Rem(res.value, Pow2(k)) == 0 && Rem(res.value, PageSize()) == 0
        && h.m.mapBeg <= h.m.addr && res.value + size <= h.m.MapEnd()
        && nAllocs == old(nAllocs) + 1 && maxAllocated == Max(old(maxAllocated), TotalSize(chunks))
    {
      OverflowCheckIsExact(size, Pow2(k), PageSize());
      var mapSize := MapSize(size, Pow2(k), PageSize());
      if mapSize < size || mapped.None? { return None, null; }
      var mapBeg := mapped.value;
      PlacementIsAlignedAndFits(mapBeg, size, k, pageLog);
      var user := Place(mapBeg, Pow2(k), PageSize());
      h := new Header(Mapping(user - PageSize(), mapBeg, mapSize, size), |chunks|);
      Register(h);
      res := Some(user);
    }

    method Register(h: Header)
      requires Valid() && h !in chunks && h.chunkIdx == |chunks| && WellPlaced(h.m)
      requires forall i :: 0 <= i < |chunks| ==> Apart(chunks[i].m, h.m)
      modifies this
      ensures Valid() && chunks == old(chunks) + [h] && !chunksSorted
      ensures nAllocs == old(nAllocs) + 1 && maxAllocated == Max(old(maxAllocated), TotalSize(chunks))
    {
      ghost var before := chunks;
      chunks := chunks + [h];
      chunksSorted := false;
      nAllocs := nAllocs + 1;
      currentlyAllocated := currentlyAllocated + h.m.mapSize;
      maxAllocated := Max(maxAllocated, currentlyAllocated);
      assert chunks[..|before|] == before;
    }

    /** Takes the header out of the array; its mapping is then unmapped whole. */
    method Deallocate(h: Header) returns (unmapBeg: nat, unmapSize: nat)
      requires Valid() && h in chunks
      modifies this, chunks
      ensures Valid() && chunks == RemoveSwap(old(chunks), old(h.chunkIdx))
      ensures multiset(chunks) + multiset{h} == old(multiset(chunks))
      ensures nAllocs == old(nAllocs) && nFrees == old(nFrees) + 1 && maxAllocated == old(maxAllocated)
      ensures unmapBeg == h.m.mapBeg && unmapSize == h.m.mapSize
    {
      var idx := h.chunkIdx;
      RemoveKeepsLive(chunks, idx);
      RemoveTotal(chunks, idx);
      RemovePermutes(chunks, idx);
      var last := chunks[|chunks| - 1];
      chunks := RemoveSwap(chunks, idx);
      last.chunkIdx := idx;
      chunksSorted := false;
      nFrees := nFrees + 1;
      currentlyAllocated := currentlyAllocated - h.m.mapSize;
      unmapBeg, unmapSize := h.m.mapBeg, h.m.mapSize;
    }

    /** Linear search for the closest header at or below the pointer. */
    method GetBlockBegin(p: nat) returns (r: Option<nat>)
      requires Valid()
      ensures Answers(chunks, p, PageSize(), r)
    {
      var nearest: Header? := null;
      var nearestChunk := 0;
      ghost var at := 0;
      var i := 0;
      while i < |chunks|
        invariant i <= |chunks|
        invariant nearest == null ==> nearestChunk == 0 && forall j :: 0 <= j < i ==> p < chunks[j].m.addr
        invariant nearest != null ==> at < i && nearest == chunks[at] && nearestChunk == nearest.m.addr <= p
        invariant nearest != null ==> forall j :: 0 <= j < i && chunks[j].m.addr <= p ==> chunks[j].m.addr <= nearestChunk
      {
        var ch := chunks[i].m.addr;
        assert WellPlaced(chunks[i].m);
        if ch <= p && p - ch < p - nearestChunk {
          nearest, nearestChunk, at := chunks[i], ch, i;
        }
        i := i + 1;
      }
      if nearest == null { return None; }
      if nearest.m.MapEnd() <= p {
        NearestDecides(chunks, p, at);
        return None;
      }
      assert Covers(chunks[at].m, p);
      return Some(nearest.m.addr + PageSize());
    }

    method EnsureSortedChunks()
      requires Valid()
      modifies this`chunks, this`chunksSorted, chunks
      ensures Valid() && SortedByAddress(chunks)
      ensures |chunks| == old(|chunks|) && multiset(chunks) == old(multiset(chunks))
    {
      if chunksSorted { return; }
      var sorted := HeapSort.Sort(chunks, (h: Header) => h.m.addr);
      SortedKeeps(chunks, sorted);
      Renumber(sorted, chunks);
      chunks := sorted;
      chunksSorted := true;
    }

    static method Renumber(s: seq<Header>, ghost frame: seq<Header>)
      requires forall i, j :: 0 <= i < j < |s| ==> s[i] != s[j]
      requires forall h :: h in s ==> h in frame
      modifies frame
      ensures Indexed(s)
    {
      var i := 0;
      while i < |s|
        invariant i <= |s|
        invariant forall j :: 0 <= j < i ==> s[j].chunkIdx == j
      {
        assert s[i] in frame;
        s[i].chunkIdx := i;
        i := i + 1;
      }
    }

    /** Binary search for the last header at or below p, as the source narrows it. */
    method LowerBound(p: nat) returns (beg: nat)
      requires chunks != [] && SortedByAddress(chunks) && chunks[0].m.addr <= p
      ensures beg < |chunks| && chunks[beg].m.addr <= p
      ensures forall j :: beg < j < |chunks| ==> p < chunks[j].m.addr
    {
      var end: nat := |chunks| - 1;
      beg := 0;
      while end - beg >= 2
        invariant beg <= end < |chunks| && chunks[beg].m.addr <= p
        invariant forall j :: end < j < |chunks| ==> p < chunks[j].m.addr
        decreases end - beg
      {
        var mid := (beg + end) / 2;
        if p < chunks[mid].m.addr { end := mid - 1; } else { beg := mid; }
      }
      if beg < end && p >= chunks[end].m.addr { beg := end; }
    }

    /** Binary search; the chunks are sorted first. */
    method GetBlockBeginFastLocked(p: nat) returns (r: Option<nat>)
      requires Valid()
      modifies this`chunks, this`chunksSorted, chunks
      ensures Valid() && multiset(chunks) == old(multiset(chunks))
      ensures Answers(chunks, p, PageSize(), r)
    {
      if |chunks| == 0 { return None; }
      EnsureSortedChunks();
      var last := chunks[|chunks| - 1].m;
      if p < chunks[0].m.addr || p >= last.addr + last.mapSize {
        OutsideAll(chunks, p);
        return None;
      }
      var beg := LowerBound(p);
      var m := chunks[beg].m;
      assert WellPlaced(m);
      if m.MapEnd() <= p || p < m.mapBeg {
        NearestDecides(chunks, p, beg);
        return None;
      }
      assert Covers(chunks[beg].m, p);
      return Some(m.addr + PageSize());
    }
  }
}
