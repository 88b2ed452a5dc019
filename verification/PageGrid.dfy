/** How the chunk grid of a region meets the page grid, in units of 16 bytes: chunk c is
    [c*cs, (c+1)*cs), page p is [p*ps, (p+1)*ps). */
module PageGrid {
  import opened FiniteSets
  import opened Arith

  predicate Overlap(c: nat, p: nat, cs: nat, ps: nat) {
    Product(c, cs) < Product(p + 1, ps) && Product(p, ps) < Product(c + 1, cs)
  }

  function FirstChunk(p: nat, cs: nat, ps: nat): nat
    requires cs > 0
  {
    Quot(Product(p, ps), cs)
  }

  function EndChunk(p: nat, cs: nat, ps: nat): nat
    requires cs > 0
  {
    CeilDiv(Product(p + 1, ps), cs)
  }

  /** How many chunks of the grid touch page p. */
  function ChunksOn(p: nat, cs: nat, ps: nat): int
    requires cs > 0
  {
    EndChunk(p, cs, ps) - FirstChunk(p, cs, ps)
  }

  lemma OverlapIsInterval(c: nat, p: nat, cs: nat, ps: nat)
    requires cs > 0
    ensures Overlap(c, p, cs, ps) <==> FirstChunk(p, cs, ps) <= c < EndChunk(p, cs, ps)
  {
    CeilDivLe(Product(p + 1, ps), cs, c);
    QuotLe(Product(p, ps), cs, c + 1);
  }

  /** The page range `IncRange` runs over is the set of pages the chunk touches. */
  lemma OverlapIsPageRange(c: nat, p: nat, cs: nat, ps: nat)
    requires cs > 0 && ps > 0
    ensures Overlap(c, p, cs, ps) <==>
      Quot(Product(c, cs), ps) <= p <= Quot(Product(c, cs) + cs - 1, ps)
  {
    QuotLe(Product(c, cs), ps, p + 1);
    QuotLe(Product(c, cs) + cs - 1, ps, p);
  }

  /** A page that starts inside chunk `first` and ends with the end of `count` chunks from
      there, or inside the last of them. */
  lemma ChunksOnIs(p: nat, cs: nat, ps: nat, first: nat, count: nat)
    requires cs > 0 && Product(first, cs) <= Product(p, ps) < Product(first, cs) + cs
    requires Product(p, ps) + ps <= Product(first + count, cs) < Product(p, ps) + ps + cs
    ensures ChunksOn(p, cs, ps) == count
  {
    QuotIs(Product(p, ps), cs, first);
    CeilDivIs(Product(p + 1, ps), cs, first + count);
  }

  // The three page shapes the fast path recognises.

  lemma EvenlyDividedPage(p: nat, cs: nat, ps: nat)
    requires cs > 0 && Rem(ps, cs) == 0
    ensures ChunksOn(p, cs, ps) == Quot(ps, cs)
  {
    var m := Quot(ps, cs);
    MultipleIs(ps, cs);
    ProductAssoc(p, m, cs);
    ProductAdd(Product(p, m), m, cs);
    ChunksOnIs(p, cs, ps, Product(p, m), m);
  }

  lemma RemainderDividesChunk(p: nat, cs: nat, ps: nat)
    requires 0 < cs <= ps && Rem(ps, cs) != 0 && Rem(cs, Rem(ps, cs)) == 0
    ensures ChunksOn(p, cs, ps) == Quot(ps, cs) + 1
  {
    var m, r := Quot(ps, cs), Rem(ps, cs);
    var k := Quot(cs, r);
    QuotRem(ps, cs);
    MultipleIs(cs, r);
    QuotRem(p, k);
    ShiftedPage(p, cs, ps, m, r, k, Quot(p, k), Rem(p, k));
  }

  lemma ShiftedStart(p: nat, cs: nat, m: nat, r: nat, k: nat, a: nat, b: nat)
    requires cs == Product(k, r) && p == Product(a, k) + b
    ensures Product(p, Product(m, cs) + r) == Product(Product(p, m) + a, cs) + Product(b, r)
  {
    ProductAddRight(p, Product(m, cs), r);
    ProductAssoc(p, m, cs);
    ProductAdd(Product(a, k), b, r);
    ProductAssoc(a, k, r);
    ProductAdd(Product(p, m), a, cs);
  }

  /** Page p starts b steps of r into chunk p*m + a, and ends at most one chunk later. */
  lemma ShiftedPage(p: nat, cs: nat, ps: nat, m: nat, r: nat, k: nat, a: nat, b: nat)
    requires cs > 0 && r > 0 && ps == Product(m, cs) + r && cs == Product(k, r)
    requires p == Product(a, k) + b && b < k
    ensures ChunksOn(p, cs, ps) == m + 1
  {
    var first := Product(p, m) + a;
    ShiftedStart(p, cs, m, r, k, a, b);
    ProductMono(b, k, r);
    ProductAdd(first, m + 1, cs);
    ChunksOnIs(p, cs, ps, first, m + 1);
  }

  lemma ChunkIsWholePages(p: nat, cs: nat, ps: nat)
    requires cs > 0 && ps > 0 && Rem(cs, ps) == 0
    ensures ChunksOn(p, cs, ps) == 1
  {
    var k := Quot(cs, ps);
    MultipleIs(cs, ps);
    QuotRem(p, k);
    var a, b := Quot(p, k), Rem(p, k);
    ProductAdd(Product(a, k), b, ps);
    ProductAssoc(a, k, ps);
    ProductMono(b, k, ps);
    ChunksOnIs(p, cs, ps, a, 1);
  }

  lemma StartOfPage(p: nat, cs: nat, m: nat, r: nat)
    ensures Product(p, Product(m, cs) + r) == Product(Product(p, m), cs) + Product(p, r)
  {
    ProductAddRight(p, Product(m, cs), r);
    ProductAssoc(p, m, cs);
  }

  /** A page that starts `off` bytes into a chunk, and whose m chunks and r bytes more do not end with
      it, touches m + 2 chunks; the first page touches m + 1. */
  lemma OffsetPage(p: nat, cs: nat, ps: nat, m: nat, r: nat, first: nat, off: nat)
    requires cs > 0 && ps == Product(m, cs) + r && 0 < r < cs
    requires Product(p, ps) == Product(first, cs) + off && off < cs < off + r
    ensures ChunksOn(p, cs, ps) == m + 2
  {
    ProductAdd(first, m + 2, cs);
    TwoMore(m, cs);
    ChunksOnIs(p, cs, ps, first, m + 2);
  }

  lemma TwoMore(m: nat, cs: nat)
    ensures Product(m + 1, cs) == Product(m, cs) + cs && Product(m + 2, cs) == Product(m, cs) + cs + cs
  {
  }

  lemma FirstPage(cs: nat, ps: nat, m: nat, r: nat)
    requires cs > 0 && ps == Product(m, cs) + r && 0 < r < cs
    ensures ChunksOn(0, cs, ps) == m + 1
  {
    TwoMore(m, cs);
    ChunksOnIs(0, cs, ps, 0, m + 1);
  }

  /** In any other shape the pages are not alike: where the remainders of k pages nearly fill a chunk
      the next page touches one chunk more than the first page. */
  lemma UnevenPages(cs: nat, ps: nat) returns (k: nat)
    requires cs > 0 && ps > 0 && Rem(ps, cs) != 0 && Rem(cs, Rem(ps, cs)) != 0
    ensures ChunksOn(k, cs, ps) == ChunksOn(0, cs, ps) + 1
  {
    var m, r := Quot(ps, cs), Rem(ps, cs);
    k := Quot(cs, r);
    QuotRem(ps, cs);
    QuotRem(cs, r);
    StartOfPage(k, cs, m, r);
    OffsetPage(k, cs, ps, m, r, Product(k, m), Product(k, r));
    FirstPage(cs, ps, m, r);
  }

  // The boundary walk of the slow path.

  /** One iteration of the walk: the number of chunks it expects on the page and the new
      boundary. `boundary` is the first chunk boundary at or after the page start. */
  function WalkStep(boundary: nat, pageStart: nat, cs: nat, ps: nat): (r: (nat, nat))
    requires cs > 0
  {
    var pn := if cs < ps then Quot(ps, cs) else 1;
    var pnc := Product(pn, cs);
    var pageEnd := pageStart + ps;
    if boundary < pageEnd then
      var n0 := if boundary > pageStart then pn + 1 else pn;
      var b1 := boundary + pnc;
      if b1 < pageEnd then (n0 + 1, b1 + cs) else (n0, b1)
    else (pn, boundary)
  }

  ghost function BoundaryAt(p: nat, cs: nat, ps: nat): nat
    requires cs > 0
  {
    Product(CeilDiv(Product(p, ps), cs), cs)
  }

  /** q and end round the page start and the page end up to chunk boundaries. */
  lemma ChunksFromBoundaries(p: nat, cs: nat, ps: nat, q: nat, end: nat)
    requires cs > 0
    requires Product(p, ps) <= Product(q, cs) < Product(p, ps) + cs
    requires Product(p, ps) + ps <= Product(end, cs) < Product(p, ps) + ps + cs
    ensures ChunksOn(p, cs, ps) == end - (if Product(q, cs) > Product(p, ps) then q - 1 else q)
    ensures BoundaryAt(p, cs, ps) == Product(q, cs) && BoundaryAt(p + 1, cs, ps) == Product(end, cs)
  {
    CeilDivIs(Product(p, ps), cs, q);
    CeilDivIs(Product(p + 1, ps), cs, end);
    QuotIs(Product(p, ps), cs, if Product(q, cs) > Product(p, ps) then q - 1 else q);
  }

  /** The walk counts the chunks of every page exactly. */
  lemma WalkStepIsExact(p: nat, cs: nat, ps: nat)
    requires cs > 0 && ps > 0 && cs != ps
    ensures WalkStep(BoundaryAt(p, cs, ps), Product(p, ps), cs, ps)
         == (ChunksOn(p, cs, ps), BoundaryAt(p + 1, cs, ps))
  {
    var pn := if cs < ps then Quot(ps, cs) else 1;
    if cs < ps { QuotRem(ps, cs); }
    var q := CeilDiv(Product(p, ps), cs);
    CeilDivBounds(Product(p, ps), cs);
    var end := WalkEnd(q, pn, Product(p, ps), cs, ps);
    ChunksFromBoundaries(p, cs, ps, q, end);
  }

  /** Where the walk stands after a page that starts at `start`: the page end rounded up. */
  lemma WalkEnd(q: nat, pn: nat, start: nat, cs: nat, ps: nat) returns (end: nat)
    requires cs > 0 && start <= Product(q, cs) < start + cs
    requires if cs < ps then Product(pn, cs) <= ps < Product(pn, cs) + cs else pn == 1 && ps < cs
    ensures start + ps <= Product(end, cs) < start + ps + cs
    ensures end == (if Product(q, cs) >= start + ps then q
                    else if Product(q, cs) + Product(pn, cs) < start + ps then q + pn + 1 else q + pn)
    ensures Product(end, cs)
         == (if Product(q, cs) >= start + ps then Product(q, cs)
             else if Product(q, cs) + Product(pn, cs) < start + ps then Product(q, cs) + Product(pn, cs) + cs
             else Product(q, cs) + Product(pn, cs))
  {
    ProductAdd(q, pn, cs);
    end :=
      if Product(q, cs) >= start + ps then q
      else if Product(q, cs) + Product(pn, cs) < start + ps then q + pn + 1 else q + pn;
  }

  /** No page holds more chunks than the slow path allots room for in a counter. */
  lemma SlowPathBound(p: nat, cs: nat, ps: nat)
    requires cs > 0 && ps > 0 && cs != ps
    ensures 0 <= ChunksOn(p, cs, ps) <= (if cs < ps then Quot(ps, cs) + 2 else 2)
  {
    WalkStepIsExact(p, cs, ps);
  }

  // Counting the free chunks of a page.

  /** How many of the listed chunk offsets touch page p. */
  ghost function FreeOn(free: seq<nat>, p: nat, cs: nat, ps: nat): nat
    requires cs > 0
  {
    if free == [] then 0
    else FreeOn(free[..|free| - 1], p, cs, ps)
         + (if Overlap(Quot(free[|free| - 1], cs), p, cs, ps) then 1 else 0)
  }

  /** A free list names chunk offsets of the grid, each once. */
  ghost predicate DistinctOffsets(free: seq<nat>, cs: nat)
    requires cs > 0
  {
    && (forall i :: 0 <= i < |free| ==> Rem(free[i], cs) == 0)
    && forall i, j :: 0 <= i < j < |free| ==> free[i] != free[j]
  }

  ghost function Interval(a: nat, b: nat): (s: set<nat>)
    ensures forall c: nat :: c in s <==> a <= c < b
  {
    if b <= a then {} else Interval(a, b - 1) + {b - 1}
  }

  lemma {:induction false} IntervalSize(a: nat, b: nat)
    requires a <= b
    ensures |Interval(a, b)| == b - a
    decreases b
  {
    if a < b { IntervalSize(a, b - 1); }
  }

  /** The chunks of page p that are listed. */
  ghost function ListedOn(free: seq<nat>, p: nat, cs: nat, ps: nat): set<nat>
    requires cs > 0
  {
    set c: nat | c in Interval(FirstChunk(p, cs, ps), EndChunk(p, cs, ps)) && Product(c, cs) in free
  }

  /** One more free offset lists one more chunk, on the page or not. */
  lemma ListOneMore(rest: seq<nat>, f: nat, p: nat, cs: nat, ps: nat)
    requires cs > 0 && Rem(f, cs) == 0 && f !in rest
    ensures ListedOn(rest + [f], p, cs, ps)
         == ListedOn(rest, p, cs, ps) + (if Overlap(Quot(f, cs), p, cs, ps) then {Quot(f, cs)} else {})
    ensures Quot(f, cs) !in ListedOn(rest, p, cs, ps)
  {
    var c := Quot(f, cs);
    MultipleIs(f, cs);
    OverlapIsInterval(c, p, cs, ps);
    forall d: nat ensures Product(d, cs) in rest + [f] <==> Product(d, cs) in rest || d == c {
      QuotOfProduct(d, cs);
    }
  }

  lemma {:induction false} FreeOnIsCardinality(free: seq<nat>, p: nat, cs: nat, ps: nat)
    requires cs > 0 && DistinctOffsets(free, cs)
    ensures FreeOn(free, p, cs, ps) == |ListedOn(free, p, cs, ps)|
  {
    if free == [] {
      assert ListedOn(free, p, cs, ps) == {};
    } else {
      var rest, f := free[..|free| - 1], free[|free| - 1];
      FreeOnIsCardinality(rest, p, cs, ps);
      assert free == rest + [f];
      ListOneMore(rest, f, p, cs, ps);
    }
  }

  /** Every chunk that touches page p is listed as free. */
  ghost predicate WhollyFree(free: seq<nat>, p: nat, cs: nat, ps: nat) {
    forall c: nat :: Overlap(c, p, cs, ps) ==> Product(c, cs) in free
  }

  lemma FirstBeforeEnd(p: nat, cs: nat, ps: nat)
    requires cs > 0
    ensures FirstChunk(p, cs, ps) <= EndChunk(p, cs, ps)
  {
    CeilDivBounds(Product(p + 1, ps), cs);
    QuotRem(Product(p, ps), cs);
    var first, end := FirstChunk(p, cs, ps), EndChunk(p, cs, ps);
    if end < first { ProductMono(end, first, cs); }
  }

  /** The counter reaches the number of chunks on the page exactly when all of them are free,
      and never exceeds it. */
  lemma FullCountMeansWhollyFree(free: seq<nat>, p: nat, cs: nat, ps: nat)
    requires cs > 0 && DistinctOffsets(free, cs)
    ensures FreeOn(free, p, cs, ps) <= ChunksOn(p, cs, ps)
    ensures FreeOn(free, p, cs, ps) == ChunksOn(p, cs, ps) <==> WhollyFree(free, p, cs, ps)
  {
    var all := Interval(FirstChunk(p, cs, ps), EndChunk(p, cs, ps));
    var listed := ListedOn(free, p, cs, ps);
    FirstBeforeEnd(p, cs, ps);
    FreeOnIsCardinality(free, p, cs, ps);
    IntervalSize(FirstChunk(p, cs, ps), EndChunk(p, cs, ps));
    SubsetSize(listed, all);
    forall c: nat ensures Overlap(c, p, cs, ps) <==> c in all { OverlapIsInterval(c, p, cs, ps); }
  }
}
