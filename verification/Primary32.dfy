/** The 32-bit primary allocator and its caches (sanitizer_allocator_primary32.h and the second
    half of sanitizer_allocator_local_cache.h). Free chunks are listed in transfer batches, and a
    batch object lives in a chunk itself: in one it lists, or in a chunk of the batch class. */
module Primary32 {
  import opened Wrappers
  import A = Arith
  import S = SizeClassMap

  const WORD: nat := 8

  datatype Config = Config(p: S.Params, separate: bool, regionSize: nat, metaSize: nat) {
    predicate Legal() {
      && p.Legal() && p.maxCachedHint >= 3
      && BatchSize() <= p.MaxSize()                // the batch class exists
      && p.MaxSize() + metaSize <= regionSize      // a region holds a chunk of any class
    }

    function MaxNumCached(): nat requires p.maxCachedHint >= 3 { p.maxCachedHint - 2 }

    function BatchSize(): nat { p.maxCachedHint * WORD }

    function Size(cls: nat): nat requires p.Legal() { p.Size(cls) }

    function MaxCached(cls: nat): nat
      requires p.Legal() && p.maxCachedHint >= 3
    {
      A.Min(MaxNumCached(), p.MaxCachedHint(Size(cls)))
    }

    /** `InitCache`: the class batches of cls are stored in, 0 for its own chunks. */
    function BatchClass(cls: nat): nat
      requires p.Legal() && p.maxCachedHint >= 3
    {
      if separate then (if cls == p.BatchClassID() then 0 else p.BatchClassID())
      else if Size(cls) < RequiredFor(MaxCached(cls)) then p.ClassID(BatchSize()) else 0
    }

    predicate ClassOk(cls: nat) requires p.Legal() { 0 < cls < p.NumClasses() }

    function ChunksPerRegion(cls: nat): nat
      requires p.Legal() && Size(cls) + metaSize > 0
    {
      A.Quot(regionSize, Size(cls) + metaSize)
    }
  }

  /** What a batch of n chunks needs: two words and n pointers. */
  function RequiredFor(n: nat): nat { 2 * WORD + WORD * n }

  // Where batches live.

  lemma ClassSizes(c: Config, cls: nat)
    requires c.Legal() && c.ClassOk(cls)
    ensures 0 < c.Size(cls) && c.Size(cls) + c.metaSize <= c.regionSize
    ensures 1 <= c.MaxCached(cls) <= c.MaxNumCached()
    ensures RequiredFor(c.MaxCached(cls)) <= c.BatchSize() == RequiredFor(c.MaxNumCached())
  {
    S.LargestSize(c.p);
    if cls <= c.p.LargestClassID() {
      S.SizeStrictlyIncreasing(c.p, 0, cls);
      if cls < c.p.LargestClassID() { S.SizeStrictlyIncreasing(c.p, cls, c.p.LargestClassID()); }
    }
    S.CachedHintIsMaximal(c.p, c.Size(cls));
  }

  /** The batch class stores its own batches, so a chain of batch requests has length two; it
      also comes after every class it serves, except for itself. */
  lemma BatchClassIsLast(c: Config, cls: nat)
    requires c.Legal() && c.ClassOk(cls) && c.BatchClass(cls) != 0
    ensures var b := c.BatchClass(cls); c.ClassOk(b) && c.BatchClass(b) == 0 && cls < b && c.Size(b) >= c.BatchSize()
  {
    ClassSizes(c, cls);
    if !c.separate {
      var b := c.p.ClassID(c.BatchSize());
      S.ClassIDCovers(c.p, c.BatchSize());
      ClassSizes(c, b);
      if cls <= c.p.LargestClassID() && b < cls { S.SizeStrictlyIncreasing(c.p, b, cls); }
    }
  }

  /** A batch never overruns the chunk it is stored in. */
  lemma BatchFitsItsHost(c: Config, cls: nat, n: nat)
    requires c.Legal() && c.ClassOk(cls) && n <= c.MaxCached(cls)
    ensures RequiredFor(n) <= c.Size(if c.BatchClass(cls) == 0 then cls else c.BatchClass(cls))
  {
    ClassSizes(c, cls);
    if c.BatchClass(cls) != 0 {
      BatchClassIsLast(c, cls);
    } else if !c.separate {
      S.ClassIDCovers(c.p, c.BatchSize());
      A.ProductZero(c.p.MinSize());
    } else {
      assert c.p.Size(c.p.BatchClassID()) == c.BatchSize();
    }
  }

  /** Without a class of its own for batches, a class is served by another only if its chunks cannot
      hold its batches, and then by the smallest class that holds a whole one; with one, that class
      alone hosts its own. */
  lemma BatchClassIsNeeded(c: Config, cls: nat)
    requires c.Legal() && c.ClassOk(cls)
    ensures var b := c.BatchClass(cls);
      if c.separate then b == (if cls == c.p.BatchClassID() then 0 else c.p.BatchClassID())
      else
        && (b == 0 <==> RequiredFor(c.MaxCached(cls)) <= c.Size(cls))
        && (b != 0 ==> c.BatchSize() <= c.Size(b) && forall x: nat :: x < b ==> c.Size(x) < c.BatchSize())
  {
    if !c.separate {
      S.ClassIDCovers(c.p, c.BatchSize());
      A.ProductZero(c.p.MinSize());
      var b := c.p.ClassID(c.BatchSize());
      forall x: nat | x < b ensures c.p.Size(x) < c.BatchSize() { S.LeastCoveringClass(c.p, c.BatchSize(), x); }
    }
  }

  /** A region holds as many chunks with their metadata as fit, and a cache as many as the hint says
      or a batch holds. */
  lemma CapacitiesAreMaximal(c: Config, cls: nat, n: nat)
    requires c.Legal() && c.ClassOk(cls)
    ensures 0 < c.Size(cls)
    ensures n <= c.ChunksPerRegion(cls) <==> A.Product(n, c.Size(cls) + c.metaSize) <= c.regionSize
    ensures n <= c.MaxCached(cls) <==> n <= c.p.MaxCachedHint(c.Size(cls)) && RequiredFor(n) <= c.BatchSize()
  {
    ClassSizes(c, cls);
    A.QuotLe(c.regionSize, c.Size(cls) + c.metaSize, n);
  }

  // Ownership.

  type Chunk = nat

  /** `host` is the chunk the object occupies. */
  datatype Batch = Batch(host: Chunk, chunks: seq<Chunk>)

  /** `free` by class, `caches` by cache and class, `classOf` by chunk; chunks are numbered as
      regions are mapped. `hand` are the chunks in use, by the program or by a call under way,
      `leaked` those a failed population dropped. */
  datatype State = State(free: seq<seq<Batch>>, caches: seq<seq<seq<Chunk>>>, classOf: seq<nat>,
                         hand: multiset<Chunk>, leaked: multiset<Chunk>)

  ghost predicate Own(c: Config, cls: nat) requires c.Legal() { c.BatchClass(cls) == 0 }

  // How often a chunk occurs in each place.

  ghost function InSeq(chunks: seq<Chunk>, x: Chunk): nat { multiset(chunks)[x] }

  /** The chunks a batch accounts for; a host of the batch class is one of them. */
  ghost function InBatch(own: bool, b: Batch, x: Chunk): nat {
    InSeq(b.chunks, x) + (if !own && b.host == x then 1 else 0)
  }

  ghost function InList(own: bool, bs: seq<Batch>, x: Chunk): nat {
    if bs == [] then 0 else InList(own, bs[..|bs| - 1], x) + InBatch(own, bs[|bs| - 1], x)
  }

  ghost function InFree(c: Config, free: seq<seq<Batch>>, n: nat, x: Chunk): nat
    requires c.Legal() && n <= |free|
  {
    if n == 0 then 0 else InFree(c, free, n - 1, x) + InList(Own(c, n - 1), free[n - 1], x)
  }

  ghost function InStacks(stacks: seq<seq<Chunk>>, x: Chunk): nat {
    if stacks == [] then 0 else InStacks(stacks[..|stacks| - 1], x) + InSeq(stacks[|stacks| - 1], x)
  }

  ghost function InCaches(caches: seq<seq<seq<Chunk>>>, x: Chunk): nat {
    if caches == [] then 0 else InCaches(caches[..|caches| - 1], x) + InStacks(caches[|caches| - 1], x)
  }

  /** Every chunk is in exactly one place, once. */
  ghost predicate Conserved(c: Config, s: State)
    requires c.Legal()
  {
    forall x: Chunk :: Places(c, s, x) == if x < |s.classOf| then 1 else 0
  }

  ghost function Places(c: Config, s: State, x: Chunk): nat
    requires c.Legal()
  {
    InFree(c, s.free, |s.free|, x) + InCaches(s.caches, x) + s.hand[x] + s.leaked[x]
  }

  ghost predicate ChunksOf(classOf: seq<nat>, chunks: seq<Chunk>, cls: nat) {
    forall i :: 0 <= i < |chunks| ==> chunks[i] < |classOf| && classOf[chunks[i]] == cls
  }

  ghost predicate BatchOk(c: Config, classOf: seq<nat>, cls: nat, b: Batch)
    requires c.Legal()
  {
    && 0 < |b.chunks| <= c.MaxCached(cls) && ChunksOf(classOf, b.chunks, cls)
    && (if Own(c, cls) then b.host == b.chunks[0] else b.host < |classOf| && classOf[b.host] == c.BatchClass(cls))
  }

  ghost predicate ListOk(c: Config, classOf: seq<nat>, cls: nat, bs: seq<Batch>)
    requires c.Legal()
  {
    forall i :: 0 <= i < |bs| ==> BatchOk(c, classOf, cls, bs[i])
  }

  ghost predicate StackOk(c: Config, classOf: seq<nat>, cls: nat, stack: seq<Chunk>)
    requires c.Legal()
  {
    |stack| <= 2 * c.MaxCached(cls) && ChunksOf(classOf, stack, cls)
  }

  ghost predicate CacheOk(c: Config, classOf: seq<nat>, stacks: seq<seq<Chunk>>)
    requires c.Legal()
  {
    |stacks| == c.p.NumClasses() && forall x :: 0 <= x < |stacks| ==> StackOk(c, classOf, x, stacks[x])
  }

  ghost predicate Inv(c: Config, s: State) {
    && c.Legal() && |s.free| == c.p.NumClasses()
    && (forall x :: 0 <= x < |s.free| ==> ListOk(c, s.classOf, x, s.free[x]))
    && (forall k :: 0 <= k < |s.caches| ==> CacheOk(c, s.classOf, s.caches[k]))
    && Conserved(c, s)
  }

  /** Whatever is in use is on no list and in no cache, and in use once. */
  lemma InUseNowhereElse(c: Config, s: State, x: Chunk)
    requires Inv(c, s) && x in s.hand
    ensures s.hand[x] == 1 && x < |s.classOf| && x !in s.leaked
    ensures InFree(c, s.free, |s.free|, x) == 0 && InCaches(s.caches, x) == 0
  {
    assert Places(c, s, x) == if x < |s.classOf| then 1 else 0;
  }

  // Changing one list or one stack.

  lemma {:induction false} SetInFree(c: Config, free: seq<seq<Batch>>, n: nat, cls: nat, bs: seq<Batch>, x: Chunk)
    requires c.Legal() && n <= |free| && cls < |free|
    ensures InFree(c, free[cls := bs], n, x) + (if cls < n then InList(Own(c, cls), free[cls], x) else 0)
         == InFree(c, free, n, x) + (if cls < n then InList(Own(c, cls), bs, x) else 0)
  {
    if n > 0 { SetInFree(c, free, n - 1, cls, bs, x); }
  }

  lemma {:induction false} SetInStacks(stacks: seq<seq<Chunk>>, i: nat, t: seq<Chunk>, x: Chunk)
    requires i < |stacks|
    ensures InStacks(stacks[i := t], x) + InSeq(stacks[i], x) == InStacks(stacks, x) + InSeq(t, x)
  {
    var front := stacks[..|stacks| - 1];
    if i == |front| {
      assert stacks[i := t][..|front|] == front;
    } else {
      SetInStacks(front, i, t, x);
      assert stacks[i := t][..|front|] == front[i := t];
    }
  }

  lemma {:induction false} SetInCaches(caches: seq<seq<seq<Chunk>>>, k: nat, t: seq<seq<Chunk>>, x: Chunk)
    requires k < |caches|
    ensures InCaches(caches[k := t], x) + InStacks(caches[k], x) == InCaches(caches, x) + InStacks(t, x)
  {
    var front := caches[..|caches| - 1];
    if k == |front| {
      assert caches[k := t][..|front|] == front;
    } else {
      SetInCaches(front, k, t, x);
      assert caches[k := t][..|front|] == front[k := t];
    }
  }

  lemma {:induction false} PushInList(own: bool, b: Batch, bs: seq<Batch>, x: Chunk)
    ensures InList(own, [b] + bs, x) == InList(own, bs, x) + InBatch(own, b, x)
  {
    if bs == [] {
      assert [b] + bs == [b] && [b][..0] == [];
    } else {
      assert ([b] + bs)[..|bs|] == [b] + bs[..|bs| - 1];
      PushInList(own, b, bs[..|bs| - 1], x);
    }
  }

  /** The chunks move between one list and the hand. */
  lemma SetList(c: Config, s: State, cls: nat, bs: seq<Batch>, hand: multiset<Chunk>)
    requires Inv(c, s) && cls < |s.free| && ListOk(c, s.classOf, cls, bs)
    requires forall x :: InList(Own(c, cls), bs, x) + hand[x] == InList(Own(c, cls), s.free[cls], x) + s.hand[x]
    ensures Inv(c, s.(free := s.free[cls := bs], hand := hand))
  {
    var t := s.(free := s.free[cls := bs], hand := hand);
    forall x: Chunk ensures Places(c, t, x) == if x < |t.classOf| then 1 else 0 {
      SetInFree(c, s.free, |s.free|, cls, bs, x);
      assert Places(c, s, x) == if x < |s.classOf| then 1 else 0;
    }
  }

  /** The chunks move between one stack and the hand. */
  lemma SetStack(c: Config, s: State, k: nat, i: nat, stack: seq<Chunk>, hand: multiset<Chunk>)
    requires Inv(c, s) && k < |s.caches| && i < |s.caches[k]| && StackOk(c, s.classOf, i, stack)
    requires forall x :: InSeq(stack, x) + hand[x] == InSeq(s.caches[k][i], x) + s.hand[x]
    ensures Inv(c, s.(caches := s.caches[k := s.caches[k][i := stack]], hand := hand))
  {
    var u := s.caches[k][i := stack];
    var t := s.(caches := s.caches[k := u], hand := hand);
    assert CacheOk(c, s.classOf, s.caches[k]);
    forall x: Chunk ensures Places(c, t, x) == if x < |t.classOf| then 1 else 0 {
      SetInStacks(s.caches[k], i, stack, x);
      SetInCaches(s.caches, k, u, x);
      assert Places(c, s, x) == if x < |s.classOf| then 1 else 0;
    }
  }

  /** Chunks in hand that a failed call drops. */
  lemma Leak(c: Config, s: State, lost: multiset<Chunk>)
    requires Inv(c, s) && lost <= s.hand
    ensures Inv(c, s.(hand := s.hand - lost, leaked := s.leaked + lost))
  {
    var t := s.(hand := s.hand - lost, leaked := s.leaked + lost);
    forall x: Chunk ensures Places(c, t, x) == if x < |t.classOf| then 1 else 0 {
      assert Places(c, s, x) == if x < |s.classOf| then 1 else 0;
      assert lost[x] <= s.hand[x];
    }
  }

  /** The n chunks of a new region, numbered from `first` on. */
  function NewChunks(first: nat, n: nat): (r: seq<Chunk>)
    ensures |r| == n && forall i :: 0 <= i < n ==> r[i] == first + i
  {
    seq(n, i requires 0 <= i => first + i)
  }

  lemma {:induction false} NewChunksOnce(first: nat, n: nat, x: Chunk)
    ensures InSeq(NewChunks(first, n), x) == if first <= x < first + n then 1 else 0
  {
    if n > 0 {
      NewChunksOnce(first, n - 1, x);
      assert NewChunks(first, n) == NewChunks(first, n - 1) + [first + n - 1];
    } else {
      assert NewChunks(first, n) == [];
    }
  }

  lemma NewRegion(c: Config, s: State, cls: nat, n: nat)
    requires Inv(c, s)
    ensures var r := NewChunks(|s.classOf|, n);
      var t := s.(classOf := s.classOf + seq(n, i => cls), hand := s.hand + multiset(r));
      Inv(c, t) && ChunksOf(t.classOf, r, cls)
  {
    var r := NewChunks(|s.classOf|, n);
    var t := s.(classOf := s.classOf + seq(n, i => cls), hand := s.hand + multiset(r));
    forall i | 0 <= i < |t.free| ensures ListOk(c, t.classOf, i, t.free[i]) {
      assert ListOk(c, s.classOf, i, s.free[i]);
      forall j | 0 <= j < |t.free[i]| ensures BatchOk(c, t.classOf, i, t.free[i][j]) { assert BatchOk(c, s.classOf, i, s.free[i][j]); }
    }
    forall k | 0 <= k < |t.caches| ensures CacheOk(c, t.classOf, t.caches[k]) {
      assert CacheOk(c, s.classOf, s.caches[k]);
      forall i | 0 <= i < |t.caches[k]| ensures StackOk(c, t.classOf, i, t.caches[k][i]) {
        assert StackOk(c, s.classOf, i, s.caches[k][i]);
      }
    }
    forall x: Chunk ensures Places(c, t, x) == if x < |t.classOf| then 1 else 0 {
      NewChunksOnce(|s.classOf|, n, x);
      assert Places(c, s, x) == if x < |s.classOf| then 1 else 0;
    }
  }

  /** What a call for class cls through cache k may touch: its own class and the class its
      batches live in. */
  ghost predicate Touches(c: Config, s: State, t: State, k: nat, cls: nat)
    requires c.Legal()
  {
    && |t.free| == |s.free| && |t.caches| == |s.caches| && s.classOf <= t.classOf && k < |s.caches|
    && (forall i :: 0 <= i < |s.free| && (i == 0 || (i != cls && i != c.BatchClass(cls))) ==> t.free[i] == s.free[i])
    && (forall j :: 0 <= j < |s.caches| && j != k ==> t.caches[j] == s.caches[j])
    && |t.caches[k]| == |s.caches[k]|
    && (forall i :: 0 <= i < |s.caches[k]| && (i == 0 || (i != cls && i != c.BatchClass(cls))) ==> t.caches[k][i] == s.caches[k][i])
  }

  lemma TouchesOn(c: Config, s: State, t: State, u: State, k: nat, cls: nat)
    requires c.Legal() && Touches(c, s, t, k, cls) && Touches(c, t, u, k, cls)
    ensures Touches(c, s, u, k, cls)
  {
  }

  /** A call for the batch class touches no more than the call that needed it. */
  lemma InnerTouches(c: Config, s: State, t: State, k: nat, cls: nat)
    requires c.Legal() && c.ClassOk(cls) && c.BatchClass(cls) != 0 && Touches(c, s, t, k, c.BatchClass(cls))
    ensures Touches(c, s, t, k, cls)
    ensures k < |s.caches| && cls < |s.caches[k]| ==> t.caches[k][cls] == s.caches[k][cls]
    ensures cls < |s.free| ==> t.free[cls] == s.free[cls]
  {
    BatchClassIsLast(c, cls);
  }

  /** How often a chunk occurs in a batch under way. */
  ghost function InHeld(own: bool, b: Option<Batch>, x: Chunk): nat {
    if b.None? then 0 else InBatch(own, b.value, x)
  }

  ghost function Pool(own: bool, b: Batch): (m: multiset<Chunk>)
    ensures forall x :: m[x] == InBatch(own, b, x)
  {
    multiset(b.chunks) + (if own then multiset{} else multiset{b.host})
  }

  lemma {:induction false} NothingInFree(c: Config, free: seq<seq<Batch>>, n: nat, x: Chunk)
    requires c.Legal() && n <= |free| && forall i :: 0 <= i < |free| ==> free[i] == []
    ensures InFree(c, free, n, x) == 0
  {
    if n > 0 { NothingInFree(c, free, n - 1, x); }
  }

  lemma {:induction false} NothingInStacks(stacks: seq<seq<Chunk>>, x: Chunk)
    requires forall i :: 0 <= i < |stacks| ==> stacks[i] == []
    ensures InStacks(stacks, x) == 0
  {
    if stacks != [] { NothingInStacks(stacks[..|stacks| - 1], x); }
  }

  lemma {:induction false} NothingInCaches(caches: seq<seq<seq<Chunk>>>, x: Chunk)
    requires forall k, i :: 0 <= k < |caches| && 0 <= i < |caches[k]| ==> caches[k][i] == []
    ensures InCaches(caches, x) == 0
  {
    if caches != [] {
      NothingInCaches(caches[..|caches| - 1], x);
      NothingInStacks(caches[|caches| - 1], x);
    }
  }

  lemma EmptyIsInv(c: Config, s: State)
    requires c.Legal() && |s.free| == c.p.NumClasses() && s.classOf == [] && s.hand == multiset{} == s.leaked
    requires forall i :: 0 <= i < |s.free| ==> s.free[i] == []
    requires forall k :: 0 <= k < |s.caches| ==> |s.caches[k]| == c.p.NumClasses()
    requires forall k, i :: 0 <= k < |s.caches| && 0 <= i < |s.caches[k]| ==> s.caches[k][i] == []
    ensures Inv(c, s)
  {
    forall x: Chunk ensures Places(c, s, x) == if x < |s.classOf| then 1 else 0 {
      NothingInFree(c, s.free, |s.free|, x);
      NothingInCaches(s.caches, x);
    }
  }

  lemma ListShape(c: Config, s: State, cls: nat)
    requires Inv(c, s) && cls < |s.free|
    ensures ListOk(c, s.classOf, cls, s.free[cls])
  {
  }

  lemma StackShape(c: Config, s: State, k: nat, cls: nat)
    requires Inv(c, s) && k < |s.caches| && cls < c.p.NumClasses()
    ensures |s.caches[k]| == c.p.NumClasses() && StackOk(c, s.classOf, cls, s.caches[k][cls])
  {
  }

  lemma StillChunksOf(old1: seq<nat>, now: seq<nat>, chunks: seq<Chunk>, cls: nat)
    requires old1 <= now && ChunksOf(old1, chunks, cls)
    ensures ChunksOf(now, chunks, cls)
  {
  }

  lemma RegionHoldsChunks(c: Config, cls: nat)
    requires c.Legal() && c.ClassOk(cls)
    ensures c.Size(cls) + c.metaSize > 0 && c.ChunksPerRegion(cls) > 0
  {
    ClassSizes(c, cls);
    A.ProductOne(c.Size(cls) + c.metaSize);
    A.QuotLe(c.regionSize, c.Size(cls) + c.metaSize, 1);
  }

  ghost function Per(c: Config, cls: nat): (n: nat)
    requires c.Legal() && c.ClassOk(cls)
    ensures n > 0
  {
    RegionHoldsChunks(c, cls);
    c.ChunksPerRegion(cls)
  }

  /** The buffer chunks pass through on their way to the batches. */
  const SHUFFLE_SIZE: nat := 48

  lemma SeqSplit(s: seq<Chunk>, i: nat, x: Chunk)
    requires i <= |s|
    ensures InSeq(s[..i], x) + InSeq(s[i..], x) == InSeq(s, x)
  {
    assert s == s[..i] + s[i..];
  }

  lemma SeqNext(s: seq<Chunk>, i: nat, x: Chunk)
    requires i < |s|
    ensures InSeq(s[..i + 1], x) == InSeq(s[..i], x) + InSeq([s[i]], x)
    ensures InSeq(s[i..], x) == InSeq([s[i]], x) + InSeq(s[i + 1..], x)
  {
    assert s[..i + 1] == s[..i] + [s[i]] && s[i..] == [s[i]] + s[i + 1..];
  }

  // How long the batch class can go on serving batches.

  /** How many requests for a region the system grants before it refuses one. */
  function Lead(grants: seq<bool>): nat {
    if grants == [] || !grants[0] then 0 else 1 + Lead(grants[1..])
  }

  /** The chunks in some batches. */
  ghost function Listed(bs: seq<Batch>): nat {
    if bs == [] then 0 else Listed(bs[..|bs| - 1]) + |bs[|bs| - 1].chunks|
  }

  lemma {:induction false} PushListed(b: Batch, bs: seq<Batch>)
    ensures Listed([b] + bs) == |b.chunks| + Listed(bs)
  {
    if bs == [] {
      assert [b] + bs == [b] && [b][..0] == [];
    } else {
      assert ([b] + bs)[..|bs|] == [b] + bs[..|bs| - 1];
      PushListed(b, bs[..|bs| - 1]);
    }
  }

  /** The first n answers are grants. */
  lemma {:induction false} LeadIs(grants: seq<bool>, n: nat)
    ensures n <= Lead(grants) <==> n <= |grants| && forall j :: 0 <= j < n ==> grants[j]
  {
    if n > 0 && grants != [] {
      LeadIs(grants[1..], n - 1);
      assert grants[0] && n <= |grants| && (forall j :: 0 <= j < n - 1 ==> grants[1..][j]) ==> forall j :: 0 <= j < n ==> grants[j] by {
        forall j | 0 < j < n && n <= |grants| ensures grants[j] == grants[1..][j - 1] { }
      }
      assert n <= |grants| && (forall j :: 0 <= j < n ==> grants[j]) ==> forall j :: 0 <= j < n - 1 ==> grants[1..][j];
    }
  }

  /** The batches that n chunks of a class fill, the last one perhaps in part. */
  ghost function BatchesFor(c: Config, cls: nat, n: nat): nat
    requires c.Legal() && c.ClassOk(cls)
  {
    ClassSizes(c, cls);
    A.CeilDiv(n, c.MaxCached(cls))
  }

  lemma {:induction false} FullBatches(bs: seq<Batch>, n: nat)
    requires AllFull(bs, n)
    ensures Listed(bs) == A.Product(|bs|, n)
  {
    if bs != [] { FullBatches(bs[..|bs| - 1], n); }
  }

  function Count(b: Option<Batch>): nat { if b.None? then 0 else |b.value.chunks| }

  /** The chunks of r from some position on were dropped. */
  ghost predicate Lost(was: multiset<Chunk>, now: multiset<Chunk>, r: seq<Chunk>) {
    exists j :: 0 <= j < |r| && now == was + multiset(r[j..])
  }

  /** The buffer holds the chunks of r from some position on. */
  ghost predicate Copied(buffer: seq<Chunk>, r: seq<Chunk>, from: nat) {
    from + |buffer| <= |r| && forall j :: 0 <= j < |buffer| ==> buffer[j] == r[from + j]
  }

  lemma CopiedSplit(buffer: seq<Chunk>, r: seq<Chunk>, from: nat, x: Chunk)
    requires Copied(buffer, r, from)
    ensures InSeq(r[from..], x) == InSeq(buffer, x) + InSeq(r[from + |buffer|..], x)
  {
    assert r[from..] == buffer + r[from + |buffer|..];
  }

  lemma LostMore(was: multiset<Chunk>, now: multiset<Chunk>, buffer: seq<Chunk>, r: seq<Chunk>, from: nat)
    requires Copied(buffer, r, from) && Lost(was, now, buffer)
    ensures Lost(was, now + multiset(r[from + |buffer|..]), r)
  {
    var j :| 0 <= j < |buffer| && now == was + multiset(buffer[j..]);
    assert buffer[j..] + r[from + |buffer|..] == r[from + j..];
  }

  predicate AllFull(bs: seq<Batch>, n: nat) { forall i :: 0 <= i < |bs| ==> |bs[i].chunks| == n }

  /** What a program makes a cache do; chunks are freed by their place among the live ones. */
  datatype Op = Malloc(k: nat, cls: nat) | Free(k: nat, i: nat) | DrainAll(k: nat)

  class Allocator {
    const c: Config
    ghost const per: seq<nat>          // the chunks in a region, by class
    var free: seq<seq<Batch>>
    var caches: seq<seq<seq<Chunk>>>
    var classOf: seq<nat>
    var grants: seq<bool>              // what the system will answer to requests for a region
    ghost var hand: multiset<Chunk>
    ghost var leaked: multiset<Chunk>
    ghost var refused: bool            // some request for a region was refused so far

    ghost function Value(): State reads this { State(free, caches, classOf, hand, leaked) }

    /** Chunks are conserved, and none is lost before the system first refuses a region. */
    ghost predicate Valid() reads this {
      && Inv(c, Value()) && (leaked != multiset{} ==> refused)
      && |per| == c.p.NumClasses() && forall i {:trigger Sized(i)} :: 0 < i < |per| ==> Sized(i)
    }

    ghost predicate Sized(cls: nat)
      requires c.Legal() && cls < |per|
    {
      c.ClassOk(cls) ==> (RegionHoldsChunks(c, cls); 0 < per[cls] == c.ChunksPerRegion(cls))
    }

    ghost predicate Ready(k: nat, cls: nat) reads this {
      Valid() && k < |caches| && c.ClassOk(cls) && c.BatchClass(cls) < |caches[k]| == |free| == c.p.NumClasses()
    }

    ghost function Level(cls: nat): nat requires c.Legal() { if c.BatchClass(cls) == 0 then 0 else 1 }

    /** What cache k can still get of a class that hosts its own batches: the chunks at hand and
        those of the regions the system will grant. */
    ghost function Left(k: nat, cls: nat): nat
      reads this
    {
      if k < |caches| && cls < |caches[k]| && cls < |free| && cls < |per|
      then |caches[k][cls]| + Listed(free[cls]) + A.Product(Lead(grants), per[cls]) else 0
    }

    /** The batches cls can get from the class they live in. */
    ghost function LeftFor(k: nat, cls: nat): nat
      requires c.Legal()
      reads this
    {
      Left(k, c.BatchClass(cls))
    }

    ghost function Made(cls: nat, b: Option<Batch>): nat
      requires cls < |free|
      reads this
    {
      |free[cls]| + (if b.Some? then 1 else 0)
    }

    /** What populating class cls draws on, with what it has made of it so far. */
    ghost function Budget(k: nat, cls: nat, b: Option<Batch>): nat
      requires c.Legal() && cls < |free|
      reads this
    {
      if Own(c, cls) then Lead(grants) else LeftFor(k, cls) + Made(cls, b)
    }

    ghost predicate Granted() reads this { grants != [] && grants[0] }

    /** The list of cls is empty and a region for it is granted, but its batch class cannot get
        all the batches for the new chunks. */
    ghost predicate CutShort(k: nat, cls: nat)
      requires Ready(k, cls)
      reads this
    {
      && free[cls] == [] && Granted() && !Own(c, cls)
      && var b := c.BatchClass(cls);
         |caches[k][b]| + Listed(free[b]) + A.Product(Lead(grants) - 1, per[b]) < BatchesFor(c, cls, per[cls])
    }

    /** How many regions the batch class needs, beyond its chunks at hand, for a new region of cls. */
    ghost function MoreRegions(k: nat, cls: nat): nat
      requires Ready(k, cls) && !Own(c, cls) && per[c.BatchClass(cls)] > 0
      reads this
    {
      var b := c.BatchClass(cls);
      A.CeilDiv(A.Monus(BatchesFor(c, cls, per[cls]), |caches[k][b]| + Listed(free[b])), per[b])
    }

    /** The j-th request for a region from now on will be refused. */
    ghost predicate Refuses(j: nat) reads this { j >= |grants| || !grants[j] }

    /** A population is cut short exactly when its own region is granted and one of those its batch
        class then asks for is refused. */
    lemma CutShortIffRefusedLater(k: nat, cls: nat)
      requires Ready(k, cls) && !Own(c, cls) && free[cls] == []
      ensures per[c.BatchClass(cls)] > 0
      ensures CutShort(k, cls) <==> !Refuses(0) && exists j :: 1 <= j <= MoreRegions(k, cls) && Refuses(j)
    {
      BatchClassIsLast(c, cls);
      var b := c.BatchClass(cls);
      assert Sized(b);
      var need := A.Monus(BatchesFor(c, cls, per[cls]), |caches[k][b]| + Listed(free[b]));
      if Granted() {
        var more := MoreRegions(k, cls);
        A.CeilDivLe(need, per[b], Lead(grants) - 1);
        LeadIs(grants, more + 1);
        if CutShort(k, cls) {
          if more < |grants| {
            var j :| 0 <= j <= more && !grants[j];
            assert Refuses(j);
          } else {
            assert Refuses(more);
          }
        } else {
          forall j | 1 <= j <= more ensures !Refuses(j) { assert grants[j]; }
        }
      }
    }

    constructor (c: Config, numCaches: nat, grants: seq<bool>)
      requires c.Legal()
      ensures Valid() && this.c == c && |caches| == numCaches && hand == multiset{} && leaked == multiset{} && classOf == []
      ensures this.grants == grants && !refused && |free| == c.p.NumClasses()
      ensures forall i :: 0 <= i < |free| ==> free[i] == []
      ensures forall k, i :: 0 <= k < |caches| && 0 <= i < |caches[k]| ==> caches[k][i] == []
      ensures forall k :: 0 <= k < |caches| ==> |caches[k]| == c.p.NumClasses()
    {
      this.c := c;
      per := seq(c.p.NumClasses(), i requires 0 <= i < c.p.NumClasses() => if i == 0 then 0 else Per(c, i));
      free := seq(c.p.NumClasses(), i => []);
      caches := seq(numCaches, i => seq(c.p.NumClasses(), j => []));
      classOf, this.grants := [], grants;
      hand, leaked, refused := multiset{}, multiset{}, false;
      new;
      EmptyIsInv(c, Value());
    }

    /** `AllocateRegion`: its chunks are in hand until they are listed. */
    method AllocateRegion(cls: nat) returns (ok: bool, first: nat)
      requires Valid() && c.ClassOk(cls)
      modifies this
      ensures Valid() && free == old(free) && caches == old(caches) && leaked == old(leaked)
      ensures ok == old(Granted()) && (if ok then grants == old(grants)[1..] else refused && Value() == old(Value()))
      ensures ok ==> c.Size(cls) + c.metaSize > 0 && first == |old(classOf)| && old(classOf) <= classOf
      ensures ok ==> var r := NewChunks(first, c.ChunksPerRegion(cls));
        ChunksOf(classOf, r, cls) && forall x: Chunk :: hand[x] == old(hand)[x] + InSeq(r, x)
    {
      ok, first := grants != [] && grants[0], |classOf|;
      refused := refused || !ok;
      if grants != [] { grants := grants[1..]; }
      if ok {
        ClassSizes(c, cls);
        var n := c.ChunksPerRegion(cls);
        NewRegion(c, Value(), cls, n);
        classOf := classOf + seq(n, i => cls);
        hand := hand + multiset(NewChunks(first, n));
      }
    }

    // One list or one stack at a time.

    method SetBatches(k: nat, cls: nat, bs: seq<Batch>, ghost rest: multiset<Chunk>)
      requires Ready(k, cls) && ListOk(c, classOf, cls, bs)
      requires forall x: Chunk :: InList(Own(c, cls), bs, x) + rest[x] == InList(Own(c, cls), free[cls], x) + hand[x]
      modifies `free, `hand
      ensures Ready(k, cls) && Touches(c, old(Value()), Value(), k, cls) && free == old(free)[cls := bs] && hand == rest
    {
      SetList(c, Value(), cls, bs, rest);
      free, hand := free[cls := bs], rest;
    }

    method PushBack(k: nat, cls: nat, b: Batch)
      requires Ready(k, cls) && BatchOk(c, classOf, cls, b) && forall x: Chunk :: InBatch(Own(c, cls), b, x) <= hand[x]
      modifies `free, `hand
      ensures Ready(k, cls) && Touches(c, old(Value()), Value(), k, cls) && free == old(free)[cls := old(free[cls]) + [b]]
      ensures forall x: Chunk :: hand[x] == old(hand)[x] - InBatch(Own(c, cls), b, x)
    {
      ListShape(c, Value(), cls);
      ghost var rest := hand - Pool(Own(c, cls), b);
      var bs := free[cls] + [b];
      assert bs[..|bs| - 1] == free[cls];
      SetBatches(k, cls, bs, rest);
    }

    /** `DeallocateBatch`. */
    method PushFront(k: nat, cls: nat, b: Batch)
      requires Ready(k, cls) && BatchOk(c, classOf, cls, b) && forall x: Chunk :: InBatch(Own(c, cls), b, x) <= hand[x]
      modifies `free, `hand
      ensures Ready(k, cls) && Touches(c, old(Value()), Value(), k, cls) && free == old(free)[cls := [b] + old(free[cls])]
      ensures forall x: Chunk :: hand[x] == old(hand)[x] - InBatch(Own(c, cls), b, x)
    {
      ListShape(c, Value(), cls);
      ghost var rest := hand - Pool(Own(c, cls), b);
      forall x: Chunk { PushInList(Own(c, cls), b, free[cls], x); }
      SetBatches(k, cls, [b] + free[cls], rest);
    }

    method PopFront(k: nat, cls: nat) returns (b: Batch)
      requires Ready(k, cls) && free[cls] != []
      modifies `free, `hand
      ensures Ready(k, cls) && Touches(c, old(Value()), Value(), k, cls) && BatchOk(c, classOf, cls, b)
      ensures [b] + free[cls] == old(free[cls]) && free == old(free)[cls := free[cls]]
      ensures forall x: Chunk :: hand[x] == old(hand)[x] + InBatch(Own(c, cls), b, x)
    {
      ListShape(c, Value(), cls);
      b := free[cls][0];
      ghost var more := hand + Pool(Own(c, cls), b);
      assert free[cls] == [b] + free[cls][1..];
      forall x: Chunk { PushInList(Own(c, cls), b, free[cls][1..], x); }
      SetBatches(k, cls, free[cls][1..], more);
    }

    method SetChunks(k: nat, cls: nat, stack: seq<Chunk>, ghost rest: multiset<Chunk>)
      requires Ready(k, cls) && StackOk(c, classOf, cls, stack)
      requires forall x: Chunk :: InSeq(stack, x) + rest[x] == InSeq(caches[k][cls], x) + hand[x]
      modifies `caches, `hand
      ensures Valid() && Touches(c, old(Value()), Value(), k, cls) && hand == rest
      ensures caches[k][cls] == stack && caches == old(caches)[k := old(caches[k])[cls := stack]]
    {
      SetStack(c, Value(), k, cls, stack, rest);
      caches, hand := caches[k := caches[k][cls := stack]], rest;
    }

    method Pop(k: nat, cls: nat) returns (top: Chunk)
      requires Ready(k, cls) && caches[k][cls] != []
      modifies `caches, `hand
      ensures Ready(k, cls) && Touches(c, old(Value()), Value(), k, cls)
      ensures caches[k][cls] + [top] == old(caches[k][cls])
      ensures top < |classOf| && classOf[top] == cls
      ensures forall x: Chunk :: hand[x] == old(hand)[x] + (if top == x then 1 else 0)
    {
      StackShape(c, Value(), k, cls);
      var stack := caches[k][cls];
      top := stack[|stack| - 1];
      assert stack == stack[..|stack| - 1] + [top];
      SetChunks(k, cls, stack[..|stack| - 1], hand + multiset{top});
    }

    // Batches and caches, which call each other.

    /** `CreateBatch`: the chunk the new batch object will occupy. */
    method CreateBatch(k: nat, cls: nat, self: Chunk) returns (host: Option<Chunk>)
      requires Ready(k, cls)
      modifies this
      ensures Ready(k, cls) && Touches(c, old(Value()), Value(), k, cls)
      ensures caches[k][cls] == old(caches[k][cls]) && free[cls] == old(free[cls]) && leaked == old(leaked)
      ensures Own(c, cls) ==> host == Some(self) && Value() == old(Value()) && grants == old(grants)
      ensures !Own(c, cls) ==> (host.Some? <==> old(LeftFor(k, cls)) > 0)
      ensures !Own(c, cls) && host.Some? ==> LeftFor(k, cls) == old(LeftFor(k, cls)) - 1
      ensures host.None? ==> refused
      ensures !Own(c, cls) && host.Some? ==> host.value < |classOf| && classOf[host.value] == c.BatchClass(cls)
      ensures forall x: Chunk :: hand[x] == old(hand)[x] + (if !Own(c, cls) && host == Some(x) then 1 else 0)
      decreases Level(cls), 0
    {
      var b := c.BatchClass(cls);
      if b == 0 { return Some(self); }
      BatchClassIsLast(c, cls);
      host := Allocate(k, b);
      InnerTouches(c, old(Value()), Value(), k, cls);
    }

    /** `DestroyBatch`. It cannot fail: the batch class needs no batch of another class. */
    method DestroyBatch(k: nat, cls: nat, host: Chunk)
      requires Ready(k, cls)
      requires !Own(c, cls) ==> host in hand && host < |classOf| && classOf[host] == c.BatchClass(cls)
      modifies this
      ensures Ready(k, cls) && Touches(c, old(Value()), Value(), k, cls)
      ensures caches[k][cls] == old(caches[k][cls]) && free[cls] == old(free[cls]) && leaked == old(leaked)
      ensures forall x: Chunk :: hand[x] == old(hand)[x] - (if !Own(c, cls) && host == x then 1 else 0)
      ensures Own(c, cls) ==> Value() == old(Value()) && grants == old(grants)
      decreases Level(cls), 0
    {
      var b := c.BatchClass(cls);
      if b == 0 { return; }
      BatchClassIsLast(c, cls);
      var ok := Deallocate(k, b, host);
      InnerTouches(c, old(Value()), Value(), k, cls);
    }

    /** `Allocate` of a cache. */
    method Allocate(k: nat, cls: nat) returns (r: Option<Chunk>)
      requires Ready(k, cls)
      modifies this
      ensures Ready(k, cls) && Touches(c, old(Value()), Value(), k, cls)
      ensures r.Some? ==> r.value < |classOf| && classOf[r.value] == cls
      ensures forall x: Chunk :: hand[x] == old(hand)[x] + (if r == Some(x) then 1 else 0)
      ensures r.Some? <==> old(caches[k][cls] != [] || free[cls] != [] || (Granted() && !CutShort(k, cls)))
      ensures if old(caches[k][cls] == [] && CutShort(k, cls)) then Lost(old(leaked), leaked, NewChunks(old(|classOf|), per[cls]))
              else leaked == old(leaked)
      ensures r.None? ==> refused
      ensures Own(c, cls) ==> (r.Some? <==> old(Left(k, cls)) > 0) && (r.Some? ==> Left(k, cls) == old(Left(k, cls)) - 1)
      ensures old(caches[k][cls]) != [] ==>
        r.Some? && caches[k][cls] + [r.value] == old(caches[k][cls]) && free == old(free)
      ensures old(caches[k][cls]) == [] && old(free[cls]) != [] ==>
        r.Some? && caches[k][cls] + [r.value] == old(free[cls][0].chunks) && free[cls] == old(free[cls])[1..]
      decreases Level(cls), 11
    {
      if caches[k][cls] == [] {
        var ok := Refill(k, cls);
        if !ok { return None; }
      }
      ghost var mid := Value();
      var top := Pop(k, cls);
      TouchesOn(c, old(Value()), mid, Value(), k, cls);
      r := Some(top);
    }

    method Refill(k: nat, cls: nat) returns (ok: bool)
      requires Ready(k, cls) && caches[k][cls] == []
      modifies this
      ensures Ready(k, cls) && Touches(c, old(Value()), Value(), k, cls) && (ok ==> caches[k][cls] != [])
      ensures forall x: Chunk :: hand[x] == old(hand)[x]
      ensures ok <==> old(free[cls] != [] || (Granted() && !CutShort(k, cls)))
      ensures if old(CutShort(k, cls)) then Lost(old(leaked), leaked, NewChunks(old(|classOf|), per[cls])) else leaked == old(leaked)
      ensures !ok ==> refused
      ensures Own(c, cls) && ok ==> Left(k, cls) == old(Left(k, cls))
      ensures old(free[cls]) != [] ==> ok && caches[k][cls] == old(free[cls][0].chunks) && free[cls] == old(free[cls])[1..]
      decreases Level(cls), 10
    {
      var b := AllocateBatch(k, cls);
      if b.None? { return false; }
      ghost var mid := Value();
      Unpack(k, cls, b.value);
      TouchesOn(c, old(Value()), mid, Value(), k, cls);
      ok := true;
    }

    /** The chunks of a batch go into an empty cache, and the batch object is given back. */
    method Unpack(k: nat, cls: nat, b: Batch)
      requires Ready(k, cls) && caches[k][cls] == [] && BatchOk(c, classOf, cls, b)
      requires forall x: Chunk :: InBatch(Own(c, cls), b, x) <= hand[x]
      modifies this
      ensures Ready(k, cls) && Touches(c, old(Value()), Value(), k, cls) && leaked == old(leaked)
      ensures caches[k][cls] == b.chunks && free[cls] == old(free[cls])
      ensures forall x: Chunk :: hand[x] == old(hand)[x] - InBatch(Own(c, cls), b, x)
      ensures Own(c, cls) ==> Left(k, cls) == old(Left(k, cls)) + |b.chunks|
      decreases Level(cls), 1
    {
      SetChunks(k, cls, b.chunks, hand - multiset(b.chunks));
      ghost var mid := Value();
      DestroyBatch(k, cls, b.host);
      TouchesOn(c, old(Value()), mid, Value(), k, cls);
    }

    method AllocateBatch(k: nat, cls: nat) returns (b: Option<Batch>)
      requires Ready(k, cls)
      modifies this
      ensures Ready(k, cls) && Touches(c, old(Value()), Value(), k, cls) && caches[k][cls] == old(caches[k][cls])
      ensures b.Some? ==> BatchOk(c, classOf, cls, b.value)
      ensures forall x: Chunk :: hand[x] == old(hand)[x] + InHeld(Own(c, cls), b, x)
      ensures b.Some? <==> old(free[cls] != [] || (Granted() && !CutShort(k, cls)))
      ensures if old(CutShort(k, cls)) then Lost(old(leaked), leaked, NewChunks(old(|classOf|), per[cls])) else leaked == old(leaked)
      ensures b.None? ==> refused
      ensures Own(c, cls) && b.Some? ==> |b.value.chunks| + Left(k, cls) == old(Left(k, cls))
      ensures old(free[cls]) != [] ==> b.Some? && [b.value] + free[cls] == old(free[cls])
      decreases Level(cls), 9
    {
      if free[cls] == [] {
        var ok := PopulateFreeList(k, cls);
        if !ok { return None; }
      }
      ghost var mid := Value();
      var first := PopFront(k, cls);
      PushListed(first, free[cls]);
      TouchesOn(c, old(Value()), mid, Value(), k, cls);
      b := Some(first);
    }

    /** A batch that still takes chunks. */
    ghost predicate Filling(cls: nat, b: Option<Batch>)
      requires c.Legal()
      reads this
    {
      b.Some? ==> BatchOk(c, classOf, cls, b.value) && |b.value.chunks| < c.MaxCached(cls)
    }

    /** The batch chunk p goes into: the one under way, or a new one. */
    method Extended(k: nat, cls: nat, b0: Option<Batch>, p: Chunk)
      returns (b: Option<Batch>)
      requires Ready(k, cls) && Filling(cls, b0) && ChunksOf(classOf, [p], cls)
      modifies this
      ensures Ready(k, cls) && Touches(c, old(Value()), Value(), k, cls) && caches[k][cls] == old(caches[k][cls])
      ensures free[cls] == old(free[cls]) && leaked == old(leaked) && (Own(c, cls) ==> b.Some?) && (b0.Some? ==> b.Some?)
      ensures b.Some? ==> BatchOk(c, classOf, cls, b.value) && Count(b) == Count(b0) + 1
      ensures b.None? ==> refused && old(Budget(k, cls, b0)) == Made(cls, b0)
      ensures b.Some? ==> Budget(k, cls, b) == old(Budget(k, cls, b0))
      ensures b.None? ==> forall x: Chunk :: hand[x] == old(hand)[x]
      ensures b.Some? ==> forall x: Chunk ::
        hand[x] + InHeld(Own(c, cls), b0, x) + InSeq([p], x) == old(hand)[x] + InBatch(Own(c, cls), b.value, x)
      decreases Level(cls), 1
    {
      ClassSizes(c, cls);
      if b0.Some? { return Some(b0.value.(chunks := b0.value.chunks + [p])); }
      var host := CreateBatch(k, cls, p);
      if host.None? { return None; }
      StillChunksOf(old(classOf), classOf, [p], cls);
      b := Some(Batch(host.value, [p]));
    }

    /** One chunk of `PopulateBatches`. */
    method AddToBatch(k: nat, cls: nat, b0: Option<Batch>, p: Chunk)
      returns (ok: bool, b: Option<Batch>)
      requires Ready(k, cls) && Filling(cls, b0) && ChunksOf(classOf, [p], cls)
      requires forall x: Chunk :: InHeld(Own(c, cls), b0, x) + InSeq([p], x) <= hand[x]
      modifies this
      ensures Ready(k, cls) && Touches(c, old(Value()), Value(), k, cls) && caches[k][cls] == old(caches[k][cls])
      ensures Filling(cls, b) && leaked == old(leaked) && (ok ==> b.Some? || free[cls] != []) && |free[cls]| >= |old(free[cls])|
      ensures Listed(free[cls]) + Count(b) == old(Listed(free[cls])) + Count(b0) + (if ok then 1 else 0)
      ensures !ok ==> refused && old(Budget(k, cls, b0)) == |free[cls]|
      ensures ok ==> Budget(k, cls, b) == old(Budget(k, cls, b0))
      ensures !ok ==> b == b0 == None && forall x: Chunk :: hand[x] == old(hand)[x]
      ensures ok ==> forall x: Chunk ::
        hand[x] + InHeld(Own(c, cls), b0, x) + InSeq([p], x) == old(hand)[x] + InHeld(Own(c, cls), b, x)
      ensures Own(c, cls) ==> ok
      ensures AllFull(old(free[cls]), c.MaxCached(cls)) ==> AllFull(free[cls], c.MaxCached(cls))
      decreases Level(cls), 2
    {
      b := Extended(k, cls, b0, p);
      if b.None? { return false, b0; }
      ghost var mid := Value();
      ok := true;
      b := PushIfFull(k, cls, b.value);
      TouchesOn(c, old(Value()), mid, Value(), k, cls);
    }

    method PushIfFull(k: nat, cls: nat, b0: Batch) returns (b: Option<Batch>)
      requires Ready(k, cls) && BatchOk(c, classOf, cls, b0) && forall x: Chunk :: InBatch(Own(c, cls), b0, x) <= hand[x]
      modifies `free, `hand
      ensures Ready(k, cls) && Touches(c, old(Value()), Value(), k, cls)
      ensures Filling(cls, b) && (b.Some? || free[cls] != []) && |free[cls]| >= |old(free[cls])|
      ensures forall x: Chunk :: hand[x] + InBatch(Own(c, cls), b0, x) == old(hand)[x] + InHeld(Own(c, cls), b, x)
      ensures Listed(free[cls]) + Count(b) == old(Listed(free[cls])) + |b0.chunks|
      ensures !Own(c, cls) ==> LeftFor(k, cls) == old(LeftFor(k, cls))
      ensures Made(cls, b) == old(Made(cls, Some(b0)))
      ensures AllFull(old(free[cls]), c.MaxCached(cls)) ==> AllFull(free[cls], c.MaxCached(cls))
    {
      if |b0.chunks| < c.MaxCached(cls) { return Some(b0); }
      if !Own(c, cls) { BatchClassIsLast(c, cls); }
      PushBack(k, cls, b0);
      assert free[cls][..|free[cls]| - 1] == old(free[cls]);
      b := None;
    }

    /** Chunks nobody will ever list again. */
    ghost method Drop(lost: seq<Chunk>)
      requires Valid() && refused && forall x: Chunk :: InSeq(lost, x) <= hand[x]
      modifies `hand, `leaked
      ensures Valid() && forall x: Chunk :: hand[x] == old(hand)[x] - InSeq(lost, x)
      ensures leaked == old(leaked) + multiset(lost)
    {
      Leak(c, Value(), multiset(lost));
      hand, leaked := hand - multiset(lost), leaked + multiset(lost);
    }

    /** When a batch cannot be created the pointers from there on are lost. */
    method PopulateBatches(k: nat, cls: nat, b0: Option<Batch>, ptrs: seq<Chunk>)
      returns (ok: bool, b: Option<Batch>)
      requires Ready(k, cls) && Filling(cls, b0) && ChunksOf(classOf, ptrs, cls)
      requires forall x: Chunk :: InHeld(Own(c, cls), b0, x) + InSeq(ptrs, x) <= hand[x]
      modifies this
      ensures Ready(k, cls) && Touches(c, old(Value()), Value(), k, cls) && caches[k][cls] == old(caches[k][cls])
      ensures Filling(cls, b) && (ok && ptrs != [] ==> b.Some? || free[cls] != []) && |free[cls]| >= |old(free[cls])|
      ensures forall x: Chunk :: hand[x] + InHeld(Own(c, cls), b0, x) + InSeq(ptrs, x)
                              == old(hand)[x] + (if ok then InHeld(Own(c, cls), b, x) else 0)
      ensures Own(c, cls) ==> ok
      ensures if ok then leaked == old(leaked) else refused && Lost(old(leaked), leaked, ptrs)
      ensures ok ==> Budget(k, cls, b) == old(Budget(k, cls, b0))
      ensures !ok ==> old(Budget(k, cls, b0)) == |free[cls]|
      ensures !ok ==> b.None? && Listed(free[cls]) < old(Listed(free[cls])) + Count(b0) + |ptrs|
      ensures ok ==> Listed(free[cls]) + Count(b) == old(Listed(free[cls])) + Count(b0) + |ptrs|
      ensures AllFull(old(free[cls]), c.MaxCached(cls)) ==> AllFull(free[cls], c.MaxCached(cls))
      decreases Level(cls), 3
    {
      ghost var own := Own(c, cls);
      b := b0;
      for i := 0 to |ptrs|
        invariant Ready(k, cls) && Touches(c, old(Value()), Value(), k, cls) && caches[k][cls] == old(caches[k][cls])
        invariant Filling(cls, b) && (i > 0 ==> b.Some? || free[cls] != []) && |free[cls]| >= |old(free[cls])|
        invariant forall x: Chunk :: hand[x] + InHeld(own, b0, x) + InSeq(ptrs[..i], x) == old(hand)[x] + InHeld(own, b, x)
        invariant leaked == old(leaked) && ChunksOf(classOf, ptrs, cls)
        invariant Budget(k, cls, b) == old(Budget(k, cls, b0))
        invariant Listed(free[cls]) + Count(b) == old(Listed(free[cls])) + Count(b0) + i
        invariant AllFull(old(free[cls]), c.MaxCached(cls)) ==> AllFull(free[cls], c.MaxCached(cls))
      {
        forall x: Chunk ensures InHeld(own, b, x) + InSeq(ptrs[i..], x) <= hand[x] { SeqSplit(ptrs, i, x); }
        forall x: Chunk { SeqNext(ptrs, i, x); }
        ghost var mid := Value();
        var added, b1 := AddToBatch(k, cls, b, ptrs[i]);
        TouchesOn(c, old(Value()), mid, Value(), k, cls);
        if !added {
          forall x: Chunk { SeqSplit(ptrs, i, x); }
          Drop(ptrs[i..]);
          return false, None;
        }
        StillChunksOf(mid.classOf, classOf, ptrs, cls);
        b := b1;
      }
      assert ptrs[..|ptrs|] == ptrs;
      ok := true;
    }

    /** Where the loop over a new region stands: the batches hold the chunks before `from`. */
    ghost predicate Listing(k: nat, cls: nat, b: Option<Batch>, r: seq<Chunk>, from: nat, was: multiset<Chunk>, budget: nat)
      requires c.Legal() && cls < |free|
      reads this
    {
      && Budget(k, cls, b) == budget && from <= |r| && Filling(cls, b) && ChunksOf(classOf, r, cls)
      && (from > 0 ==> b.Some? || free[cls] != [])
      && AllFull(free[cls], c.MaxCached(cls)) && Listed(free[cls]) + Count(b) == from
      && forall x: Chunk :: hand[x] == was[x] + InHeld(Own(c, cls), b, x) + InSeq(r[from..], x)
    }

    /** What a failed batch leaves: its buffer is lost in part, the rest of the region is in hand. */
    ghost predicate Failing(cls: nat, buffer: seq<Chunk>, r: seq<Chunk>, from: nat, was: multiset<Chunk>,
                            kept: multiset<Chunk>, budget: nat)
      requires c.Legal() && cls < |free|
      reads this
    {
      var i := from + |buffer|;
      && AllFull(free[cls], c.MaxCached(cls)) && Listed(free[cls]) < i && budget == |free[cls]|
      && Copied(buffer, r, from) && refused && Lost(kept, leaked, buffer)
      && forall x: Chunk :: hand[x] == was[x] + InSeq(r[i..], x)
    }

    /** The buffer goes into batches. */
    method Flush(k: nat, cls: nat, b0: Option<Batch>, buffer: seq<Chunk>, ghost r: seq<Chunk>, ghost from: nat,
                 ghost was: multiset<Chunk>, ghost budget: nat)
      returns (ok: bool, b: Option<Batch>)
      requires Ready(k, cls) && Listing(k, cls, b0, r, from, was, budget)
      requires buffer != [] && Copied(buffer, r, from)
      modifies this
      ensures Ready(k, cls) && Touches(c, old(Value()), Value(), k, cls) && caches[k][cls] == old(caches[k][cls])
      ensures ok ==> Listing(k, cls, b, r, from + |buffer|, was, budget) && leaked == old(leaked)
      ensures !ok ==> Failing(cls, buffer, r, from, was, old(leaked), budget)
      ensures Own(c, cls) ==> ok
      decreases Level(cls), 4
    {
      forall x: Chunk { CopiedSplit(buffer, r, from, x); }
      ok, b := PopulateBatches(k, cls, b0, buffer);
      if ok { StillChunksOf(old(classOf), classOf, r, cls); }
    }

    /** The batch class did not last for the region, and the chunks not listed are lost. */
    ghost predicate GivenUp(cls: nat, r: seq<Chunk>, was: multiset<Chunk>, kept: multiset<Chunk>, budget: nat)
      requires c.Legal() && c.ClassOk(cls)
      reads this
    {
      refused && Lost(kept, leaked, r) && budget < BatchesFor(c, cls, |r|) && forall x: Chunk :: hand[x] == was[x]
    }

    ghost method GiveUp(cls: nat, buffer: seq<Chunk>, r: seq<Chunk>, from: nat, was: multiset<Chunk>, kept: multiset<Chunk>,
                        budget: nat)
      requires Valid() && cls < |free| && c.ClassOk(cls) && Failing(cls, buffer, r, from, was, kept, budget)
      modifies `hand, `leaked
      ensures Valid() && GivenUp(cls, r, was, kept, budget)
    {
      NotAllMade(cls, buffer, r, from, was, kept, budget);
      LostMore(kept, leaked, buffer, r, from);
      Drop(r[from + |buffer|..]);
    }

    /** The buffer goes into batches; if that fails the rest of the region is lost with it. */
    method FlushOrGiveUp(k: nat, cls: nat, b0: Option<Batch>, buffer: seq<Chunk>, ghost r: seq<Chunk>, ghost from: nat,
                         ghost was: multiset<Chunk>, ghost budget: nat)
      returns (ok: bool, b: Option<Batch>)
      requires Ready(k, cls) && Listing(k, cls, b0, r, from, was, budget)
      requires buffer != [] && Copied(buffer, r, from)
      modifies this
      ensures Ready(k, cls) && Touches(c, old(Value()), Value(), k, cls) && caches[k][cls] == old(caches[k][cls])
      ensures ok ==> Listing(k, cls, b, r, from + |buffer|, was, budget) && leaked == old(leaked)
      ensures !ok ==> GivenUp(cls, r, was, old(leaked), budget)
      ensures Own(c, cls) ==> ok
      decreases Level(cls), 5
    {
      ok, b := Flush(k, cls, b0, buffer, r, from, was, budget);
      if !ok { GiveUp(cls, buffer, r, from, was, old(leaked), budget); }
    }

    method PopulateFreeList(k: nat, cls: nat) returns (ok: bool)
      requires Ready(k, cls) && free[cls] == []
      modifies this
      ensures Ready(k, cls) && Touches(c, old(Value()), Value(), k, cls) && caches[k][cls] == old(caches[k][cls])
      ensures (ok ==> free[cls] != []) && forall x: Chunk :: hand[x] == old(hand)[x]
      ensures ok <==> old(Granted() && !CutShort(k, cls))
      ensures if old(CutShort(k, cls)) then Lost(old(leaked), leaked, NewChunks(old(|classOf|), per[cls])) else leaked == old(leaked)
      ensures !ok ==> refused
      ensures ok ==> Batched(cls) && Listed(free[cls]) == per[cls]
      ensures Own(c, cls) && ok ==> Lead(grants) == old(Lead(grants)) - 1
      decreases Level(cls), 8
    {
      var first: nat;
      ok, first := AllocateRegion(cls);
      if !ok { return; }
      RegionHoldsChunks(c, cls);
      assert Sized(cls);
      ghost var mid := Value();
      ok := ListRegion(k, cls, first, c.ChunksPerRegion(cls), old(hand), Budget(k, cls, None));
      TouchesOn(c, old(Value()), mid, Value(), k, cls);
    }

    /** All batches are full but perhaps the last. */
    ghost predicate Batched(cls: nat)
      requires c.Legal() && cls < |free|
      reads this
    {
      forall i :: 0 <= i < |free[cls]| - 1 ==> |free[cls][i].chunks| == c.MaxCached(cls)
    }

    /** One chunk of a new region. */
    method ListChunk(k: nat, cls: nat, b0: Option<Batch>, buffer0: seq<Chunk>, p: Chunk,
                     ghost r: seq<Chunk>, ghost from0: nat, ghost was: multiset<Chunk>, ghost budget: nat)
      returns (ok: bool, b: Option<Batch>, buffer: seq<Chunk>, ghost from: nat)
      requires Ready(k, cls) && Listing(k, cls, b0, r, from0, was, budget)
      requires Copied(buffer0, r, from0) && from0 + |buffer0| < |r| && p == r[from0 + |buffer0|]
      modifies this
      ensures Ready(k, cls) && Touches(c, old(Value()), Value(), k, cls) && caches[k][cls] == old(caches[k][cls])
      ensures ok ==> Listing(k, cls, b, r, from, was, budget) && leaked == old(leaked)
      ensures ok ==> Copied(buffer, r, from) && from + |buffer| == from0 + |buffer0| + 1
      ensures !ok ==> GivenUp(cls, r, was, old(leaked), budget)
      ensures Own(c, cls) ==> ok
      decreases Level(cls), 6
    {
      ok, b, buffer, from := true, b0, buffer0 + [p], from0;
      if |buffer| == SHUFFLE_SIZE {
        ok, b := FlushOrGiveUp(k, cls, b, buffer, r, from, was, budget);
        buffer, from := [], from + |buffer|;
      }
    }

    /** The loop over the chunks of a new region. */
    method ListRegion(k: nat, cls: nat, first: nat, n: nat, ghost was: multiset<Chunk>, ghost budget: nat)
      returns (ok: bool)
      requires Ready(k, cls) && free[cls] == [] && n > 0 && ChunksOf(classOf, NewChunks(first, n), cls)
      requires Budget(k, cls, None) == budget && forall x: Chunk :: hand[x] == was[x] + InSeq(NewChunks(first, n), x)
      modifies this
      ensures Ready(k, cls) && Touches(c, old(Value()), Value(), k, cls) && caches[k][cls] == old(caches[k][cls])
      ensures if Own(c, cls) then ok && Lead(grants) == budget else (ok <==> BatchesFor(c, cls, n) <= budget)
      ensures (ok ==> free[cls] != []) && forall x: Chunk :: hand[x] == was[x]
      ensures if ok then leaked == old(leaked) else refused && Lost(old(leaked), leaked, NewChunks(first, n))
      ensures ok ==> Batched(cls) && Listed(free[cls]) == n
      decreases Level(cls), 7
    {
      ghost var r := NewChunks(first, n);
      var b: Option<Batch>, buffer: seq<Chunk> := None, [];
      var i := 0;
      ghost var from: nat := 0;
      assert r[from..] == r;
      while i < n
        invariant Ready(k, cls) && Touches(c, old(Value()), Value(), k, cls) && caches[k][cls] == old(caches[k][cls])
        invariant from + |buffer| == i <= n && Copied(buffer, r, from) && leaked == old(leaked)
        invariant Listing(k, cls, b, r, from, was, budget)
      {
        ghost var mid := Value();
        ok, b, buffer, from := ListChunk(k, cls, b, buffer, first + i, r, from, was, budget);
        TouchesOn(c, old(Value()), mid, Value(), k, cls);
        if !ok { return; }
        i := i + 1;
      }
      ghost var mid := Value();
      ok := Finish(k, cls, b, buffer, r, from, was, budget);
      TouchesOn(c, old(Value()), mid, Value(), k, cls);
    }

    /** The last chunks of a region and the last batch. */
    method Finish(k: nat, cls: nat, b0: Option<Batch>, buffer: seq<Chunk>, ghost r: seq<Chunk>, ghost from: nat,
                  ghost was: multiset<Chunk>, ghost budget: nat)
      returns (ok: bool)
      requires Ready(k, cls) && r != [] && from + |buffer| == |r| && Copied(buffer, r, from)
      requires Listing(k, cls, b0, r, from, was, budget)
      modifies this
      ensures Ready(k, cls) && Touches(c, old(Value()), Value(), k, cls) && caches[k][cls] == old(caches[k][cls])
      ensures if Own(c, cls) then ok && Lead(grants) == budget else (ok <==> BatchesFor(c, cls, |r|) <= budget)
      ensures (ok ==> free[cls] != []) && forall x: Chunk :: hand[x] == was[x]
      ensures if ok then leaked == old(leaked) else refused && Lost(old(leaked), leaked, r)
      ensures ok ==> Batched(cls) && Listed(free[cls]) == |r|
      decreases Level(cls), 6
    {
      var b := b0;
      if buffer != [] {
        ok, b := FlushOrGiveUp(k, cls, b, buffer, r, from, was, budget);
        if !ok { return; }
      }
      ghost var mid := Value();
      AllMade(k, cls, b, r, was, budget);
      PushLast(k, cls, b, r, was, budget);
      TouchesOn(c, old(Value()), mid, Value(), k, cls);
      ok := true;
    }

    lemma AllMade(k: nat, cls: nat, b: Option<Batch>, r: seq<Chunk>, was: multiset<Chunk>, budget: nat)
      requires c.Legal() && c.ClassOk(cls) && cls < |free| && Listing(k, cls, b, r, |r|, was, budget)
      ensures Made(cls, b) == BatchesFor(c, cls, |r|)
    {
      ClassSizes(c, cls);
      FullBatches(free[cls], c.MaxCached(cls));
      A.CeilDivIs(|r|, c.MaxCached(cls), Made(cls, b));
    }

    lemma NotAllMade(cls: nat, buffer: seq<Chunk>, r: seq<Chunk>, from: nat, was: multiset<Chunk>, kept: multiset<Chunk>, budget: nat)
      requires c.Legal() && c.ClassOk(cls) && cls < |free| && Failing(cls, buffer, r, from, was, kept, budget)
      ensures budget < BatchesFor(c, cls, |r|)
    {
      ClassSizes(c, cls);
      FullBatches(free[cls], c.MaxCached(cls));
      A.CeilDivLe(|r|, c.MaxCached(cls), |free[cls]|);
    }

    method PushLast(k: nat, cls: nat, b: Option<Batch>, ghost r: seq<Chunk>, ghost was: multiset<Chunk>, ghost budget: nat)
      requires Ready(k, cls) && r != [] && Listing(k, cls, b, r, |r|, was, budget)
      modifies `free, `hand
      ensures Ready(k, cls) && Touches(c, old(Value()), Value(), k, cls) && free[cls] != []
      ensures forall x: Chunk :: hand[x] == was[x]
      ensures Batched(cls) && Listed(free[cls]) == |r|
    {
      assert r[|r|..] == [];
      if b.Some? {
        PushBack(k, cls, b.value);
        assert free[cls][..|free[cls]| - 1] == old(free[cls]);
      }
    }

    /** `Deallocate` of a cache; a negative answer is the process's death in `Drain`. */
    method Deallocate(k: nat, cls: nat, p: Chunk) returns (ok: bool)
      requires Ready(k, cls) && p in hand && p < |classOf| && classOf[p] == cls
      modifies this
      ensures Ready(k, cls) && Touches(c, old(Value()), Value(), k, cls) && leaked == old(leaked)
      ensures forall x: Chunk :: hand[x] == old(hand)[x] - (if ok && p == x then 1 else 0)
      ensures Own(c, cls) ==> ok
      ensures ok ==> var was, n := old(caches[k][cls]), c.MaxCached(cls);
        caches[k][cls] == (if |was| == 2 * n then was[..n] else was) + [p]
      decreases Level(cls), 9
    {
      ClassSizes(c, cls);
      StackShape(c, Value(), k, cls);
      if |caches[k][cls]| == 2 * c.MaxCached(cls) {
        ok := Drain(k, cls);
        if !ok { return; }
      }
      ghost var mid := Value();
      Push(k, cls, p);
      TouchesOn(c, old(Value()), mid, Value(), k, cls);
      ok := true;
    }

    method Push(k: nat, cls: nat, p: Chunk)
      requires Ready(k, cls) && p in hand && p < |classOf| && classOf[p] == cls && |caches[k][cls]| < 2 * c.MaxCached(cls)
      modifies `caches, `hand
      ensures Ready(k, cls) && Touches(c, old(Value()), Value(), k, cls)
      ensures caches[k][cls] == old(caches[k][cls]) + [p]
      ensures forall x: Chunk :: hand[x] == old(hand)[x] - (if p == x then 1 else 0)
    {
      StackShape(c, Value(), k, cls);
      SetChunks(k, cls, caches[k][cls] + [p], hand - multiset{p});
    }

    /** `SetFromArray` and `DeallocateBatch`: the top of a stack goes back as one batch. */
    method ReturnTop(k: nat, cls: nat, first: nat, host: Chunk)
      requires Ready(k, cls) && first < |caches[k][cls]| && |caches[k][cls]| - first <= c.MaxCached(cls)
      requires if Own(c, cls) then host == caches[k][cls][first]
               else host in hand && host < |classOf| && classOf[host] == c.BatchClass(cls)
      modifies this
      ensures Ready(k, cls) && Touches(c, old(Value()), Value(), k, cls) && leaked == old(leaked)
      ensures caches[k][cls] == old(caches[k][cls])[..first]
      ensures free[cls] == [Batch(host, old(caches[k][cls])[first..])] + old(free[cls])
      ensures forall x: Chunk :: hand[x] == old(hand)[x] - (if !Own(c, cls) && host == x then 1 else 0)
    {
      StackShape(c, Value(), k, cls);
      var stack := caches[k][cls];
      var b := Batch(host, stack[first..]);
      assert b.chunks[0] == stack[first];
      assert BatchOk(c, classOf, cls, b);
      ghost var more := hand + multiset(stack[first..]);
      forall x: Chunk ensures InSeq(stack[..first], x) + more[x] == InSeq(stack, x) + hand[x] { SeqSplit(stack, first, x); }
      SetChunks(k, cls, stack[..first], more);
      ghost var mid := Value();
      PushFront(k, cls, b);
      TouchesOn(c, old(Value()), mid, Value(), k, cls);
    }

    /** `Drain` of one class: up to half a cache goes back as one batch. */
    method Drain(k: nat, cls: nat) returns (ok: bool)
      requires Ready(k, cls) && caches[k][cls] != []
      modifies this
      ensures Ready(k, cls) && Touches(c, old(Value()), Value(), k, cls) && leaked == old(leaked)
      ensures forall x: Chunk :: hand[x] == old(hand)[x]
      ensures ok ==> var was := old(caches[k][cls]); var first := |was| - A.Min(c.MaxCached(cls), |was|);
        && caches[k][cls] == was[..first] && free[cls] != []
        && free[cls][0].chunks == was[first..] && free[cls][1..] == old(free[cls])
      ensures Own(c, cls) ==> ok
      decreases Level(cls), 8
    {
      ClassSizes(c, cls);
      var count := A.Min(c.MaxCached(cls), |caches[k][cls]|);
      var first := |caches[k][cls]| - count;
      var host := CreateBatch(k, cls, caches[k][cls][first]);
      if host.None? { return false; }
      ghost var mid := Value();
      ReturnTop(k, cls, first, host.value);
      TouchesOn(c, old(Value()), mid, Value(), k, cls);
      ok := true;
    }

    /** `Drain` of a whole cache leaves it empty: the batch class, which draining the others may
        refill, is drained after all of them. */
    method DrainCache(k: nat) returns (ok: bool)
      requires Valid() && k < |caches|
      modifies this
      ensures Valid() && leaked == old(leaked) && forall x: Chunk :: hand[x] == old(hand)[x]
      ensures k < |caches| && |caches[k]| == c.p.NumClasses()
      ensures ok ==> forall i :: 0 < i < c.p.NumClasses() ==> caches[k][i] == []
    {
      StackShape(c, Value(), k, 1);
      var i := 1;
      while i < c.p.NumClasses()
        invariant 1 <= i <= c.p.NumClasses() && Valid() && k < |caches| && |caches[k]| == |free| == c.p.NumClasses()
        invariant leaked == old(leaked) && forall x: Chunk :: hand[x] == old(hand)[x]
        invariant forall j :: 0 < j < i ==> caches[k][j] == []
      {
        if c.BatchClass(i) != 0 { BatchClassIsLast(c, i); }
        ok := DrainClass(k, i);
        if !ok { return; }
        i := i + 1;
      }
      ok := true;
    }

    method DrainClass(k: nat, cls: nat) returns (ok: bool)
      requires Ready(k, cls) && forall j :: 0 < j < cls ==> caches[k][j] == []
      modifies this
      ensures Ready(k, cls) && leaked == old(leaked) && forall x: Chunk :: hand[x] == old(hand)[x]
      ensures ok ==> forall j :: 0 < j <= cls ==> caches[k][j] == []
    {
      ClassSizes(c, cls);
      if c.BatchClass(cls) != 0 { BatchClassIsLast(c, cls); }
      while caches[k][cls] != []
        invariant Ready(k, cls) && leaked == old(leaked) && forall x: Chunk :: hand[x] == old(hand)[x]
        invariant forall j :: 0 < j < cls ==> caches[k][j] == []
        decreases |caches[k][cls]|
      {
        ok := Drain(k, cls);
        if !ok { return; }
      }
      ok := true;
    }

    /** Any sequence of calls by any caches, until one of them kills the process. Whatever was handed
        out and not freed is in use, once, and nothing is lost unless the system refused a region. */
    method Run(ops: seq<Op>) returns (live: seq<Chunk>)
      requires Valid() && hand == multiset{}
      modifies this
      ensures Valid() && forall x: Chunk :: hand[x] == InSeq(live, x)
      ensures forall i, j :: 0 <= i < j < |live| ==> live[i] != live[j]
      ensures !refused ==> leaked == multiset{}
    {
      live := [];
      var n, ok := 0, true;
      while n < |ops| && ok
        invariant Valid() && forall x: Chunk :: hand[x] == InSeq(live, x)
      {
        ok, live := Step(ops[n], live);
        n := n + 1;
      }
      forall i, j | 0 <= i < j < |live| ensures live[i] != live[j] { OnceInUse(live, i, j); }
    }

    lemma OnceInUse(live: seq<Chunk>, i: nat, j: nat)
      requires Valid() && i < j < |live| && forall x: Chunk :: hand[x] == InSeq(live, x)
      ensures live[i] != live[j]
    {
      assert live == live[..j] + [live[j]] + live[j + 1..];
      assert live[i] == live[..j][i];
      assert hand[live[j]] == InSeq(live[..j], live[j]) + 1 + InSeq(live[j + 1..], live[j]);
      InUseNowhereElse(c, Value(), live[j]);
    }

    lemma EveryClassIsServed(k: nat, cls: nat)
      requires Valid() && k < |caches| && c.ClassOk(cls)
      ensures Ready(k, cls)
    {
      StackShape(c, Value(), k, cls);
      if c.BatchClass(cls) != 0 { BatchClassIsLast(c, cls); }
    }

    /** A free of one live chunk, which looks its class up as `GetSizeClass` does. */
    method Release(k: nat, live0: seq<Chunk>, i: nat) returns (ok: bool, live: seq<Chunk>)
      requires Valid() && k < |caches| && i < |live0| && forall x: Chunk :: hand[x] == InSeq(live0, x)
      modifies this
      ensures Valid() && forall x: Chunk :: hand[x] == InSeq(live, x)
    {
      live := live0;
      InUseNowhereElse(c, Value(), live0[i]);
      var cls := classOf[live0[i]];
      if !(0 < cls < c.p.NumClasses()) { return false, live0; }
      EveryClassIsServed(k, cls);
      ok := Deallocate(k, cls, live0[i]);
      if ok {
        assert live0 == live0[..i] + [live0[i]] + live0[i + 1..];
        live := live0[..i] + live0[i + 1..];
      }
    }

    method Step(op: Op, live0: seq<Chunk>) returns (ok: bool, live: seq<Chunk>)
      requires Valid() && forall x: Chunk :: hand[x] == InSeq(live0, x)
      modifies this
      ensures Valid() && forall x: Chunk :: hand[x] == InSeq(live, x)
    {
      ok, live := true, live0;
      match op
      case Malloc(k, cls) =>
        if k < |caches| && 0 < cls < c.p.NumClasses() {
          EveryClassIsServed(k, cls);
          var r := Allocate(k, cls);
          if r.Some? { live := live0 + [r.value]; }
        }
      case Free(k, i) =>
        if k < |caches| && i < |live0| { ok, live := Release(k, live0, i); }
      case DrainAll(k) =>
        if k < |caches| { ok := DrainCache(k); }
    }
  }
  lemma NothingForBatches(a: Allocator, cls: nat)
    requires a.Ready(0, cls) && !Own(a.c, cls) && a.grants == [true, false]
    requires a.free[cls] == [] && a.free[a.c.BatchClass(cls)] == [] && a.caches[0][a.c.BatchClass(cls)] == []
    ensures a.CutShort(0, cls)
  {
    ClassSizes(a.c, cls);
    assert a.Sized(cls);
    assert Lead([true, false][1..]) == 0;
    A.CeilDivLe(a.per[cls], a.c.MaxCached(cls), 0);
  }

  /** A region granted for a class while its batch class gets none: chunks are lost for good. */
  method LosesChunks(c: Config, cls: nat) returns (a: Allocator)
    requires c.Legal() && c.ClassOk(cls) && c.BatchClass(cls) != 0
    ensures fresh(a) && a.Valid() && a.c == c && a.hand == multiset{} && |a.caches| == 1
    ensures cls < |a.per| && Lost(multiset{}, a.leaked, NewChunks(0, a.per[cls])) && a.leaked != multiset{}
  {
    a := new Allocator(c, 1, [true, false]);
    a.EveryClassIsServed(0, cls);
    NothingForBatches(a, cls);
    assert a.caches[0][cls] == [];
    var r := a.Allocate(0, cls);
  }
}
