/** The size-class map: class id to size and back, for every legal choice of the
    template parameters (sanitizer_allocator_size_class_map.h). */
module SizeClassMap {
  import opened Arith

  datatype Params = Params(
    numBits: nat, minLog: nat, midLog: nat, maxLog: nat, maxCachedHint: nat, maxBytesLog: nat)
  {
    /** The template parameters for which every shift in the map is defined. The last
        conjunct is the width of the `1U <<` in `ClassID`. */
    predicate Legal() {
      && numBits >= 1
      && minLog <= midLog <= maxLog
      && numBits - 1 <= midLog
      && maxLog < 32 + (numBits - 1)
      && maxCachedHint >= 1
    }

    function S(): nat requires Legal() { numBits - 1 }
    function MinSize(): nat { Pow2(minLog) }
    function MidSize(): nat { Pow2(midLog) }
    function MaxSize(): nat { Pow2(maxLog) }
    function MidClass(): nat requires Legal() { Shr(MidSize(), minLog) }
    function LargestClassID(): nat requires Legal() { MidClass() + Shl(maxLog - midLog, S()) }
    function BatchClassID(): nat requires Legal() { LargestClassID() + 1 }
    function NumClasses(): nat requires Legal() { LargestClassID() + 2 }

    function Size(classId: nat): nat
      requires Legal()
    {
      if classId == BatchClassID() then maxCachedHint * 8
      else if classId <= MidClass() then Product(MinSize(), classId)
      else
        var d := classId - MidClass();
        var t := Shl(MidSize(), Shr(d, S()));
        t + Product(Shr(t, S()), Low(d, S()))
    }

    function ClassID(size: nat): nat
      requires Legal()
    {
      if size > MaxSize() then 0
      else if size <= MidSize() then Shr(size + MinSize() - 1, minLog)
      else
        var l := Msb(size);
        MsbAtLeast(size, midLog);
        var hbits, lbits := Low(Shr(size, l - S()), S()), Low(size, l - S());
        MidClass() + Shl(l - midLog, S()) + hbits + (if lbits > 0 then 1 else 0)
    }

    function MaxCachedHint(size: nat): nat {
      if size == 0 then 0 else Max(1, Min(maxCachedHint, Quot(Pow2(maxBytesLog), size)))
    }
  }

  lemma MsbAtLeast(n: nat, k: nat)
    requires n >= Pow2(k)
    ensures n > 0 && Msb(n) >= k
  {
  }

  lemma MidClassIs(p: Params)
    requires p.Legal()
    ensures Shl(p.MidClass(), p.minLog) == p.MidSize()
  {
    ShrPow(p.midLog, p.minLog);
    ShlPow(p.midLog - p.minLog, p.minLog);
  }

  lemma LinearSize(p: Params, c: nat)
    requires p.Legal() && c <= p.MidClass()
    ensures p.Size(c) == Shl(c, p.minLog)
  {
    ShlIsProduct(c, p.minLog);
    ProductComm(c, p.MinSize());
  }

  /** The class h steps into the octave that starts at 2^l has size 2^l + h * 2^(l-S). */
  lemma OctaveSizeInside(p: Params, l: nat, h: nat)
    requires p.Legal() && p.midLog <= l <= p.maxLog && h < Pow2(p.S())
    requires l == p.maxLog ==> h == 0
    ensures p.Size(p.MidClass() + Shl(l - p.midLog, p.S()) + h) == Pow2(l) + Shl(h, l - p.S())
  {
    var d := Shl(l - p.midLog, p.S()) + h;
    HighLowUnique(l - p.midLog, h, p.S());
    ShlPow(p.midLog, l - p.midLog);
    ShrPow(l, p.S());
    ShlIsProduct(h, l - p.S());
    ProductComm(h, Pow2(l - p.S()));
    if d == 0 {
      if l > p.midLog { ShlMono(0, l - p.midLog, p.S()); }
      MidClassIs(p);
      LinearSize(p, p.MidClass());
    }
    ClassInRange(p, l, h);
  }

  lemma ClassInRange(p: Params, l: nat, h: nat)
    requires p.Legal() && p.midLog <= l <= p.maxLog && h <= Pow2(p.S())
    requires l == p.maxLog ==> h == 0
    ensures p.MidClass() + Shl(l - p.midLog, p.S()) + h <= p.LargestClassID()
  {
    if l < p.maxLog {
      ShlMono(l - p.midLog + 1, p.maxLog - p.midLog, p.S());
      ShlAdd(l - p.midLog, 1, p.S());
      ShlPow(0, p.S());
    }
  }

  /** The carry `h == 2^S` lands on the first size of the next octave, where the same
      formula holds. */
  lemma OctaveSize(p: Params, l: nat, h: nat)
    requires p.Legal() && p.midLog <= l <= p.maxLog && h <= Pow2(p.S())
    requires l == p.maxLog ==> h == 0
    ensures p.Size(p.MidClass() + Shl(l - p.midLog, p.S()) + h) == Pow2(l) + Shl(h, l - p.S())
  {
    if h < Pow2(p.S()) {
      OctaveSizeInside(p, l, h);
    } else {
      ShlAdd(l - p.midLog, 1, p.S());
      ShlPow(0, p.S());
      OctaveSizeInside(p, l + 1, 0);
      ShlPow(p.S(), l - p.S());
      ShlPow(0, l + 1 - p.S());
      ShlZero(l + 1 - p.S());
    }
  }

  /** Every class above the mid class is a position in one octave. */
  lemma ClassPosition(p: Params, c: nat) returns (l: nat, h: nat)
    requires p.Legal() && p.MidClass() <= c < p.LargestClassID()
    ensures p.midLog <= l < p.maxLog && h < Pow2(p.S())
    ensures c == p.MidClass() + Shl(l - p.midLog, p.S()) + h
  {
    var d := c - p.MidClass();
    HighLow(d, p.S());
    l, h := p.midLog + Shr(d, p.S()), Low(d, p.S());
    ShlCancel(Shr(d, p.S()), p.maxLog - p.midLog, p.S());
  }

  lemma SizeStep(p: Params, c: nat)
    requires p.Legal() && c < p.LargestClassID()
    ensures p.Size(c) < p.Size(c + 1)
  {
    if c < p.MidClass() {
      LinearSize(p, c);
      LinearSize(p, c + 1);
      ShlMono(c, c + 1, p.minLog);
    } else {
      var l, h := ClassPosition(p, c);
      OctaveSize(p, l, h);
      OctaveSize(p, l, h + 1);
      ShlMono(h, h + 1, l - p.S());
    }
  }

  /** Sizes grow strictly with the class id (the batch class aside). */
  lemma {:induction false} SizeStrictlyIncreasing(p: Params, c: nat, d: nat)
    requires p.Legal() && c < d <= p.LargestClassID()
    ensures p.Size(c) < p.Size(d)
    decreases d - c
  {
    SizeStep(p, c);
    if c + 1 < d { SizeStrictlyIncreasing(p, c + 1, d); }
  }

  lemma LargestSize(p: Params)
    requires p.Legal()
    ensures p.Size(p.LargestClassID()) == p.MaxSize()
  {
    OctaveSize(p, p.maxLog, 0);
    ShlZero(p.maxLog - p.S());
  }

  /** The bits of a size with leading bit l: the S bits below it count whole steps of
      2^(l-S), and the rest is the part of a step. */
  lemma SizeBits(s: nat, l: nat, S: nat)
    requires S <= l && Pow2(l) <= s < Pow2(l + 1)
    ensures Shr(s - Pow2(l), l - S) < Pow2(S)
    ensures Low(Shr(s, l - S), S) == Shr(s - Pow2(l), l - S)
    ensures Low(s, l - S) == Low(s - Pow2(l), l - S)
  {
    var k, r := l - S, s - Pow2(l);
    HighLow(r, k);
    var q := Shr(r, k);
    ShlPow(S, k);
    assert q < Pow2(S) by { ShlCancel(q, Pow2(S), k); }
    ShlAdd(Pow2(S), q, k);
    ShrIs(s, k, Pow2(S) + q);
    ShlPow(0, S);
    ShrIs(Pow2(S) + q, S, 1);
  }

  /** Rounding r up to steps of 2^k. */
  lemma StepsUp(r: nat, k: nat)
    ensures var h := Shr(r, k) + (if Low(r, k) > 0 then 1 else 0);
      Shl(h, k) - Pow2(k) < r <= Shl(h, k) && (h == 0 <==> r == 0)
  {
    var q := Shr(r, k);
    HighLow(r, k);
    ShlAdd(q, 1, k);
    ShlPow(0, k);
    ShlZero(k);
    if q > 0 { ShlMono(0, q, k); }
  }

  lemma LeadingBit(p: Params, s: nat)
    requires p.Legal() && p.MidSize() < s <= p.MaxSize()
    ensures p.midLog <= Msb(s) <= p.maxLog
    ensures Msb(s) == p.maxLog ==> s == p.MaxSize()
  {
    MsbAtLeast(s, p.midLog);
    if Msb(s) > p.maxLog { Pow2StrictMono(p.maxLog, Msb(s)); }
  }

  /** Where `ClassID` lands above the mid size: h is the rounded-up number of steps past
      2^l, so the class size is the least multiple of the step that covers the request. */
  lemma ClassIDOctave(p: Params, s: nat) returns (l: nat, h: nat)
    requires p.Legal() && p.MidSize() < s <= p.MaxSize()
    ensures p.midLog <= l <= p.maxLog && l == Msb(s) && h <= Pow2(p.S())
    ensures l == p.maxLog ==> h == 0
    ensures p.ClassID(s) == p.MidClass() + Shl(l - p.midLog, p.S()) + h
    ensures Pow2(l) + Shl(h, l - p.S()) - Pow2(l - p.S()) < s <= Pow2(l) + Shl(h, l - p.S())
    ensures h == 0 ==> s == Pow2(l)
  {
    l := Msb(s);
    LeadingBit(p, s);
    SizeBits(s, l, p.S());
    StepsUp(s - Pow2(l), l - p.S());
    h := Shr(s - Pow2(l), l - p.S()) + (if Low(s - Pow2(l), l - p.S()) > 0 then 1 else 0);
  }

  lemma ClassIDLinear(p: Params, s: nat)
    requires p.Legal() && s <= p.MidSize()
    ensures p.ClassID(s) <= p.MidClass()
    ensures Shl(p.ClassID(s), p.minLog) < s + p.MinSize()
    ensures s <= Shl(p.ClassID(s), p.minLog) == p.Size(p.ClassID(s))
    ensures p.ClassID(s) > 0 ==> p.Size(p.ClassID(s) - 1) == Shl(p.ClassID(s), p.minLog) - p.MinSize()
  {
    var c := p.ClassID(s);
    Pow2Mono(p.midLog, p.maxLog);
    MidClassIs(p);
    HighLow(s + p.MinSize() - 1, p.minLog);
    ShlAdd(p.MidClass(), 1, p.minLog);
    ShlPow(0, p.minLog);
    if c > p.MidClass() { ShlMono(p.MidClass() + 1, c, p.minLog); }
    LinearSize(p, c);
    if c > 0 {
      LinearSize(p, c - 1);
      ShlAdd(c - 1, 1, p.minLog);
    }
  }

  /** A class covers the request, and the class below it does not. */
  lemma ClassIDCovers(p: Params, s: nat)
    requires p.Legal() && s <= p.MaxSize()
    ensures p.ClassID(s) <= p.LargestClassID()
    ensures s <= p.Size(p.ClassID(s))
    ensures p.ClassID(s) > 0 ==> p.Size(p.ClassID(s) - 1) < s
  {
    if s <= p.MidSize() {
      ClassIDLinear(p, s);
    } else {
      var l, h := ClassIDOctave(p, s);
      OctaveSize(p, l, h);
      ClassInRange(p, l, h);
      if h > 0 {
        OctaveSize(p, l, h - 1);
        ShlAdd(h - 1, 1, l - p.S());
        ShlPow(0, l - p.S());
      } else {
        ShlMono(0, l - p.midLog, p.S());
        SizeStep(p, p.ClassID(s) - 1);
        ShlZero(l - p.S());
      }
    }
  }

  /** `ClassID` is the lower adjoint of `Size`: class c can serve a request exactly when
      c is at or above the class the map chooses. */
  lemma LeastCoveringClass(p: Params, s: nat, c: nat)
    requires p.Legal() && s <= p.MaxSize() && c <= p.LargestClassID()
    ensures p.ClassID(s) <= c <==> s <= p.Size(c)
  {
    ClassIDCovers(p, s);
    var k := p.ClassID(s);
    if k < c { SizeStrictlyIncreasing(p, k, c); }
    if c + 1 < k { SizeStrictlyIncreasing(p, c, k - 1); }
  }

  /** Class 0, which serves nothing, is the answer for nothing and for what is too large, and for no
      other size. */
  lemma NoClassIff(p: Params, s: nat)
    requires p.Legal()
    ensures p.ClassID(s) == 0 <==> s == 0 || s > p.MaxSize()
  {
    if s <= p.MaxSize() {
      LeastCoveringClass(p, s, 0);
      ProductZero(p.MinSize());
    }
  }

  /** The sizes of the map are fixed points of rounding. */
  lemma ClassIDOfSize(p: Params, c: nat)
    requires p.Legal() && c <= p.LargestClassID()
    ensures p.Size(c) <= p.MaxSize() && p.ClassID(p.Size(c)) == c
  {
    LargestSize(p);
    if c < p.LargestClassID() { SizeStrictlyIncreasing(p, c, p.LargestClassID()); }
    LeastCoveringClass(p, p.Size(c), c);
    if c > 0 {
      LeastCoveringClass(p, p.Size(c), c - 1);
      SizeStep(p, c - 1);
    }
  }

  /** `Validate` also wants size - 1 to stay in the class. That holds exactly when the
      class is more than one byte wide; with one-byte steps the check fails. */
  lemma PredecessorStaysIffWide(p: Params, c: nat)
    requires p.Legal() && 1 <= c <= p.LargestClassID()
    ensures p.Size(c) > p.Size(c - 1) >= 0
    ensures p.ClassID(p.Size(c) - 1) == c <==> p.Size(c) - p.Size(c - 1) > 1
  {
    SizeStep(p, c - 1);
    ClassIDOfSize(p, c);
    LeastCoveringClass(p, p.Size(c) - 1, c);
    LeastCoveringClass(p, p.Size(c) - 1, c - 1);
  }

  /** A class is one smallest size wide up to the mid class and one step of its octave above. */
  lemma ClassWidth(p: Params, c: nat) returns (e: nat)
    requires p.Legal() && 1 <= c <= p.LargestClassID()
    ensures p.Size(c) == p.Size(c - 1) + Pow2(e)
    ensures if c <= p.MidClass() then e == p.minLog else p.midLog < p.maxLog && e >= p.midLog - p.S()
    ensures c == p.MidClass() + 1 ==> e == p.midLog - p.S()
  {
    if c <= p.MidClass() {
      e := p.minLog;
      LinearSize(p, c);
      LinearSize(p, c - 1);
      ShlAdd(c - 1, 1, p.minLog);
      ShlPow(0, p.minLog);
    } else {
      var l, h := ClassPosition(p, c - 1);
      e := l - p.S();
      OctaveSize(p, l, h);
      OctaveSize(p, l, h + 1);
      ShlAdd(h, 1, e);
      ShlPow(0, e);
      if c == p.MidClass() + 1 && l > p.midLog { ShlMono(0, l - p.midLog, p.S()); }
    }
  }

  predicate PredecessorStays(p: Params, c: nat)
    requires p.Legal()
  {
    p.Size(c) > 0 && p.ClassID(p.Size(c) - 1) == c
  }

  /** In terms of the parameters: `Validate` accepts the map exactly when the smallest size is more
      than a byte and so is the step of the first octave, if there is one. */
  lemma ValidateHoldsIff(p: Params)
    requires p.Legal()
    ensures (forall c: nat :: 1 <= c <= p.LargestClassID() ==> PredecessorStays(p, c))
      <==> p.minLog >= 1 && (p.midLog < p.maxLog ==> p.midLog >= p.numBits)
  {
    if p.minLog >= 1 && (p.midLog < p.maxLog ==> p.midLog >= p.numBits) {
      forall c: nat | 1 <= c <= p.LargestClassID() ensures PredecessorStays(p, c) {
        var e := ClassWidth(p, c);
        Pow2Mono(1, e);
        PredecessorStaysIffWide(p, c);
      }
    } else {
      MidClassIs(p);
      ShlZero(p.minLog);
      var c := if p.minLog == 0 then 1 else p.MidClass() + 1;
      ShlZero(p.S());
      if p.midLog < p.maxLog { ShlMono(0, p.maxLog - p.midLog, p.S()); }
      assert p.MidClass() >= 1 && c <= p.LargestClassID();
      var e := ClassWidth(p, c);
      PredecessorStaysIffWide(p, c);
      assert e == 0 && !PredecessorStays(p, c);
    }
  }

  /** The narrow case exists: with 2^0 as the smallest size the map is the identity
      below the mid size, and size - 1 falls into the previous class. */
  lemma OneByteStepsBreakValidate()
    ensures var p := Params(3, 0, 4, 17, 128, 16);
      p.Legal() && p.Size(1) == 1 && p.ClassID(p.Size(1) - 1) == 0
  {
  }

  /** Above the mid size less than one 2^S-th of the request is wasted. */
  lemma WasteBound(p: Params, s: nat)
    requires p.Legal() && p.MidSize() < s <= p.MaxSize()
    ensures s <= p.Size(p.ClassID(s))
    ensures Shl(p.Size(p.ClassID(s)) - s, p.S()) < s
  {
    var l, h := ClassIDOctave(p, s);
    OctaveSize(p, l, h);
    ShlPow(l - p.S(), p.S());
    ShlMono(p.Size(p.ClassID(s)) - s, Pow2(l - p.S()), p.S());
  }

  lemma ShlAligned(x: nat, j: nat, k: nat)
    requires k <= j
    ensures Rem(Shl(x, j), Pow2(k)) == 0
  {
    ShlShl(x, j - k, k);
    ShlIsProduct(Shl(x, j - k), k);
    QuotOfProduct(Shl(x, j - k), Pow2(k));
  }

  /** Two multiples of 2^j less than one step apart are equal. */
  lemma AlignedGap(z: nat, s: nat, j: nat)
    requires s <= z < s + Pow2(j)
    requires Rem(z, Pow2(j)) == 0 && Rem(s, Pow2(j)) == 0
    ensures z == s
  {
  }

  /** The class size is a multiple of its step, and less than one step above the request. */
  lemma ClassStep(p: Params, s: nat) returns (j: nat)
    requires p.Legal() && s <= p.MaxSize()
    ensures forall k: nat :: k <= j ==> Rem(p.Size(p.ClassID(s)), Pow2(k)) == 0
    ensures s <= p.Size(p.ClassID(s)) < s + Pow2(j)
  {
    var z := p.Size(p.ClassID(s));
    if s <= p.MidSize() {
      ClassIDLinear(p, s);
      j := p.minLog;
      forall k: nat | k <= j ensures Rem(z, Pow2(k)) == 0 { ShlAligned(p.ClassID(s), j, k); }
    } else {
      var l, h := ClassIDOctave(p, s);
      OctaveSize(p, l, h);
      j := l - p.S();
      forall k: nat | k <= j ensures Rem(z, Pow2(k)) == 0 {
        ShlAligned(h, j, k);
        Pow2Divides(k, l);
        MultipleAdd(Pow2(l), Shl(h, j), Pow2(k));
      }
    }
  }

  /** A request that is a multiple of a power of two gets a class size that is one too. */
  lemma ClassSizeKeepsAlignment(p: Params, s: nat, k: nat)
    requires p.Legal() && s <= p.MaxSize() && Rem(s, Pow2(k)) == 0
    ensures Rem(p.Size(p.ClassID(s)), Pow2(k)) == 0
  {
    var j := ClassStep(p, s);
    if k > j {
      Pow2Divides(j, k);
      MultipleTrans(s, Pow2(k), Pow2(j));
      AlignedGap(p.Size(p.ClassID(s)), s, j);
    }
  }

  /** The caching hint is the largest count in 1..hint that keeps a full cache within the
      byte budget, except that one chunk is always cached. */
  lemma CachedHintIsMaximal(p: Params, size: nat)
    requires p.Legal() && size > 0
    ensures 1 <= p.MaxCachedHint(size) <= p.maxCachedHint
    ensures p.MaxCachedHint(size) > 1 ==> Product(p.MaxCachedHint(size), size) <= Pow2(p.maxBytesLog)
    ensures p.MaxCachedHint(size) < p.maxCachedHint ==> Product(p.MaxCachedHint(size) + 1, size) > Pow2(p.maxBytesLog)
  {
    var n := p.MaxCachedHint(size);
    QuotLe(Pow2(p.maxBytesLog), size, n);
    QuotLe(Pow2(p.maxBytesLog), size, n + 1);
  }
}
