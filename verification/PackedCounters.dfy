/** The bit-packed counter array of the 64-bit allocator's page release
    (sanitizer_allocator_primary64.h, PackedCounterArray). A word holds 2^wordLog bits, 64 in
    the runtime; each counter owns 2^sizeLog of them, so a word holds 2^ratioLog counters. */
module PackedCounters {
  import opened Arith

  const WORD_LOG := 6

  /** The values a word of 2^wordLog bits holds. */
  function WordRange(wordLog: nat): nat {
    Pow2(Pow2(wordLog))
  }

  /** The counter of `bits` bits that starts at bit `off` of word w. */
  function Field(w: nat, off: nat, bits: nat): nat {
    Low(Shr(w, off), bits)
  }

  /** A word as the bits above a counter, the counter, and the bits below it. */
  lemma FieldParts(w: nat, off: nat, bits: nat)
    ensures w == Shl(Shl(Shr(w, off + bits), bits) + Field(w, off, bits), off) + Low(w, off)
  {
    HighLow(w, off);
    HighLow(Shr(w, off), bits);
    ShrShr(w, off, bits);
  }

  /** Adding one at a counter that is not full changes that counter alone: nothing carries
      into the bits above it, and the bits below it stay. */
  lemma IncFieldParts(w: nat, off: nat, bits: nat)
    requires Field(w, off, bits) + 1 < Pow2(bits)
    ensures Field(w + Pow2(off), off, bits) == Field(w, off, bits) + 1
    ensures Shr(w + Pow2(off), off + bits) == Shr(w, off + bits)
    ensures Low(w + Pow2(off), off) == Low(w, off)
  {
    var w', f := w + Pow2(off), Field(w, off, bits);
    var hi := Shl(Shr(w, off + bits), bits);
    FieldParts(w, off, bits);
    HighLow(w, off);
    ShlAdd(hi + f, 1, off);
    ShlPow(0, off);
    HighLowUnique(hi + f + 1, Low(w, off), off);
    HighLowUnique(Shr(w, off + bits), f + 1, bits);
    ShrShr(w', off, bits);
  }

  lemma FieldAbove(w: nat, w': nat, off: nat, above: nat, bits: nat)
    requires Shr(w, off) == Shr(w', off) && off <= above
    ensures Field(w, above, bits) == Field(w', above, bits)
  {
    ShrShr(w, off, above - off);
    ShrShr(w', off, above - off);
  }

  lemma FieldBelow(w: nat, w': nat, off: nat, below: nat, bits: nat)
    requires Low(w, off) == Low(w', off) && below + bits <= off
    ensures Field(w, below, bits) == Field(w', below, bits)
  {
    LowShrLow(w, below, off, bits);
    LowShrLow(w', below, off, bits);
  }

  /** Slots of one word do not overlap. */
  lemma SlotsApart(a: nat, b: nat, sizeLog: nat)
    requires a < b
    ensures Shl(a, sizeLog) + Pow2(sizeLog) <= Shl(b, sizeLog)
  {
    ShlAdd(a, 1, sizeLog);
    ShlPow(0, sizeLog);
    ShlMono(a + 1, b, sizeLog);
  }

  lemma IncSlot(w: nat, slot: nat, other: nat, sizeLog: nat)
    requires Field(w, Shl(slot, sizeLog), Pow2(sizeLog)) + 1 < Pow2(Pow2(sizeLog))
    ensures var w' := w + Pow2(Shl(slot, sizeLog));
      Field(w', Shl(other, sizeLog), Pow2(sizeLog))
      == Field(w, Shl(other, sizeLog), Pow2(sizeLog)) + (if other == slot then 1 else 0)
  {
    var off, bits := Shl(slot, sizeLog), Pow2(sizeLog);
    var w' := w + Pow2(off);
    IncFieldParts(w, off, bits);
    if other < slot {
      SlotsApart(other, slot, sizeLog);
      FieldBelow(w, w', off, Shl(other, sizeLog), bits);
    } else if slot < other {
      SlotsApart(slot, other, sizeLog);
      FieldAbove(w, w', off + bits, Shl(other, sizeLog), bits);
    }
  }

  /** A 64-bit word stays one: the addition does not wrap. */
  lemma IncStaysInWord(w: nat, off: nat, bits: nat, rest: nat)
    requires w < Pow2(off + bits + rest)
    requires Field(w, off, bits) + 1 < Pow2(bits)
    ensures w + Pow2(off) < Pow2(off + bits + rest)
  {
    IncFieldParts(w, off, bits);
    BelowByHighBits(w, off + bits, rest);
    BelowByHighBits(w + Pow2(off), off + bits, rest);
  }

  lemma BelowByHighBits(w: nat, low: nat, high: nat)
    ensures w < Pow2(low + high) <==> Shr(w, low) < Pow2(high)
  {
    var h := Shr(w, low);
    HighLow(w, low);
    ShlPow(high, low);
    ShlAdd(h, 1, low);
    ShlPow(0, low);
    if h < Pow2(high) { ShlMono(h + 1, Pow2(high), low); }
    else { ShlMono(Pow2(high), h, low); }
  }

  /** Rounding the counter width to a power of two: the least sizeLog whose 2^sizeLog bits
      hold every value up to `maxValue`. */
  function SizeLog(maxValue: nat): nat
    requires maxValue > 0
  {
    var need := Msb(maxValue) + 1;
    var up := Msb(need);
    if need == Pow2(up) then up else up + 1
  }

  lemma SizeLogFits(maxValue: nat, wordLog: nat)
    requires 0 < maxValue < WordRange(wordLog)
    ensures SizeLog(maxValue) <= wordLog
    ensures maxValue < Pow2(Pow2(SizeLog(maxValue)))
  {
    var need := Msb(maxValue) + 1;
    var up, k := Msb(need), SizeLog(maxValue);
    if Pow2(wordLog) < need { Pow2Mono(Pow2(wordLog), Msb(maxValue)); }
    if wordLog < up { Pow2Mono(wordLog + 1, up); }
    Pow2Mono(need, Pow2(k));
  }

  /** The position of counter i: word index and first bit. */
  lemma PositionInWord(i: nat, length: nat, sizeLog: nat, ratioLog: nat)
    requires i < Shl(length, ratioLog)
    ensures Shr(i, ratioLog) < length
    ensures Shl(Low(i, ratioLog), sizeLog) + Pow2(sizeLog) <= Pow2(sizeLog + ratioLog)
  {
    HighLow(i, ratioLog);
    ShlCancel(Shr(i, ratioLog), length, ratioLog);
    SlotsApart(Low(i, ratioLog), Pow2(ratioLog), sizeLog);
    ShlPow(ratioLog, sizeLog);
  }

  class PackedCounterArray {
    const n: nat
    const wordLog: nat
    const sizeLog: nat
    const ratioLog: nat
    const buffer: array<nat>

    ghost predicate Valid()
      reads buffer
    {
      && sizeLog + ratioLog == wordLog
      && n <= Shl(buffer.Length, ratioLog)
      && forall k :: 0 <= k < buffer.Length ==> buffer[k] < WordRange(wordLog)
    }

    ghost predicate InBuffer(i: nat) {
      Shr(i, ratioLog) < buffer.Length
    }

    /** Counter i as the packed buffer holds it. */
    ghost function Counter(i: nat): nat
      requires InBuffer(i)
      reads buffer
    {
      Field(buffer[Shr(i, ratioLog)], Shl(Low(i, ratioLog), sizeLog), Pow2(sizeLog))
    }

    /** The array of naturals the packed buffer stands for. */
    ghost function Counts(): (s: seq<nat>)
      requires Valid()
      reads buffer
      ensures |s| == n
      ensures forall i: nat :: i < n ==> InBuffer(i) && s[i] == Counter(i)
    {
      forall i: nat | i < n ensures InBuffer(i) { PositionInWord(i, buffer.Length, sizeLog, ratioLog); }
      seq(n, i requires 0 <= i < n && InBuffer(i) reads buffer => Counter(i))
    }

    constructor (numCounters: nat, maxValue: nat)
      requires numCounters > 0 && 0 < maxValue < WordRange(WORD_LOG)
      ensures Valid() && fresh(buffer) && n == numCounters
      ensures maxValue < Pow2(Pow2(sizeLog))
      ensures Counts() == seq(n, i => 0)
    {
      SizeLogFits(maxValue, WORD_LOG);
      var ratio := WORD_LOG - SizeLog(maxValue);
      var length := Shr(RoundUp(numCounters, Pow2(ratio)), ratio);
      n, wordLog := numCounters, WORD_LOG;
      sizeLog, ratioLog := SizeLog(maxValue), ratio;
      buffer := new nat[length](k => 0);
      new;
      RoundedBuffer(numCounters, ratioLog);
      forall i: nat | i < n ensures Counts()[i] == 0 {
        ZeroField(Shl(Low(i, ratioLog), sizeLog), Pow2(sizeLog));
      }
    }

    method Get(i: nat) returns (v: nat)
      requires Valid() && i < n
      ensures v == Counts()[i]
    {
      PositionInWord(i, buffer.Length, sizeLog, ratioLog);
      v := Field(buffer[Shr(i, ratioLog)], Shl(Low(i, ratioLog), sizeLog), Pow2(sizeLog));
      assert v == Counter(i);
    }

    method Inc(i: nat)
      requires Valid() && i < n
      requires Counts()[i] + 1 < Pow2(Pow2(sizeLog))
      modifies buffer
      ensures Valid() && Counts() == old(Counts())[i := old(Counts()[i]) + 1]
    {
      PositionInWord(i, buffer.Length, sizeLog, ratioLog);
      var index, off := Shr(i, ratioLog), Shl(Low(i, ratioLog), sizeLog);
      ghost var w := buffer[index];
      assert Field(w, off, Pow2(sizeLog)) == Counter(i) == Counts()[i];
      IncStaysInWord(w, off, Pow2(sizeLog), Pow2(wordLog) - off - Pow2(sizeLog));
      buffer[index] := buffer[index] + Pow2(off);
      forall j: nat | j < n
        ensures Counts()[j] == old(Counts()[j]) + (if j == i then 1 else 0)
      {
        assert old(Counts()[j]) == old(Counter(j)) && Counts()[j] == Counter(j);
        IncSlot(w, Low(i, ratioLog), Low(j, ratioLog), sizeLog);
        HighLow(i, ratioLog);
        HighLow(j, ratioLog);
      }
    }

    method IncRange(from: nat, to: nat)
      requires Valid() && from <= to < n
      requires forall k :: from <= k <= to ==> Counts()[k] + 1 < Pow2(Pow2(sizeLog))
      modifies buffer
      ensures Valid()
      ensures forall k :: 0 <= k < n ==>
        Counts()[k] == old(Counts()[k]) + (if from <= k <= to then 1 else 0)
    {
      var i := from;
      while i <= to
        invariant from <= i <= to + 1 && Valid()
        invariant forall k :: 0 <= k < n ==>
          Counts()[k] == old(Counts()[k]) + (if from <= k < i then 1 else 0)
      {
        Inc(i);
        i := i + 1;
      }
    }
  }

  lemma RoundedBuffer(n: nat, ratioLog: nat)
    ensures n <= Shl(Shr(RoundUp(n, Pow2(ratioLog)), ratioLog), ratioLog)
  {
    var up := RoundUp(n, Pow2(ratioLog));
    RoundUpProps(n, Pow2(ratioLog));
    ShrIsQuot(up, ratioLog);
    HighLow(up, ratioLog);
  }

  lemma {:induction false} ZeroField(off: nat, bits: nat)
    ensures Field(0, off, bits) == 0
    decreases off + bits
  {
    if off > 0 { ZeroField(off - 1, bits); }
    else if bits > 0 { ZeroField(0, bits - 1); }
  }
}
