/** The two-tier novelty protocol between an instrumented child (cqmsan.cpp: cqmsan_update_map,
    cqmsan_site_known, the fast warning handlers) and the fuzzer (afl-fuzz-run.c:
    check_msan_trace, qmsan_check_bugs, built for instructions, edges, call stacks and call-stack
    edges). The last byte of the shared map tells the fuzzer that something fired. */
module Novelty {
  import A = Arith

  /** The bits of a map byte, lowest first; the two highest have no name. */
  datatype Bit = CLEAN | ERROR | MEMORY | PC_EDGE | CS | CS_EDGE | BIT6 | BIT7

  type Byte = set<Bit>

  const TRACKED: Byte := {ERROR, PC_EDGE, CS, CS_EDGE}
  const ALL: Byte := {CLEAN, ERROR, MEMORY, PC_EDGE, CS, CS_EDGE, BIT6, BIT7}

  type Word = nat

  // The child.

  function Index(x: Word, size: nat): (i: nat)
    requires size > 0
    ensures i < size
  {
    A.Rem(x, size)
  }

  /** Bitwise exclusive or. */
  function Xor(x: Word, y: Word): Word {
    if x == 0 then y else if y == 0 then x
    else 2 * Xor(x / 2, y / 2) + (if x % 2 == y % 2 then 0 else 1)
  }

  /** The frames' program counters folded together; they are the return addresses already moved
      back to the calling instruction. */
  function StackHash(frames: seq<Word>): Word {
    if frames == [] then 0 else Xor(StackHash(frames[..|frames| - 1]), frames[|frames| - 1])
  }

  /** Bit k of a word. */
  function BitOf(x: Word, k: nat): bool { A.Shr(x, k) % 2 == 1 }

  lemma {:induction false} XorBit(x: Word, y: Word, k: nat)
    ensures BitOf(Xor(x, y), k) <==> BitOf(x, k) != BitOf(y, k)
    decreases k
  {
    if x == 0 || y == 0 {
      ShrZero(k);
    } else if k > 0 {
      XorBit(x / 2, y / 2, k - 1);
    }
  }

  lemma {:induction false} ShrZero(k: nat)
    ensures A.Shr(0, k) == 0
  {
    if k > 0 { ShrZero(k - 1); }
  }

  /** How many of the frames have bit k. */
  function FramesWithBit(frames: seq<Word>, k: nat): nat {
    if frames == [] then 0
    else FramesWithBit(frames[..|frames| - 1], k) + if BitOf(frames[|frames| - 1], k) then 1 else 0
  }

  /** Each bit of the hash is the parity of that bit over the frames. */
  lemma {:induction false} StackHashBit(frames: seq<Word>, k: nat)
    ensures BitOf(StackHash(frames), k) <==> FramesWithBit(frames, k) % 2 == 1
  {
    if frames == [] {
      ShrZero(k);
    } else {
      StackHashBit(frames[..|frames| - 1], k);
      XorBit(StackHash(frames[..|frames| - 1]), frames[|frames| - 1], k);
    }
  }

  function Mark(area: seq<Byte>, i: nat, bit: Bit): (r: seq<Byte>)
    requires i < |area|
    ensures |r| == |area|
  {
    area[i := area[i] + {bit}]
  }

  datatype Child = Child(lastEdge: Word, lastCsEdge: Word)

  /** `cqmsan_update_map`: four marks, then the sentinel. */
  function UpdateMap(area: seq<Byte>, c: Child, frames: seq<Word>): (r: seq<Byte>)
    requires |area| > 0 && frames != []
    ensures |r| == |area|
  {
    var n, pc, hash := |area|, frames[0], StackHash(frames);
    var m1 := Mark(area, Index(pc, n), ERROR);
    var m2 := Mark(m1, Index(Xor(c.lastEdge / 2, pc), n), PC_EDGE);
    var m3 := Mark(m2, Index(hash, n), CS);
    var m4 := Mark(m3, Index(Xor(hash, c.lastCsEdge / 2), n), CS_EDGE);
    m4[n - 1 := ALL]
  }

  /** `cqmsan_update_map_pc`: without the stack. */
  function UpdateMapPc(area: seq<Byte>, c: Child, pc: Word): (r: seq<Byte>)
    requires |area| > 0
    ensures |r| == |area|
  {
    var m1 := Mark(area, Index(pc, |area|), ERROR);
    var m2 := Mark(m1, Index(Xor(c.lastEdge / 2, pc), |area|), PC_EDGE);
    m2[|area| - 1 := ALL]
  }

  function SiteKnown(area: seq<Byte>, skipKnown: bool, pc: Word): bool
    requires |area| > 0
  {
    skipKnown && ERROR in area[Index(pc, |area|)]
  }

  // The fuzzer.

  datatype Counters = Counters(errors: nat, edges: nat, callstack: nat, callstackEdges: nat)

  datatype State = State(shared: seq<Byte>, seen: seq<Byte>, child: Child, skipKnown: bool,
                         counters: Counters, runs: nat, crashes: nat)

  function Folded(shared: seq<Byte>, seen: seq<Byte>): (r: seq<Byte>)
    requires |shared| == |seen| > 0
    ensures |r| == |seen|
  {
    seq(|seen|, i requires 0 <= i < |seen| => if i < |seen| - 1 then seen[i] + (shared[i] * TRACKED) else seen[i])
  }

  /** A tracked bit below the sentinel that the fuzzer has not seen. */
  ghost predicate NewAt(shared: seq<Byte>, seen: seq<Byte>, i: nat, bit: Bit) {
    i < |shared| - 1 && i < |seen| && bit in TRACKED && bit in shared[i] && bit !in seen[i]
  }

  ghost predicate Novel(shared: seq<Byte>, seen: seq<Byte>) {
    exists i, bit :: NewAt(shared, seen, i, bit)
  }

  /** How many of the first n bytes have the bit. */
  function Count(area: seq<Byte>, bit: Bit, n: nat): (c: nat)
    requires n <= |area|
    ensures c <= n
  {
    if n == 0 then 0 else Count(area, bit, n - 1) + (if bit in area[n - 1] then 1 else 0)
  }

  function CountersOf(seen: seq<Byte>): Counters
    requires |seen| > 0
  {
    var n := |seen| - 1;
    Counters(Count(seen, ERROR, n), Count(seen, PC_EDGE, n), Count(seen, CS, n), Count(seen, CS_EDGE, n))
  }

  function Sum(c: Counters): nat { c.errors + c.edges + c.callstack + c.callstackEdges }

  function Sentinel(s: State): Byte requires |s.shared| > 0 { s.shared[|s.shared| - 1] }

  /** What always holds between steps: the fuzzer has seen only what is in the shared map, all of
      it once the sentinel is clear, its counters say how much that is, and it never ran the
      accurate detector more often than that. */
  ghost predicate Inv(s: State) {
    && |s.shared| == |s.seen| > 0
    && (forall i, bit :: SeenAt(s, i, bit) ==> SharedAt(s, i, bit))
    && UpToDate(s)
    && CountersOk(s)
  }

  /** With the sentinel clear nothing in the shared map is new. */
  ghost predicate UpToDate(s: State) {
    |s.shared| > 0 && (Sentinel(s) == {} ==> forall i, bit :: SharedAt(s, i, bit) ==> SeenAt(s, i, bit))
  }

  /** The counters say how many bytes have each bit, and bound the accurate detector's runs. */
  ghost predicate CountersOk(s: State) {
    |s.seen| > 0 && s.counters == CountersOf(s.seen) && s.crashes <= s.runs <= Sum(s.counters)
  }

  ghost predicate SeenAt(s: State, i: nat, bit: Bit) { i < |s.seen| - 1 && bit in TRACKED && bit in s.seen[i] }

  ghost predicate SharedAt(s: State, i: nat, bit: Bit) { i < |s.shared| - 1 && bit in TRACKED && bit in s.shared[i] }

  // Steps.

  datatype Op =
    | NewExecution(child: Child)
    | Warning(frames: seq<Word>)     // the unwound stack of a firing, empty when unwinding fails
    | WarningPc(pc: Word)
    | CheckBugs(crash: bool)         // the accurate detector's answer, if it is asked

  ghost function Step(s: State, op: Op): (t: State)
    requires |s.shared| == |s.seen| > 0
    ensures |t.shared| == |t.seen| == |s.shared|
  {
    match op
    case NewExecution(c) => s.(child := c)
    case Warning(frames) =>
      if frames == [] || SiteKnown(s.shared, s.skipKnown, frames[0]) then s
      else s.(shared := UpdateMap(s.shared, s.child, frames), child := Child(frames[0], StackHash(frames)))
    case WarningPc(pc) =>
      if SiteKnown(s.shared, s.skipKnown, pc) then s
      else s.(shared := UpdateMapPc(s.shared, s.child, pc), child := s.child.(lastEdge := pc))
    case CheckBugs(crash) =>
      if Sentinel(s) == {} then s
      else
        Checked(s, Novel(s.shared, s.seen), crash)
  }

  /** A check that went through the maps. */
  function Checked(s: State, heavy: bool, crash: bool): (t: State)
    requires |s.shared| == |s.seen| > 0
    ensures |t.shared| == |t.seen| == |s.shared|
  {
    var seen1 := Folded(s.shared, s.seen);
    s.(shared := s.shared[|s.shared| - 1 := {}], seen := seen1, counters := CountersOf(seen1),
       runs := s.runs + (if heavy then 1 else 0), crashes := s.crashes + (if heavy && crash then 1 else 0))
  }

  lemma MarkAt(area: seq<Byte>, i: nat, bit: Bit, k: nat, other: Bit)
    requires i < |area| && k < |area| && bit in TRACKED && other in TRACKED
    ensures other in Mark(area, i, bit)[k] <==> other in area[k] || (k == i && other == bit)
  {
  }

  /** Exactly the four marks of a firing are added below the sentinel. */
  lemma UpdateMapAt(area: seq<Byte>, c: Child, frames: seq<Word>, k: nat, bit: Bit)
    requires |area| > 0 && frames != [] && k < |area| - 1 && bit in TRACKED
    ensures bit in UpdateMap(area, c, frames)[k] <==>
      || bit in area[k]
      || (bit == ERROR && k == Index(frames[0], |area|))
      || (bit == PC_EDGE && k == Index(Xor(c.lastEdge / 2, frames[0]), |area|))
      || (bit == CS && k == Index(StackHash(frames), |area|))
      || (bit == CS_EDGE && k == Index(Xor(StackHash(frames), c.lastCsEdge / 2), |area|))
  {
    var n, pc, hash := |area|, frames[0], StackHash(frames);
    var m1 := Mark(area, Index(pc, n), ERROR);
    var m2 := Mark(m1, Index(Xor(c.lastEdge / 2, pc), n), PC_EDGE);
    var m3 := Mark(m2, Index(hash, n), CS);
    MarkAt(area, Index(pc, n), ERROR, k, bit);
    MarkAt(m1, Index(Xor(c.lastEdge / 2, pc), n), PC_EDGE, k, bit);
    MarkAt(m2, Index(hash, n), CS, k, bit);
    MarkAt(m3, Index(Xor(hash, c.lastCsEdge / 2), n), CS_EDGE, k, bit);
  }

  lemma UpdateMapPcAt(area: seq<Byte>, c: Child, pc: Word, k: nat, bit: Bit)
    requires |area| > 0 && k < |area| - 1 && bit in TRACKED
    ensures bit in UpdateMapPc(area, c, pc)[k] <==>
      || bit in area[k]
      || (bit == ERROR && k == Index(pc, |area|))
      || (bit == PC_EDGE && k == Index(Xor(c.lastEdge / 2, pc), |area|))
  {
    MarkAt(area, Index(pc, |area|), ERROR, k, bit);
    MarkAt(Mark(area, Index(pc, |area|), ERROR), Index(Xor(c.lastEdge / 2, pc), |area|), PC_EDGE, k, bit);
  }

  lemma FoldedAt(shared: seq<Byte>, seen: seq<Byte>, i: nat, bit: Bit)
    requires |shared| == |seen| > 0 && i < |seen| - 1 && bit in TRACKED
    ensures bit in Folded(shared, seen)[i] <==> bit in seen[i] || bit in shared[i]
  {
  }

  // Counting.

  lemma {:induction false} CountMono(a: seq<Byte>, b: seq<Byte>, bit: Bit, n: nat)
    requires n <= |a| && n <= |b| && forall i :: 0 <= i < n && bit in a[i] ==> bit in b[i]
    ensures Count(a, bit, n) <= Count(b, bit, n)
    ensures forall i :: 0 <= i < n && bit !in a[i] && bit in b[i] ==> Count(a, bit, n) < Count(b, bit, n)
  {
    if n > 0 { CountMono(a, b, bit, n - 1); }
  }

  lemma FoldKeepsBits(shared: seq<Byte>, seen: seq<Byte>, bit: Bit)
    requires |shared| == |seen| > 0 && bit in TRACKED
    ensures forall i :: 0 <= i < |seen| - 1 && bit in seen[i] ==> bit in Folded(shared, seen)[i]
  {
    forall i | 0 <= i < |seen| - 1 ensures bit in seen[i] ==> bit in Folded(shared, seen)[i] {
      FoldedAt(shared, seen, i, bit);
    }
  }

  /** Folding never lowers a counter, and raises one if there is something new. */
  lemma FoldCounts(shared: seq<Byte>, seen: seq<Byte>)
    requires |shared| == |seen| > 0
    ensures Sum(CountersOf(seen)) + (if Novel(shared, seen) then 1 else 0) <= Sum(CountersOf(Folded(shared, seen)))
  {
    var seen1, n := Folded(shared, seen), |seen| - 1;
    forall bit | bit in TRACKED ensures Count(seen, bit, n) <= Count(seen1, bit, n) {
      FoldKeepsBits(shared, seen, bit);
      CountMono(seen, seen1, bit, n);
    }
    if i, bit :| NewAt(shared, seen, i, bit) {
      FoldKeepsBits(shared, seen, bit);
      FoldedAt(shared, seen, i, bit);
      CountMono(seen, seen1, bit, n);
    }
  }

  // The invariant.

  /** A firing adds to the shared map and raises the sentinel. */
  lemma FiringKeeps(s: State, t: State)
    requires Inv(s) && t.seen == s.seen && |t.shared| == |s.shared| && Sentinel(t) != {}
    requires t.counters == s.counters && t.runs == s.runs && t.crashes == s.crashes
    requires forall i, bit :: SharedAt(s, i, bit) ==> SharedAt(t, i, bit)
    ensures Inv(t)
  {
    forall i, bit | SeenAt(t, i, bit) ensures SharedAt(t, i, bit) { assert SeenAt(s, i, bit); }
  }

  lemma CheckKeeps(s: State, crash: bool)
    requires Inv(s) && Sentinel(s) != {}
    ensures Inv(Step(s, CheckBugs(crash)))
  {
    var t := Step(s, CheckBugs(crash));
    forall i: nat, bit | i < |s.seen| - 1 && bit in TRACKED ensures SeenAt(t, i, bit) <==> SharedAt(t, i, bit) {
      FoldedAt(s.shared, s.seen, i, bit);
      assert SeenAt(s, i, bit) ==> SharedAt(s, i, bit);
    }
    FoldCounts(s.shared, s.seen);
  }

  lemma StepKeepsInv(s: State, op: Op)
    requires Inv(s)
    ensures Inv(Step(s, op))
  {
    var t := Step(s, op);
    match op
    case NewExecution(_) =>
      assert forall i, bit :: (SeenAt(t, i, bit) <==> SeenAt(s, i, bit)) && (SharedAt(s, i, bit) <==> SharedAt(t, i, bit));
    case Warning(frames) =>
      if t != s {
        forall i, bit | SharedAt(s, i, bit) ensures SharedAt(t, i, bit) { UpdateMapAt(s.shared, s.child, frames, i, bit); }
        FiringKeeps(s, t);
      }
    case WarningPc(pc) =>
      if t != s {
        forall i, bit | SharedAt(s, i, bit) ensures SharedAt(t, i, bit) { UpdateMapPcAt(s.shared, s.child, pc, i, bit); }
        FiringKeeps(s, t);
      }
    case CheckBugs(crash) =>
      if Sentinel(s) != {} { CheckKeeps(s, crash); }
  }

  ghost predicate IsRun(states: seq<State>, ops: seq<Op>) {
    && |states| == |ops| + 1 && Inv(states[0])
    && forall t {:trigger ops[t]} :: 0 <= t < |ops| ==> Next(states[t], ops[t], states[t + 1])
  }

  ghost predicate Next(s: State, op: Op, t: State) { |s.shared| == |s.seen| > 0 && t == Step(s, op) }

  lemma NextKeepsInv(s: State, op: Op, t: State)
    requires Inv(s) && Next(s, op, t)
    ensures Inv(t)
  {
    StepKeepsInv(s, op);
  }

  ghost predicate Keeps(s: State, t: State) { Inv(s) ==> Inv(t) }

  lemma {:induction false} KeptAlong(states: seq<State>, n: nat)
    requires n < |states| && Inv(states[0]) && forall t :: 0 <= t < n ==> Keeps(states[t], states[t + 1])
    ensures Inv(states[n])
  {
    if n > 0 {
      KeptAlong(states, n - 1);
      assert Keeps(states[n - 1], states[n]);
    }
  }

  lemma InvAlways(states: seq<State>, ops: seq<Op>, n: nat)
    requires IsRun(states, ops) && n < |states|
    ensures Inv(states[n])
  {
    forall t | 0 <= t < n ensures Keeps(states[t], states[t + 1]) {
      if Inv(states[t]) { NextKeepsInv(states[t], ops[t], states[t + 1]); }
    }
    KeptAlong(states, n);
  }

  /** A fresh session. */
  lemma FreshIsInv(size: nat, c: Child, skip: bool)
    requires size > 0
    ensures var zero := seq(size, i => {}); Inv(State(zero, zero, c, skip, Counters(0, 0, 0, 0), 0, 0))
  {
    CountZero(size, ERROR, size - 1);
    CountZero(size, PC_EDGE, size - 1);
    CountZero(size, CS, size - 1);
    CountZero(size, CS_EDGE, size - 1);
  }

  lemma {:induction false} CountZero(size: nat, bit: Bit, n: nat)
    requires n <= size
    ensures Count(seq(size, i => {}), bit, n) == 0
  {
    if n > 0 { CountZero(size, bit, n - 1); }
  }

  // The promises.

  /** With the sentinel clear the two maps agree on the tracked bits below it. */
  lemma ClearSentinelMeansAgreement(states: seq<State>, ops: seq<Op>, n: nat)
    requires IsRun(states, ops) && n < |states|
    ensures |states[n].shared| > 0
    ensures Sentinel(states[n]) == {} ==> forall i, bit :: SeenAt(states[n], i, bit) <==> SharedAt(states[n], i, bit)
  {
    InvAlways(states, ops, n);
    var s := states[n];
    if Sentinel(s) == {} {
      assert UpToDate(s);
    }
  }

  /** What a step has put in a map stays there, below the sentinel. */
  lemma MapsGrow(s: State, op: Op, i: nat, bit: Bit)
    requires Inv(s)
    ensures SharedAt(s, i, bit) ==> SharedAt(Step(s, op), i, bit)
    ensures SeenAt(s, i, bit) ==> SeenAt(Step(s, op), i, bit)
  {
    if i < |s.shared| - 1 && bit in TRACKED {
      match op
      case NewExecution(_) =>
      case Warning(frames) => if frames != [] { UpdateMapAt(s.shared, s.child, frames, i, bit); }
      case WarningPc(pc) => UpdateMapPcAt(s.shared, s.child, pc, i, bit);
      case CheckBugs(_) => FoldedAt(s.shared, s.seen, i, bit);
    }
  }

  ghost predicate Grows(s: State, t: State) {
    forall i, bit :: (SharedAt(s, i, bit) ==> SharedAt(t, i, bit)) && (SeenAt(s, i, bit) ==> SeenAt(t, i, bit))
  }

  lemma NextGrows(s: State, op: Op, t: State)
    requires Inv(s) && Next(s, op, t)
    ensures Grows(s, t)
  {
    forall i, bit ensures (SharedAt(s, i, bit) ==> SharedAt(t, i, bit)) && (SeenAt(s, i, bit) ==> SeenAt(t, i, bit)) {
      MapsGrow(s, op, i, bit);
    }
  }

  lemma GrowsOn(s: State, t: State, u: State)
    requires Grows(s, t) && Grows(t, u)
    ensures Grows(s, u)
  {
  }

  lemma RunGrows(states: seq<State>, ops: seq<Op>, n: nat)
    requires IsRun(states, ops) && n < |ops|
    ensures Grows(states[n], states[n + 1])
  {
    InvAlways(states, ops, n);
    NextGrows(states[n], ops[n], states[n + 1]);
  }

  lemma {:induction false} GrownAlong(states: seq<State>, a: nat, n: nat)
    requires a <= n < |states| && forall t :: a <= t < n ==> Grows(states[t], states[t + 1])
    ensures Grows(states[a], states[n])
  {
    if a < n {
      GrownAlong(states, a, n - 1);
      GrowsOn(states[a], states[n - 1], states[n]);
    }
  }

  lemma MapsGrowOn(states: seq<State>, ops: seq<Op>, a: nat, n: nat)
    requires IsRun(states, ops) && a <= n < |states|
    ensures Grows(states[a], states[n])
  {
    forall t | a <= t < n ensures Grows(states[t], states[t + 1]) { RunGrows(states, ops, t); }
    GrownAlong(states, a, n);
  }

  /** Every bit in the shared map at some time is in the fuzzer's after the next check. */
  lemma CheckFoldsEverything(states: seq<State>, ops: seq<Op>, a: nat, n: nat, i: nat, bit: Bit)
    requires IsRun(states, ops) && a <= n < |ops| && ops[n].CheckBugs? && SharedAt(states[a], i, bit)
    ensures SeenAt(states[n + 1], i, bit)
  {
    MapsGrowOn(states, ops, a, n);
    InvAlways(states, ops, n);
    var s := states[n];
    if Sentinel(s) != {} { FoldedAt(s.shared, s.seen, i, bit); }
  }

  /** The program counter a warning reports, if it has one. */
  predicate Fires(op: Op) { (op.Warning? && op.frames != []) || op.WarningPc? }

  function SiteOf(op: Op): Word
    requires Fires(op)
  {
    if op.Warning? then op.frames[0] else op.pc
  }

  lemma FiredSiteIsShared(s: State, op: Op)
    requires Inv(s) && Fires(op)
    ensures var i := Index(SiteOf(op), |s.shared|); i < |s.shared| - 1 ==> SharedAt(Step(s, op), i, ERROR)
  {
    var i := Index(SiteOf(op), |s.shared|);
    if i < |s.shared| - 1 {
      if op.Warning? { UpdateMapAt(s.shared, s.child, op.frames, i, ERROR); }
      else { UpdateMapPcAt(s.shared, s.child, op.pc, i, ERROR); }
    }
  }

  /** Every fired site is known to the fuzzer after its next check, whether the firing was
      recorded or skipped as known, unless its index is the sentinel's. */
  lemma FiredSiteIsFolded(states: seq<State>, ops: seq<Op>, a: nat, n: nat)
    requires IsRun(states, ops) && a < n < |ops| && ops[n].CheckBugs? && Fires(ops[a]) && |states[a].shared| > 0
    ensures var i := Index(SiteOf(ops[a]), |states[a].shared|);
      i < |states[a].shared| - 1 ==> SeenAt(states[n + 1], i, ERROR)
  {
    InvAlways(states, ops, a);
    FiredSiteIsShared(states[a], ops[a]);
    var i := Index(SiteOf(ops[a]), |states[a].shared|);
    if i < |states[a].shared| - 1 { CheckFoldsEverything(states, ops, a + 1, n, i, ERROR); }
  }

  /** A site the fuzzer has not recorded is recorded by the check that follows its firing, in the
      very byte of its index, exactly when that is not the sentinel's. */
  lemma SiteIsRecordedIffBelowSentinel(s: State, op: Op, crash: bool)
    requires Inv(s) && Fires(op) && ERROR !in s.seen[Index(SiteOf(op), |s.seen|)]
    ensures var t, i := Step(Step(s, op), CheckBugs(crash)), Index(SiteOf(op), |s.seen|);
      ERROR in t.seen[i] <==> i < |s.seen| - 1
  {
    var f, i := Step(s, op), Index(SiteOf(op), |s.seen|);
    StepKeepsInv(s, op);
    FiredSiteIsShared(s, op);
    if i < |s.seen| - 1 {
      assert SharedAt(f, i, ERROR);
      FoldedAt(f.shared, f.seen, i, ERROR);
      assert Sentinel(f) == {} ==> SeenAt(f, i, ERROR);
    }
  }

  function Blank(n: nat, skipKnown: bool): State
    requires n > 0
  {
    State(seq(n, i => {}), seq(n, i => {}), Child(0, 0), skipKnown, Counters(0, 0, 0, 0), 0, 0)
  }

  lemma {:induction false} NothingCounted(area: seq<Byte>, bit: Bit, n: nat)
    requires n <= |area| && forall i :: 0 <= i < n ==> area[i] == {}
    ensures Count(area, bit, n) == 0
  {
    if n > 0 { NothingCounted(area, bit, n - 1); }
  }

  lemma BlankIsInv(n: nat, skipKnown: bool)
    requires n > 0
    ensures Inv(Blank(n, skipKnown))
  {
    var s := Blank(n, skipKnown);
    NothingCounted(s.seen, ERROR, n - 1);
    NothingCounted(s.seen, PC_EDGE, n - 1);
    NothingCounted(s.seen, CS, n - 1);
    NothingCounted(s.seen, CS_EDGE, n - 1);
  }

  /** With maps of any size, the first firing of a process at the site of the sentinel's index
      teaches the fuzzer nothing and never reaches the accurate detector, with or without a stack. */
  lemma SentinelSiteIsLost(n: nat, skipKnown: bool, op: Op, crash: bool)
    requires n > 0 && (op == WarningPc(n - 1) || op == Warning([n - 1]))
    ensures Fires(op) && Index(SiteOf(op), n) == n - 1 && Inv(Blank(n, skipKnown))
    ensures var f := Step(Blank(n, skipKnown), op); Sentinel(f) != {} && Step(f, CheckBugs(crash)).seen == Blank(n, skipKnown).seen
    ensures Step(Step(Blank(n, skipKnown), op), CheckBugs(crash)).runs == 0
  {
    var s := Blank(n, skipKnown);
    BlankIsInv(n, skipKnown);
    var f := Step(s, op);
    assert StackHash([n - 1]) == Xor(0, n - 1) == n - 1 by { assert StackHash([n - 1][..0]) == 0; }
    assert Xor(n - 1, 0) == n - 1;
    forall i: nat, bit | i < n - 1 ensures bit !in f.shared[i] * TRACKED {
      if bit in TRACKED {
        if op.Warning? { UpdateMapAt(s.shared, s.child, op.frames, i, bit); } else { UpdateMapPcAt(s.shared, s.child, op.pc, i, bit); }
      }
    }
    forall i: nat | i < n ensures Folded(f.shared, f.seen)[i] == {} { }
    assert Folded(f.shared, f.seen) == s.seen;
    assert !Novel(f.shared, f.seen);
  }

  /** The pair makes the check ask the accurate detector. */
  ghost predicate Triggers(s: State, op: Op, i: nat, bit: Bit) {
    op.CheckBugs? && |s.shared| > 0 && Sentinel(s) != {} && NewAt(s.shared, s.seen, i, bit)
  }

  ghost predicate Asks(s: State, op: Op) { exists i, bit :: Triggers(s, op, i, bit) }

  /** A check asks the detector exactly when some pair is new, and counts a crash exactly when it
      asked and the detector says so. */
  lemma AskedForNovelty(s: State, op: Op)
    requires Inv(s)
    ensures Step(s, op).runs == s.runs + (if Asks(s, op) then 1 else 0)
    ensures Step(s, op).crashes == s.crashes + (if Asks(s, op) && op.crash then 1 else 0)
  {
    if op.CheckBugs? && Sentinel(s) != {} && Novel(s.shared, s.seen) {
      var i, bit :| NewAt(s.shared, s.seen, i, bit);
      assert Triggers(s, op, i, bit);
    }
  }

  /** After a check nothing is left to do until the next firing: the sentinel is clear and another
      check changes nothing. */
  lemma CheckSettles(s: State, crash: bool, again: bool)
    requires Inv(s)
    ensures var t := Step(s, CheckBugs(crash));
      Sentinel(t) == {} && Step(t, CheckBugs(again)) == t && t.child == s.child
  {
  }

  // What a firing is told apart by.

  /** The firing is written down: without the shortcut always, with it unless the map has the site. */
  ghost predicate Records(s: State, op: Op) {
    |s.shared| > 0 && Fires(op) && !(s.skipKnown && ERROR in s.shared[Index(SiteOf(op), |s.shared|)])
  }

  /** A firing that is written down raises the sentinel and leaves its site, and its stack if it has
      one, for the next firing to be paired with; any other changes nothing at all. */
  lemma FiringIsRemembered(s: State, op: Op)
    requires Inv(s) && (op.Warning? || op.WarningPc?)
    ensures var t := Step(s, op);
      if Records(s, op) then
        && Sentinel(t) == ALL && t.child.lastEdge == SiteOf(op)
        && t.child.lastCsEdge == (if op.Warning? then StackHash(op.frames) else s.child.lastCsEdge)
      else t == s
  {
  }

  ghost predicate Undisturbed(states: seq<State>, ops: seq<Op>, a: nat, b: nat) {
    |states| == |ops| + 1 && forall t :: a < t < b < |states| ==> !Records(states[t], ops[t]) && !ops[t].NewExecution?
  }

  lemma ChildStays(s: State, op: Op)
    requires Inv(s) && !Records(s, op) && !op.NewExecution?
    ensures Step(s, op).child == s.child
  {
  }

  lemma {:induction false} ChildStaysOn(states: seq<State>, ops: seq<Op>, a: nat, b: nat)
    requires IsRun(states, ops) && a < b < |states| && Undisturbed(states, ops, a, b)
    ensures states[b].child == states[a + 1].child
    decreases b
  {
    if a + 1 < b {
      ChildStaysOn(states, ops, a, b - 1);
      InvAlways(states, ops, b - 1);
      assert Next(states[b - 1], ops[b - 1], states[b]);
      ChildStays(states[b - 1], ops[b - 1]);
    }
  }

  /** In every run of one execution an edge is marked for each two firings that follow one another:
      the later one finds the place of (site / 2) xor site marked, and with stacks on both sides also
      that of the two hashes. */
  lemma ConsecutiveFiringsMarkTheirEdge(states: seq<State>, ops: seq<Op>, a: nat, b: nat)
    requires IsRun(states, ops) && a < b < |ops| && Undisturbed(states, ops, a, b)
    requires Records(states[a], ops[a]) && Records(states[b], ops[b])
    ensures |states[b].shared| > 0
    ensures var i := Index(Xor(SiteOf(ops[a]) / 2, SiteOf(ops[b])), |states[b].shared|);
      i < |states[b].shared| - 1 ==> SharedAt(states[b + 1], i, PC_EDGE)
    ensures ops[a].Warning? && ops[b].Warning? ==>
      var i := Index(Xor(StackHash(ops[b].frames), StackHash(ops[a].frames) / 2), |states[b].shared|);
      i < |states[b].shared| - 1 ==> SharedAt(states[b + 1], i, CS_EDGE)
  {
    InvAlways(states, ops, a);
    InvAlways(states, ops, b);
    assert Next(states[a], ops[a], states[a + 1]) && Next(states[b], ops[b], states[b + 1]);
    FiringIsRemembered(states[a], ops[a]);
    ChildStaysOn(states, ops, a, b);
    EdgeIsMarked(states[b], ops[b]);
  }

  lemma EdgeIsMarked(s: State, op: Op)
    requires Inv(s) && Records(s, op)
    ensures var i := Index(Xor(s.child.lastEdge / 2, SiteOf(op)), |s.shared|);
      i < |s.shared| - 1 ==> SharedAt(Step(s, op), i, PC_EDGE)
    ensures op.Warning? ==>
      var i := Index(Xor(StackHash(op.frames), s.child.lastCsEdge / 2), |s.shared|);
      i < |s.shared| - 1 ==> SharedAt(Step(s, op), i, CS_EDGE)
  {
    var n := |s.shared|;
    var i := Index(Xor(s.child.lastEdge / 2, SiteOf(op)), n);
    if op.Warning? {
      var j := Index(Xor(StackHash(op.frames), s.child.lastCsEdge / 2), n);
      if i < n - 1 { UpdateMapAt(s.shared, s.child, op.frames, i, PC_EDGE); }
      if j < n - 1 { UpdateMapAt(s.shared, s.child, op.frames, j, CS_EDGE); }
    } else if i < n - 1 {
      UpdateMapPcAt(s.shared, s.child, op.pc, i, PC_EDGE);
    }
  }

  lemma {:induction false} SameSession(states: seq<State>, ops: seq<Op>, a: nat, n: nat)
    requires IsRun(states, ops) && a <= n < |states|
    ensures |states[n].shared| == |states[a].shared| && states[n].skipKnown == states[a].skipKnown
    decreases n
  {
    if a < n {
      SameSession(states, ops, a, n - 1);
      assert Next(states[n - 1], ops[n - 1], states[n]);
    }
  }

  /** With the shortcut a site fires once per session: every later firing of it, in this execution or
      another, changes nothing. */
  lemma KnownSiteIsSilent(states: seq<State>, ops: seq<Op>, a: nat, n: nat)
    requires IsRun(states, ops) && a < n < |ops| && Fires(ops[a]) && Fires(ops[n]) && SiteOf(ops[a]) == SiteOf(ops[n])
    requires |states[a].shared| > 0 && Index(SiteOf(ops[a]), |states[a].shared|) < |states[a].shared| - 1
    requires states[a].skipKnown
    ensures states[n + 1] == states[n]
  {
    SameSession(states, ops, a, n);
    var i := Index(SiteOf(ops[a]), |states[a].shared|);
    InvAlways(states, ops, a);
    InvAlways(states, ops, n);
    assert Next(states[a], ops[a], states[a + 1]) && Next(states[n], ops[n], states[n + 1]);
    FiredSiteIsShared(states[a], ops[a]);
    MapsGrowOn(states, ops, a + 1, n);
    assert SharedAt(states[n], i, ERROR);
    FiringIsRemembered(states[n], ops[n]);
  }

  lemma TriggeredBefore(states: seq<State>, ops: seq<Op>, a: nat, b: nat, i: nat, bit: Bit)
    requires IsRun(states, ops) && a < b < |ops| && Triggers(states[a], ops[a], i, bit)
    ensures SeenAt(states[b], i, bit)
  {
    InvAlways(states, ops, a);
    CheckFoldsEverything(states, ops, a, a, i, bit);
    MapsGrowOn(states, ops, a + 1, b);
  }

  /** No pair triggers the detector twice. */
  lemma TriggersOnce(states: seq<State>, ops: seq<Op>, a: nat, b: nat, i: nat, bit: Bit)
    requires IsRun(states, ops) && a < |ops| && b < |ops|
    requires Triggers(states[a], ops[a], i, bit) && Triggers(states[b], ops[b], i, bit)
    ensures a == b
  {
    if a < b { TriggeredBefore(states, ops, a, b, i, bit); }
    if b < a { TriggeredBefore(states, ops, b, a, i, bit); }
  }

  /** However long the session, the detector runs at most four times per map byte. */
  lemma RunsAreBounded(states: seq<State>, ops: seq<Op>, n: nat)
    requires IsRun(states, ops) && n < |states|
    ensures |states[n].seen| > 0 && states[n].runs <= 4 * (|states[n].seen| - 1)
    ensures states[n].counters == CountersOf(states[n].seen)
  {
    InvAlways(states, ops, n);
  }

  // The code.

  class Session {
    const shared: array<Byte>
    const seen: array<Byte>
    const skipKnown: bool
    var child: Child
    var counters: Counters
    var runs: nat
    var crashes: nat

    ghost predicate Valid() reads this, shared, seen {
      shared != seen && shared.Length > 0 && Inv(Value())
    }

    ghost function Value(): State reads this, shared, seen {
      State(shared[..], seen[..], child, skipKnown, counters, runs, crashes)
    }

    constructor (size: nat, skipKnown: bool)
      requires size > 0
      ensures Valid() && fresh(shared) && fresh(seen) && shared.Length == size && this.skipKnown == skipKnown
    {
      this.shared := new Byte[size](i => {});
      this.seen := new Byte[size](i => {});
      this.skipKnown := skipKnown;
      child := Child(0, 0);
      counters, runs, crashes := Counters(0, 0, 0, 0), 0, 0;
      new;
      FreshIsInv(size, Child(0, 0), skipKnown);
      assert shared[..] == seq(size, i => {}) && seen[..] == seq(size, i => {});
    }

    method HashOf(frames: seq<Word>) returns (hash: Word)
      ensures hash == StackHash(frames)
    {
      hash := 0;
      for i := 0 to |frames|
        invariant hash == StackHash(frames[..i])
      {
        assert frames[..i + 1][..i] == frames[..i];
        hash := Xor(hash, frames[i]);
      }
      assert frames[..|frames|] == frames;
    }

    method MarkBit(i: nat, bit: Bit)
      requires i < shared.Length
      modifies shared
      ensures shared[..] == Mark(old(shared[..]), i, bit)
    {
      shared[i] := shared[i] + {bit};
    }

    /** `cqmsan_update_map` on a stack with frames. */
    method Record(frames: seq<Word>)
      requires shared.Length > 0 && frames != []
      modifies `child, shared
      ensures shared[..] == UpdateMap(old(shared[..]), old(child), frames) && child == Child(frames[0], StackHash(frames))
    {
      var n, pc := shared.Length, frames[0];
      var hash := HashOf(frames);
      var idx := Index(Xor(hash, child.lastCsEdge / 2), n);
      MarkBit(Index(pc, n), ERROR);
      MarkBit(Index(Xor(child.lastEdge / 2, pc), n), PC_EDGE);
      MarkBit(Index(hash, n), CS);
      MarkBit(idx, CS_EDGE);
      shared[n - 1] := ALL;
      child := Child(pc, hash);
    }

    /** `cqmsan_update_map_pc`. */
    method RecordPc(pc: Word)
      requires shared.Length > 0
      modifies `child, shared
      ensures shared[..] == UpdateMapPc(old(shared[..]), old(child), pc) && child == old(child).(lastEdge := pc)
    {
      var n := shared.Length;
      MarkBit(Index(pc, n), ERROR);
      MarkBit(Index(Xor(child.lastEdge / 2, pc), n), PC_EDGE);
      shared[n - 1] := ALL;
      child := child.(lastEdge := pc);
    }

    /** `cqmsan_site_known`. */
    method Known(pc: Word) returns (known: bool)
      requires shared.Length > 0
      ensures known <==> SiteKnown(shared[..], skipKnown, pc)
    {
      known := skipKnown && ERROR in shared[Index(pc, shared.Length)];
    }

    /** `__cqmsan_warning_fast`. */
    method WarningFast(frames: seq<Word>)
      requires Valid()
      modifies `child, shared
      ensures Valid() && Value() == Step(old(Value()), Warning(frames))
    {
      ghost var was := Value();
      if frames != [] {
        var known := Known(frames[0]);
        if !known { Record(frames); }
      }
      assert Value() == Step(was, Warning(frames));
      StepKeepsInv(was, Warning(frames));
    }

    /** `__cqmsan_warning_fast_pconly`. */
    method WarningFastPcOnly(pc: Word)
      requires Valid()
      modifies `child, shared
      ensures Valid() && Value() == Step(old(Value()), WarningPc(pc))
    {
      ghost var was := Value();
      var known := Known(pc);
      if !known { RecordPc(pc); }
      assert Value() == Step(was, WarningPc(pc));
      StepKeepsInv(was, WarningPc(pc));
    }

    method SameBelowSentinel() returns (same: bool)
      requires shared.Length == seen.Length > 0
      ensures same <==> forall k :: 0 <= k < shared.Length - 1 ==> shared[k] == seen[k]
    {
      for k := 0 to shared.Length - 1
        invariant forall x :: 0 <= x < k ==> shared[x] == seen[x]
      {
        if shared[k] != seen[k] { return false; }
      }
      return true;
    }

    /** One of the four transition tests on byte i. */
    method FoldBit(i: nat, bit: Bit, was: Byte, now: Byte) returns (novel: bool)
      requires shared != seen && i < seen.Length - 1 && bit in TRACKED && (bit in seen[i] <==> bit in was)
      requires counters == CountersOf(seen[..])
      modifies seen, `counters
      ensures seen[..] == old(seen[..])[i := old(seen[i]) + Fresh(bit, was, now)] && counters == CountersOf(seen[..])
      ensures novel <==> bit !in was && bit in now
    {
      novel := bit !in was && bit in now;
      ghost var before := seen[..];
      if novel {
        SetBitCounts(before, i, bit, seen.Length - 1);
        seen[i] := seen[i] + {bit};
        counters := Bump(counters, bit);
        assert seen[..] == before[i := before[i] + {bit}];
      } else {
        assert before[i] + {} == before[i];
        assert seen[..] == before[i := before[i] + {}];
      }
    }

    method FoldByte(i: nat) returns (novel: bool)
      requires shared != seen && shared.Length == seen.Length && i < seen.Length - 1 && counters == CountersOf(seen[..])
      modifies seen, `counters
      ensures seen[..] == old(seen[..])[i := old(seen[i]) + (shared[i] * TRACKED)] && counters == CountersOf(seen[..])
      ensures novel <==> exists bit :: NewAt(shared[..], old(seen[..]), i, bit)
    {
      var now, was := shared[i], seen[i];
      FreshIsFold(was, now);
      var a := FoldBit(i, ERROR, was, now);
      var b := FoldBit(i, PC_EDGE, was, now);
      var c := FoldBit(i, CS, was, now);
      var d := FoldBit(i, CS_EDGE, was, now);
      novel := a || b || c || d;
      assert a ==> NewAt(shared[..], old(seen[..]), i, ERROR);
      assert b ==> NewAt(shared[..], old(seen[..]), i, PC_EDGE);
      assert c ==> NewAt(shared[..], old(seen[..]), i, CS);
      assert d ==> NewAt(shared[..], old(seen[..]), i, CS_EDGE);
    }

    /** `check_msan_trace`: with or without its shortcuts it folds every tracked bit and reports
        whether one was new. */
    method CheckMsanTrace() returns (heavy: bool)
      requires shared != seen && shared.Length == seen.Length > 0 && counters == CountersOf(seen[..])
      modifies seen, `counters
      ensures seen[..] == Folded(shared[..], old(seen[..])) && counters == CountersOf(seen[..])
      ensures heavy <==> Novel(shared[..], old(seen[..]))
    {
      heavy := false;
      var same := SameBelowSentinel();
      if same {
        NothingToFold(shared[..], seen[..]);
        return;
      }
      var i := shared.Length - 1;
      while i > 0
        invariant 0 <= i <= shared.Length - 1 && counters == CountersOf(seen[..])
        invariant forall k :: i <= k < shared.Length - 1 ==> seen[k] == old(seen[k]) + (shared[k] * TRACKED)
        invariant forall k :: 0 <= k < i || k == shared.Length - 1 ==> seen[k] == old(seen[k])
        invariant heavy <==> exists k, bit :: i <= k && NewAt(shared[..], old(seen[..]), k, bit)
      {
        i := i - 1;
        if shared[i] != seen[i] {
          ghost var before := seen[..];
          var novel := FoldByte(i);
          assert forall bit :: NewAt(shared[..], before, i, bit) <==> NewAt(shared[..], old(seen[..]), i, bit);
          heavy := heavy || novel;
        } else {
          SameByteFolds(seen[i]);
          assert forall bit :: !NewAt(shared[..], old(seen[..]), i, bit);
        }
      }
    }

    /** The part of `qmsan_check_bugs` behind the sentinel test. */
    method Settle(crash: bool) returns (bug: bool)
      requires shared != seen && shared.Length == seen.Length > 0 && counters == CountersOf(seen[..])
      modifies this, shared, seen
      ensures Value() == Checked(old(Value()), Novel(old(shared[..]), old(seen[..])), crash)
      ensures bug <==> crash && runs > old(runs)
    {
      ghost var was := Value();
      var heavy := CheckMsanTrace();
      bug := heavy && crash;
      if heavy { runs := runs + 1; }
      if bug { crashes := crashes + 1; }
      shared[shared.Length - 1] := {};
      assert shared[..] == was.shared[shared.Length - 1 := {}];
    }

    /** `qmsan_check_bugs`; `crash` is the accurate detector's answer. */
    method CheckBugs(crash: bool) returns (bug: bool)
      requires Valid()
      modifies this, shared, seen
      ensures Valid() && Value() == Step(old(Value()), Op.CheckBugs(crash))
      ensures bug <==> crash && runs > old(runs)
    {
      ghost var was := Value();
      bug := false;
      if shared[shared.Length - 1] != {} { bug := Settle(crash); }
      assert Value() == Step(was, Op.CheckBugs(crash));
      StepKeepsInv(was, Op.CheckBugs(crash));
    }
  }

  /** What a test adds to the fuzzer's byte. */
  function Fresh(bit: Bit, was: Byte, now: Byte): Byte { if bit !in was && bit in now then {bit} else {} }

  function Bump(c: Counters, bit: Bit): Counters {
    if bit == ERROR then c.(errors := c.errors + 1)
    else if bit == PC_EDGE then c.(edges := c.edges + 1)
    else if bit == CS then c.(callstack := c.callstack + 1)
    else c.(callstackEdges := c.callstackEdges + 1)
  }

  lemma SameByteFolds(b: Byte)
    ensures b + (b * TRACKED) == b
  {
  }

  lemma NothingToFold(shared: seq<Byte>, seen: seq<Byte>)
    requires |shared| == |seen| > 0 && forall k :: 0 <= k < |shared| - 1 ==> shared[k] == seen[k]
    ensures Folded(shared, seen) == seen && !Novel(shared, seen)
  {
    forall k | 0 <= k < |seen| ensures Folded(shared, seen)[k] == seen[k] { SameByteFolds(seen[k]); }
  }

  /** The four tests together fold the byte. */
  lemma FreshIsFold(was: Byte, now: Byte)
    ensures was + Fresh(ERROR, was, now) + Fresh(PC_EDGE, was, now) + Fresh(CS, was, now) + Fresh(CS_EDGE, was, now)
         == was + (now * TRACKED)
  {
  }

  lemma {:induction false} SetBitCount(m: seq<Byte>, i: nat, bit: Bit, other: Bit, n: nat)
    requires i < |m| && n <= |m| && bit in TRACKED && other in TRACKED && bit !in m[i]
    ensures Count(m[i := m[i] + {bit}], other, n) == Count(m, other, n) + (if other == bit && i < n then 1 else 0)
  {
    if n > 0 {
      SetBitCount(m, i, bit, other, n - 1);
    }
  }

  lemma SetBitCounts(m: seq<Byte>, i: nat, bit: Bit, n: nat)
    requires |m| > 0 && i < n == |m| - 1 && bit in TRACKED && bit !in m[i]
    ensures CountersOf(m[i := m[i] + {bit}]) == Bump(CountersOf(m), bit)
  {
    SetBitCount(m, i, bit, ERROR, n);
    SetBitCount(m, i, bit, PC_EDGE, n);
    SetBitCount(m, i, bit, CS, n);
    SetBitCount(m, i, bit, CS_EDGE, n);
  }
}
