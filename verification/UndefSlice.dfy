/** Following undefined values that never pass through memory (CompilerQEMUMemorySanitizer.cpp:
    computeUndefSlice, handleUndefSliceInst, checkUndefSliceSinks, the slice case of
    materializeStores). Programs are scalar, undef is an operand of PHIs and select arms only,
    and memory is bytes with a shadow flag each. */
module UndefSlice {
  import opened FiniteSets

  type Byte = bv8
  type Bytes = seq<Byte>
  type Mask = seq<bool>                     // one flag a byte, true for undefined

  datatype Operand = Undef | Const(bytes: Bytes) | Reg(r: nat)

  /** Instruction r defines register r. An operator is any function of its operand values. */
  datatype Inst =
    | Phi(incoming: map<nat, Operand>)      // by predecessor block
    | Select(cond: Operand, yes: Operand, no: Operand)
    | Op(sem: seq<Bytes> -> Bytes, args: seq<Operand>)
    | Load(addr: Operand)
    | Store(addr: Operand, value: Operand)
    | Call(sem: seq<Bytes> -> Bytes, args: seq<Operand>)   // arguments that must be defined

  datatype Term = Jump(to: nat) | Branch(cond: Operand, yes: nat, no: nat) | Return(value: Operand)

  datatype Blk = Blk(phis: set<nat>, body: seq<nat>, term: Term)

  /** `width[r]` is the size in bytes of register r, and of the value a store writes. */
  datatype Fn = Fn(insts: seq<Inst>, width: seq<nat>, blocks: seq<Blk>)

  ghost predicate Defined(f: Fn, o: Operand) {
    match o case Undef => false case Const(_) => true case Reg(r) => r < |f.insts|
  }

  ghost predicate Fits(f: Fn, o: Operand, w: nat) {
    match o case Undef => true case Const(b) => |b| == w case Reg(r) => r < |f.width| && f.width[r] == w
  }

  /** Undef only where the pass expects it, and operands of the right size. */
  ghost predicate InstOk(f: Fn, r: nat)
    requires r < |f.insts| == |f.width|
  {
    match f.insts[r]
    case Phi(incoming) => forall p :: p in incoming ==> Fits(f, incoming[p], f.width[r])
    case Select(c, a, b) => Defined(f, c) && Fits(f, a, f.width[r]) && Fits(f, b, f.width[r])
    case Op(_, args) => forall k :: 0 <= k < |args| ==> Defined(f, args[k])
    case Load(a) => Defined(f, a)
    case Store(a, v) => Defined(f, a) && Defined(f, v) && Fits(f, v, f.width[r])
    case Call(_, args) => forall k :: 0 <= k < |args| ==> Defined(f, args[k])
  }

  ghost predicate WellFormed(f: Fn) {
    && |f.width| == |f.insts|
    && (forall r :: 0 <= r < |f.insts| ==> InstOk(f, r))
    && (forall b :: 0 <= b < |f.blocks| ==> BlockOk(f, b))
  }

  ghost predicate BlockOk(f: Fn, b: nat)
    requires b < |f.blocks|
  {
    && (forall r :: r in f.blocks[b].phis ==> r < |f.insts| && f.insts[r].Phi?)
    && (forall k :: 0 <= k < |f.blocks[b].body| ==> f.blocks[b].body[k] < |f.insts| && !f.insts[f.blocks[b].body[k]].Phi?)
    && match f.blocks[b].term
       case Jump(t) => t < |f.blocks|
       case Branch(c, t, e) => Defined(f, c) && t < |f.blocks| && e < |f.blocks|
       case Return(v) => Defined(f, v)
  }

  // The slice.

  predicate IsSeed(i: Inst) {
    match i
    case Phi(incoming) => exists p :: p in incoming && incoming[p].Undef?
    case Select(_, a, b) => a.Undef? || b.Undef?
    case _ => false
  }

  predicate Transfers(i: Inst) { i.Phi? || i.Select? || i.Op? }

  predicate HasOperand(i: Inst, v: nat) {
    match i
    case Phi(incoming) => exists p :: p in incoming && incoming[p] == Reg(v)
    case Select(c, a, b) => c == Reg(v) || a == Reg(v) || b == Reg(v)
    case Op(_, args) => Reg(v) in args
    case Load(a) => a == Reg(v)
    case Store(a, x) => a == Reg(v) || x == Reg(v)
    case Call(_, args) => Reg(v) in args
  }

  /** A set holding the seeds and every transfer instruction with an operand in it. */
  ghost predicate Closed(f: Fn, slice: set<nat>) {
    && (forall r: nat :: r < |f.insts| && IsSeed(f.insts[r]) ==> r in slice)
    && (forall r: nat, v: nat :: v in slice && Feeds(f, v, r) ==> r in slice)
  }

  predicate Feeds(f: Fn, v: nat, r: nat) {
    r < |f.insts| && Transfers(f.insts[r]) && HasOperand(f.insts[r], v)
  }

  /** Part of every closed set, with the seeds in it and all listed work still to be followed. */
  ghost predicate Growing(f: Fn, slice: set<nat>, work: seq<nat>) {
    && slice <= Below(|f.insts|)
    && (forall r: nat :: r < |f.insts| && IsSeed(f.insts[r]) ==> r in slice)
    && (forall s :: s in work ==> s in slice)
    && (forall v: nat, r: nat :: v in slice && v !in work && Feeds(f, v, r) ==> r in slice)
    && (forall t :: Closed(f, t) ==> slice <= t)
  }

  method CollectSeeds(f: Fn) returns (slice: set<nat>, work: seq<nat>)
    ensures Growing(f, slice, work)
  {
    slice, work := {}, [];
    for r := 0 to |f.insts|
      invariant forall s: nat :: s < r && IsSeed(f.insts[s]) ==> s in slice
      invariant forall s :: s in slice <==> s in work
      invariant slice <= Below(|f.insts|)
      invariant forall t :: Closed(f, t) ==> slice <= t
    {
      if IsSeed(f.insts[r]) { slice, work := slice + {r}, work + [r]; }
    }
  }

  lemma StillGrowing(f: Fn, slice: set<nat>, work: seq<nat>, slice1: set<nat>, work1: seq<nat>)
    requires Growing(f, slice, work) && work != [] && slice <= slice1 <= Below(|f.insts|)
    requires forall s :: s in work1 <==> s in work[..|work| - 1] || (s in slice1 && s !in slice)
    requires forall r: nat :: Feeds(f, work[|work| - 1], r) ==> r in slice1
    requires forall t :: Closed(f, t) && slice <= t ==> slice1 <= t
    ensures Growing(f, slice1, work1)
  {
    assert work == work[..|work| - 1] + [work[|work| - 1]];
  }

  /** `computeUndefSlice`: the least closed set. */
  method ComputeUndefSlice(f: Fn) returns (slice: set<nat>)
    ensures Closed(f, slice)
    ensures forall t :: Closed(f, t) ==> slice <= t
  {
    var work: seq<nat>;
    slice, work := CollectSeeds(f);
    while work != []
      invariant Growing(f, slice, work)
      decreases |Below(|f.insts|) - slice|, |work|
    {
      var v := work[|work| - 1];
      assert v in work;
      var slice1, work1 := VisitUsers(f, v, slice, work[..|work| - 1]);
      StillGrowing(f, slice, work, slice1, work1);
      SmallerRest(Below(|f.insts|), slice, slice1);
      slice, work := slice1, work1;
    }
  }

  method VisitUsers(f: Fn, v: nat, slice: set<nat>, work: seq<nat>) returns (slice1: set<nat>, work1: seq<nat>)
    requires slice <= Below(|f.insts|)
    requires v in slice
    ensures slice <= slice1 <= Below(|f.insts|) && (slice1 == slice ==> work1 == work)
    ensures forall s :: s in work1 <==> s in work || (s in slice1 && s !in slice)
    ensures forall r: nat :: Feeds(f, v, r) ==> r in slice1
    ensures forall t :: Closed(f, t) && slice <= t ==> slice1 <= t
  {
    slice1, work1 := slice, work;
    for r := 0 to |f.insts|
      invariant slice <= slice1 <= Below(|f.insts|) && (slice1 == slice ==> work1 == work)
      invariant forall s :: s in work1 <==> s in work || (s in slice1 && s !in slice)
      invariant forall s: nat :: s < r && Feeds(f, v, s) ==> s in slice1
      invariant forall t :: Closed(f, t) && slice <= t ==> slice1 <= t
    {
      if Transfers(f.insts[r]) && HasOperand(f.insts[r], v) && r !in slice1 {
        assert Feeds(f, v, r);
        slice1, work1 := slice1 + {r}, work1 + [r];
      }
    }
  }

  // Running a function together with its shadow.

  /** The undefined bytes one run picks, by step and register. */
  type Oracle = (nat, nat) -> Bytes

  datatype State =
    | Going(block: nat, pc: nat, regs: map<nat, Bytes>, shs: map<nat, Mask>,
            mem: nat -> Byte, smem: nat -> bool, calls: seq<seq<Bytes>>)
    | Warned(block: nat, pc: nat)           // the check of a sink in the slice, or of a return
    | FoundPoison(block: nat, pc: nat)      // a load whose own check is due, there or at its sink
    | Done(result: Bytes, trace: seq<seq<Bytes>>)

  ghost predicate Any(m: Mask) { exists k :: 0 <= k < |m| && m[k] }

  function Fill(w: nat, b: bool): Mask { seq(w, k => b) }

  /** Exactly w bytes of x, zeroes where it is too short. */
  function Fit(x: Bytes, w: nat): (y: Bytes)
    ensures |y| == w
  {
    seq(w, k requires 0 <= k < w => if k < |x| then x[k] else 0)
  }

  function Number(x: Bytes): nat {
    if x == [] then 0 else x[0] as nat + 256 * Number(x[1..])
  }

  ghost predicate Truth(x: Bytes) { exists k :: 0 <= k < |x| && x[k] != 0 }

  ghost function RegValue(f: Fn, st: State, r: nat): Bytes
    requires st.Going? && r < |f.width|
  {
    if r in st.regs then st.regs[r] else Fit([], f.width[r])
  }

  ghost function RegShadow(f: Fn, st: State, r: nat): Mask
    requires st.Going? && r < |f.width|
  {
    if r in st.shs then st.shs[r] else Fill(f.width[r], false)
  }

  /** The value of an operand; an undef one is what the run picks. */
  ghost function Value(f: Fn, st: State, o: Operand, pick: Bytes): Bytes
    requires st.Going? && (o.Reg? ==> o.r < |f.width|)
  {
    match o case Undef => pick case Const(b) => b case Reg(r) => RegValue(f, st, r)
  }

  /** `getShadow`, w wide for what is not a register. */
  ghost function Shadow(f: Fn, st: State, o: Operand, w: nat): Mask
    requires st.Going? && (o.Reg? ==> o.r < |f.width|)
  {
    match o case Undef => Fill(w, true) case Const(b) => Fill(|b|, false) case Reg(r) => RegShadow(f, st, r)
  }

  predicate InSlice(slice: set<nat>, o: Operand) { o.Reg? && o.r in slice }

  /** `getUndefSliceShadow`: what is outside the slice counts as clean. */
  ghost function SliceShadow(f: Fn, slice: set<nat>, st: State, o: Operand, w: nat): Mask
    requires st.Going? && (o.Reg? ==> o.r < |f.width|)
  {
    if o.Undef? || InSlice(slice, o) then Shadow(f, st, o, w) else Fill(w, false)
  }

  /** The check of a sink: only slice values are looked at. */
  ghost predicate Bad(f: Fn, slice: set<nat>, st: State, o: Operand)
    requires st.Going? && (o.Reg? ==> o.r < |f.width|)
  {
    InSlice(slice, o) && Any(Shadow(f, st, o, 0))
  }

  ghost predicate SomeBad(f: Fn, slice: set<nat>, st: State, args: seq<Operand>)
    requires st.Going? && forall k :: 0 <= k < |args| && args[k].Reg? ==> args[k].r < |f.width|
  {
    exists k :: 0 <= k < |args| && Bad(f, slice, st, args[k])
  }

  ghost function Values(f: Fn, st: State, args: seq<Operand>): (vs: seq<Bytes>)
    requires st.Going? && forall k :: 0 <= k < |args| && args[k].Reg? ==> args[k].r < |f.width|
    ensures |vs| == |args|
  {
    if args == [] then [] else Values(f, st, args[..|args| - 1]) + [Value(f, st, args[|args| - 1], [])]
  }

  function OrMask(m: Mask, b: bool): Mask { if b then Fill(|m|, true) else m }

  /** `handleUndefSliceInst` for slice instructions, clean for the others. */
  ghost function SelectShadow(f: Fn, slice: set<nat>, st: State, r: nat): Mask
    requires WellFormed(f) && st.Going? && r < |f.insts| && f.insts[r].Select?
  {
    assert InstOk(f, r);
    var i, w := f.insts[r], f.width[r];
    if r !in slice then Fill(w, false)
    else OrMask(SliceShadow(f, slice, st, ChosenArm(f, st, r), w), Bad(f, slice, st, i.cond))
  }

  ghost function ChosenArm(f: Fn, st: State, r: nat): (o: Operand)
    requires WellFormed(f) && st.Going? && r < |f.insts| && f.insts[r].Select?
    ensures Fits(f, o, f.width[r])
  {
    assert InstOk(f, r);
    if Truth(Value(f, st, f.insts[r].cond, [])) then f.insts[r].yes else f.insts[r].no
  }

  ghost function SelectValue(f: Fn, st: State, r: nat, pick: Bytes): Bytes
    requires WellFormed(f) && st.Going? && r < |f.insts| && f.insts[r].Select?
  {
    Value(f, st, ChosenArm(f, st, r), Fit(pick, f.width[r]))
  }

  ghost function OpShadow(f: Fn, slice: set<nat>, st: State, r: nat): Mask
    requires WellFormed(f) && st.Going? && r < |f.insts| && f.insts[r].Op?
  {
    assert InstOk(f, r);
    Fill(f.width[r], r in slice && SomeBad(f, slice, st, f.insts[r].args))
  }

  ghost function Define(st: State, r: nat, v: Bytes, m: Mask): State
    requires st.Going?
  {
    st.(pc := st.pc + 1, regs := st.regs[r := v], shs := st.shs[r := m])
  }

  function ReadBytes(mem: nat -> Byte, a: nat, w: nat): (x: Bytes)
    ensures |x| == w
  {
    seq(w, k requires 0 <= k => mem(a + k))
  }

  function ReadMask(smem: nat -> bool, a: nat, w: nat): (x: Mask)
    ensures |x| == w
  {
    seq(w, k requires 0 <= k => smem(a + k))
  }

  function Write<T>(mem: nat -> T, a: nat, x: seq<T>): nat -> T {
    (k: nat) => if a <= k < a + |x| then x[k - a] else mem(k)
  }

  /** One instruction of a block's body, with its shadow code and its checks. */
  ghost function Exec(f: Fn, slice: set<nat>, st: State, r: nat, pick: Bytes): State
    requires WellFormed(f) && st.Going? && r < |f.insts| && !f.insts[r].Phi?
  {
    assert InstOk(f, r);
    var w := f.width[r];
    match f.insts[r]
    case Select(_, _, _) => Define(st, r, SelectValue(f, st, r, pick), SelectShadow(f, slice, st, r))
    case Op(sem, args) => Define(st, r, Fit(sem(Values(f, st, args)), w), OpShadow(f, slice, st, r))
    case Load(a) =>
      var p := Number(Value(f, st, a, []));
      if Bad(f, slice, st, a) then Warned(st.block, st.pc)
      else if Any(ReadMask(st.smem, p, w)) then FoundPoison(st.block, st.pc)
      else Define(st, r, ReadBytes(st.mem, p, w), ReadMask(st.smem, p, w))
    case Store(a, v) =>
      var p := Number(Value(f, st, a, []));
      if Bad(f, slice, st, a) then Warned(st.block, st.pc)
      else st.(pc := st.pc + 1, mem := Write(st.mem, p, Value(f, st, v, [])),
               smem := Write(st.smem, p, SliceShadow(f, slice, st, v, w)))
    case Call(sem, args) =>
      if SomeBad(f, slice, st, args) then Warned(st.block, st.pc)
      else Define(st, r, Fit(sem(Values(f, st, args)), w), Fill(w, false)).(calls := st.calls + [Values(f, st, args)])
  }

  ghost function PhiOperand(f: Fn, r: nat, pred: nat): Operand
    requires r < |f.insts| && f.insts[r].Phi?
  {
    if pred in f.insts[r].incoming then f.insts[r].incoming[pred] else Undef
  }

  /** Taking an edge: all PHIs of the target read the old state. */
  ghost function Enter(f: Fn, st: State, to: nat, step: nat, oracle: Oracle): State
    requires WellFormed(f) && st.Going? && to < |f.blocks|
  {
    assert BlockOk(f, to);
    st.(block := to, pc := 0, regs := st.regs + PhiValues(f, st, to, step, oracle), shs := st.shs + PhiShadows(f, st, to))
  }

  ghost function PhiValues(f: Fn, st: State, to: nat, step: nat, oracle: Oracle): map<nat, Bytes>
    requires WellFormed(f) && st.Going? && to < |f.blocks| && BlockOk(f, to)
  {
    map r | r in f.blocks[to].phis :: PhiValue(f, st, r, Fit(oracle(step, r), f.width[r]))
  }

  ghost function PhiShadows(f: Fn, st: State, to: nat): map<nat, Mask>
    requires WellFormed(f) && st.Going? && to < |f.blocks| && BlockOk(f, to)
  {
    map r | r in f.blocks[to].phis :: PhiShadow(f, st, r)
  }

  ghost function PhiValue(f: Fn, st: State, r: nat, pick: Bytes): Bytes
    requires WellFormed(f) && st.Going? && r < |f.insts| && f.insts[r].Phi?
  {
    assert InstOk(f, r);
    Value(f, st, PhiOperand(f, r, st.block), pick)
  }

  ghost function PhiShadow(f: Fn, st: State, r: nat): Mask
    requires WellFormed(f) && st.Going? && r < |f.insts| && f.insts[r].Phi?
  {
    assert InstOk(f, r);
    Shadow(f, st, PhiOperand(f, r, st.block), f.width[r])
  }

  ghost function Finish(f: Fn, slice: set<nat>, st: State, step: nat, oracle: Oracle): State
    requires WellFormed(f) && st.Going? && st.block < |f.blocks|
  {
    assert BlockOk(f, st.block);
    match f.blocks[st.block].term
    case Jump(t) => Enter(f, st, t, step, oracle)
    case Branch(c, t, e) =>
      if Bad(f, slice, st, c) then Warned(st.block, st.pc)
      else Enter(f, st, if Truth(Value(f, st, c, [])) then t else e, step, oracle)
    case Return(v) =>
      if Any(Shadow(f, st, v, 0)) then Warned(st.block, st.pc) else Done(Value(f, st, v, []), st.calls)
  }

  ghost function Step(f: Fn, slice: set<nat>, st: State, step: nat, oracle: Oracle): State
    requires WellFormed(f) && (st.Going? ==> st.block < |f.blocks|)
  {
    if !st.Going? then st
    else
      assert BlockOk(f, st.block);
      var body := f.blocks[st.block].body;
      if st.pc < |body| then Exec(f, slice, st, body[st.pc], oracle(step, body[st.pc]))
      else Finish(f, slice, st, step, oracle)
  }

  // Two runs that differ in what they pick.

  ghost predicate Agree(m: Mask, x: Bytes, y: Bytes) {
    |m| == |x| == |y| && forall k :: 0 <= k < |m| && !m[k] ==> x[k] == y[k]
  }

  ghost predicate MapsAgree(f: Fn, slice: set<nat>, m: map<nat, Mask>, x: map<nat, Bytes>, y: map<nat, Bytes>) {
    && x.Keys == y.Keys == m.Keys
    && forall r :: r in m ==>
         && r < |f.width| && |m[r]| == f.width[r] && Agree(m[r], x[r], y[r])
         && (r !in slice ==> !Any(m[r]))
  }

  lemma MapsMerge(f: Fn, slice: set<nat>, m: map<nat, Mask>, x: map<nat, Bytes>, y: map<nat, Bytes>,
                  m1: map<nat, Mask>, x1: map<nat, Bytes>, y1: map<nat, Bytes>)
    requires MapsAgree(f, slice, m, x, y) && MapsAgree(f, slice, m1, x1, y1)
    ensures MapsAgree(f, slice, m + m1, x + x1, y + y1)
  {
    assert (x + x1).Keys == x.Keys + x1.Keys && (y + y1).Keys == y.Keys + y1.Keys && (m + m1).Keys == m.Keys + m1.Keys;
  }

  ghost predicate RegsAgree(f: Fn, slice: set<nat>, st: State, su: State)
    requires st.Going? && su.Going?
  {
    st.shs == su.shs && MapsAgree(f, slice, st.shs, st.regs, su.regs)
  }

  ghost predicate MemAgrees(st: State, su: State)
    requires st.Going? && su.Going?
  {
    forall a :: st.smem(a) == su.smem(a) && (!st.smem(a) ==> st.mem(a) == su.mem(a))
  }

  /** Same place, same shadow, same values and bytes wherever the shadow is clean. */
  ghost predicate Alike(f: Fn, slice: set<nat>, st: State, su: State) {
    && st.Going? && su.Going? && st.block == su.block < |f.blocks| && st.pc == su.pc && st.calls == su.calls
    && RegsAgree(f, slice, st, su) && MemAgrees(st, su)
  }

  /** Still alike, or stopped by the same warning or the same load, or returned the same value. */
  ghost predicate SameSoFar(f: Fn, slice: set<nat>, st: State, su: State) {
    Alike(f, slice, st, su) || (!st.Going? && st == su)
  }

  lemma OperandAgrees(f: Fn, slice: set<nat>, st: State, su: State, o: Operand, w: nat, p: Bytes, q: Bytes)
    requires Alike(f, slice, st, su) && Fits(f, o, w) && |p| == |q| == w
    ensures Shadow(f, st, o, w) == Shadow(f, su, o, w)
    ensures Agree(Shadow(f, st, o, w), Value(f, st, o, p), Value(f, su, o, q))
  {
  }

  lemma CleanAgrees(m: Mask, x: Bytes, y: Bytes)
    requires Agree(m, x, y) && !Any(m)
    ensures x == y
  {
  }

  /** A defined operand the checks let through has one value in both runs. */
  lemma PassedIsEqual(f: Fn, slice: set<nat>, st: State, su: State, o: Operand)
    requires |f.width| == |f.insts| && Alike(f, slice, st, su) && Defined(f, o)
    ensures Bad(f, slice, st, o) <==> Bad(f, slice, su, o)
    ensures !Bad(f, slice, st, o) ==> Value(f, st, o, []) == Value(f, su, o, []) && !Any(Shadow(f, st, o, 0))
  {
    if o.Reg? {
      var x := Fit([], f.width[o.r]);
      OperandAgrees(f, slice, st, su, o, f.width[o.r], x, x);
      assert !Bad(f, slice, st, o) ==> !Any(RegShadow(f, st, o.r));
      if !Bad(f, slice, st, o) { CleanAgrees(RegShadow(f, st, o.r), RegValue(f, st, o.r), RegValue(f, su, o.r)); }
    }
  }

  lemma {:induction false} PassedAreEqual(f: Fn, slice: set<nat>, st: State, su: State, args: seq<Operand>)
    requires |f.width| == |f.insts| && Alike(f, slice, st, su)
    requires forall k :: 0 <= k < |args| ==> Defined(f, args[k])
    requires forall k :: 0 <= k < |args| && args[k].Reg? ==> args[k].r < |f.width|
    ensures SomeBad(f, slice, st, args) <==> SomeBad(f, slice, su, args)
    ensures !SomeBad(f, slice, st, args) ==> Values(f, st, args) == Values(f, su, args)
  {
    if args != [] {
      var front, last := args[..|args| - 1], args[|args| - 1];
      PassedAreEqual(f, slice, st, su, front);
      PassedIsEqual(f, slice, st, su, last);
      SomeBadLast(f, slice, st, args);
      SomeBadLast(f, slice, su, args);
    }
  }

  lemma SomeBadLast(f: Fn, slice: set<nat>, st: State, args: seq<Operand>)
    requires st.Going? && args != [] && forall k :: 0 <= k < |args| && args[k].Reg? ==> args[k].r < |f.width|
    ensures SomeBad(f, slice, st, args)
      <==> SomeBad(f, slice, st, args[..|args| - 1]) || Bad(f, slice, st, args[|args| - 1])
  {
    var front := args[..|args| - 1];
    if SomeBad(f, slice, st, front) {
      var k :| 0 <= k < |front| && Bad(f, slice, st, front[k]);
      assert Bad(f, slice, st, args[k]);
    }
    if SomeBad(f, slice, st, args) {
      var k :| 0 <= k < |args| && Bad(f, slice, st, args[k]);
      if k < |front| { assert Bad(f, slice, st, front[k]); }
    }
  }

  /** Defining a register alike on both sides keeps the states alike. */
  lemma DefineKeeps(f: Fn, slice: set<nat>, st: State, su: State, r: nat, m: Mask, x: Bytes, y: Bytes)
    requires Alike(f, slice, st, su) && r < |f.width| && |m| == f.width[r] && Agree(m, x, y)
    requires r !in slice ==> !Any(m)
    ensures Alike(f, slice, Define(st, r, x, m), Define(su, r, y, m))
  {
  }

  lemma FillAny(w: nat)
    ensures !Any(Fill(w, false))
  {
  }

  lemma SelectKeeps(f: Fn, slice: set<nat>, st: State, su: State, r: nat, p: Bytes, q: Bytes)
    requires WellFormed(f) && Closed(f, slice) && Alike(f, slice, st, su) && r < |f.insts| && f.insts[r].Select?
    ensures Alike(f, slice, Exec(f, slice, st, r, p), Exec(f, slice, su, r, q))
  {
    assert InstOk(f, r);
    var i, w := f.insts[r], f.width[r];
    var m, n := SelectShadow(f, slice, st, r), SelectShadow(f, slice, su, r);
    var x, y := SelectValue(f, st, r, p), SelectValue(f, su, r, q);
    PassedIsEqual(f, slice, st, su, i.cond);
    SelectArm(f, slice, st, su, r, i.yes, Fit(p, w), Fit(q, w));
    SelectArm(f, slice, st, su, r, i.no, Fit(p, w), Fit(q, w));
    SizesMatch(f, slice, st, su, i.yes, w, Fit(p, w), Fit(q, w));
    SizesMatch(f, slice, st, su, i.no, w, Fit(p, w), Fit(q, w));
    if InSlice(slice, i.cond) { assert Feeds(f, i.cond.r, r); }
    FillAny(w);
    assert m == n && |m| == w && Agree(m, x, y) && (r !in slice ==> !Any(m));
    DefineKeeps(f, slice, st, su, r, m, x, y);
  }

  lemma SizesMatch(f: Fn, slice: set<nat>, st: State, su: State, o: Operand, w: nat, p: Bytes, q: Bytes)
    requires Alike(f, slice, st, su) && Fits(f, o, w) && |p| == |q| == w
    ensures |Value(f, st, o, p)| == |Value(f, su, o, q)| == w
    ensures |SliceShadow(f, slice, st, o, w)| == |SliceShadow(f, slice, su, o, w)| == w
  {
  }

  /** One arm of a select: its shadow covers the difference between the runs. */
  lemma SelectArm(f: Fn, slice: set<nat>, st: State, su: State, r: nat, arm: Operand, p: Bytes, q: Bytes)
    requires WellFormed(f) && Closed(f, slice) && Alike(f, slice, st, su) && r < |f.insts| && f.insts[r].Select?
    requires arm == f.insts[r].yes || arm == f.insts[r].no
    requires |p| == |q| == f.width[r] && Fits(f, arm, f.width[r])
    ensures var m := SliceShadow(f, slice, st, arm, f.width[r]);
      && m == SliceShadow(f, slice, su, arm, f.width[r]) && Agree(m, Value(f, st, arm, p), Value(f, su, arm, q))
      && (r !in slice ==> Value(f, st, arm, p) == Value(f, su, arm, q))
  {
    var w := f.width[r];
    OperandAgrees(f, slice, st, su, arm, w, p, q);
    if InSlice(slice, arm) { assert Feeds(f, arm.r, r); }
    if arm.Reg? && arm.r !in slice { PassedIsEqual(f, slice, st, su, arm); }
    if arm.Undef? { assert IsSeed(f.insts[r]); }
  }

  lemma OpKeeps(f: Fn, slice: set<nat>, st: State, su: State, r: nat, p: Bytes, q: Bytes)
    requires WellFormed(f) && Closed(f, slice) && Alike(f, slice, st, su) && r < |f.insts| && f.insts[r].Op?
    ensures Alike(f, slice, Exec(f, slice, st, r, p), Exec(f, slice, su, r, q))
  {
    assert InstOk(f, r);
    var args, w := f.insts[r].args, f.width[r];
    PassedAreEqual(f, slice, st, su, args);
    FillAny(w);
    if SomeBad(f, slice, st, args) {
      var k :| 0 <= k < |args| && Bad(f, slice, st, args[k]);
      assert Feeds(f, args[k].r, r);
    }
    DefineKeeps(f, slice, st, su, r, OpShadow(f, slice, st, r),
                Fit(f.insts[r].sem(Values(f, st, args)), w), Fit(f.insts[r].sem(Values(f, su, args)), w));
  }

  lemma ReadAgrees(st: State, su: State, a: nat, w: nat)
    requires st.Going? && su.Going? && MemAgrees(st, su)
    ensures ReadMask(st.smem, a, w) == ReadMask(su.smem, a, w)
    ensures Agree(ReadMask(st.smem, a, w), ReadBytes(st.mem, a, w), ReadBytes(su.mem, a, w))
  {
  }

  lemma LoadKeeps(f: Fn, slice: set<nat>, st: State, su: State, r: nat, p: Bytes, q: Bytes)
    requires WellFormed(f) && Alike(f, slice, st, su) && r < |f.insts| && f.insts[r].Load?
    ensures SameSoFar(f, slice, Exec(f, slice, st, r, p), Exec(f, slice, su, r, q))
  {
    assert InstOk(f, r);
    var a, w := f.insts[r].addr, f.width[r];
    PassedIsEqual(f, slice, st, su, a);
    if !Bad(f, slice, st, a) {
      var n := Number(Value(f, st, a, []));
      ReadAgrees(st, su, n, w);
      if !Any(ReadMask(st.smem, n, w)) {
        DefineKeeps(f, slice, st, su, r, ReadMask(st.smem, n, w), ReadBytes(st.mem, n, w), ReadBytes(su.mem, n, w));
      }
    }
  }

  lemma StoreKeeps(f: Fn, slice: set<nat>, st: State, su: State, r: nat, p: Bytes, q: Bytes)
    requires WellFormed(f) && Alike(f, slice, st, su) && r < |f.insts| && f.insts[r].Store?
    ensures SameSoFar(f, slice, Exec(f, slice, st, r, p), Exec(f, slice, su, r, q))
  {
    assert InstOk(f, r);
    var a, v, w := f.insts[r].addr, f.insts[r].value, f.width[r];
    PassedIsEqual(f, slice, st, su, a);
    PassedIsEqual(f, slice, st, su, v);
    var zero := Fit([], w);
    OperandAgrees(f, slice, st, su, v, w, zero, zero);
    if !Bad(f, slice, st, a) {
      var m := SliceShadow(f, slice, st, v, w);
      WriteKeeps(st, su, Number(Value(f, st, a, [])), m, Value(f, st, v, []), Value(f, su, v, []));
    }
  }

  lemma WriteKeeps(st: State, su: State, a: nat, m: Mask, x: Bytes, y: Bytes)
    requires st.Going? && su.Going? && MemAgrees(st, su) && Agree(m, x, y)
    ensures MemAgrees(st.(mem := Write(st.mem, a, x), smem := Write(st.smem, a, m)),
                      su.(mem := Write(su.mem, a, y), smem := Write(su.smem, a, m)))
  {
  }

  lemma CallKeeps(f: Fn, slice: set<nat>, st: State, su: State, r: nat, p: Bytes, q: Bytes)
    requires WellFormed(f) && Alike(f, slice, st, su) && r < |f.insts| && f.insts[r].Call?
    ensures SameSoFar(f, slice, Exec(f, slice, st, r, p), Exec(f, slice, su, r, q))
  {
    assert InstOk(f, r);
    var args, w := f.insts[r].args, f.width[r];
    PassedAreEqual(f, slice, st, su, args);
    if !SomeBad(f, slice, st, args) {
      var x := Fit(f.insts[r].sem(Values(f, st, args)), w);
      FillAny(w);
      DefineKeeps(f, slice, st, su, r, Fill(w, false), x, x);
    }
  }

  lemma PhiAgrees(f: Fn, slice: set<nat>, st: State, su: State, r: nat, p: Bytes, q: Bytes)
    requires WellFormed(f) && Closed(f, slice) && Alike(f, slice, st, su) && r < |f.insts| && f.insts[r].Phi?
    requires st.block in f.insts[r].incoming && |p| == |q| == f.width[r]
    ensures PhiShadow(f, st, r) == PhiShadow(f, su, r) && |PhiShadow(f, st, r)| == f.width[r]
    ensures Agree(PhiShadow(f, st, r), PhiValue(f, st, r, p), PhiValue(f, su, r, q))
    ensures r !in slice ==> !Any(PhiShadow(f, st, r))
  {
    assert InstOk(f, r);
    var o := PhiOperand(f, r, st.block);
    OperandAgrees(f, slice, st, su, o, f.width[r], p, q);
    if o.Undef? { assert IsSeed(f.insts[r]); }
    if InSlice(slice, o) { assert Feeds(f, o.r, r); }
    if o.Reg? && o.r !in slice { PassedIsEqual(f, slice, st, su, o); }
  }

  /** Every edge into a block has an operand in each of its PHIs. */
  ghost predicate EdgesOk(f: Fn) {
    && WellFormed(f)
    && forall b, t, r :: 0 <= b < |f.blocks| && 0 <= t < |f.blocks| && r in f.blocks[t].phis && Goes(f.blocks[b].term, t)
         ==> r < |f.insts| && f.insts[r].Phi? && b in f.insts[r].incoming
  }

  predicate Goes(term: Term, t: nat) {
    match term case Jump(to) => to == t case Branch(_, yes, no) => yes == t || no == t case Return(_) => false
  }

  lemma PhisAgree(f: Fn, slice: set<nat>, st: State, su: State, t: nat, step: nat, p: Oracle, q: Oracle)
    requires EdgesOk(f) && Closed(f, slice) && Alike(f, slice, st, su)
    requires t < |f.blocks| && Goes(f.blocks[st.block].term, t) && BlockOk(f, t)
    ensures PhiShadows(f, st, t) == PhiShadows(f, su, t)
    ensures MapsAgree(f, slice, PhiShadows(f, st, t), PhiValues(f, st, t, step, p), PhiValues(f, su, t, step, q))
  {
    forall r | r in f.blocks[t].phis
      ensures PhiShadow(f, st, r) == PhiShadow(f, su, r) && |PhiShadow(f, st, r)| == f.width[r]
      ensures Agree(PhiShadow(f, st, r), PhiValues(f, st, t, step, p)[r], PhiValues(f, su, t, step, q)[r])
      ensures r !in slice ==> !Any(PhiShadow(f, st, r))
    {
      PhiAgrees(f, slice, st, su, r, Fit(p(step, r), f.width[r]), Fit(q(step, r), f.width[r]));
    }
  }

  lemma EnterKeeps(f: Fn, slice: set<nat>, st: State, su: State, t: nat, step: nat, p: Oracle, q: Oracle)
    requires EdgesOk(f) && Closed(f, slice) && Alike(f, slice, st, su)
    requires t < |f.blocks| && Goes(f.blocks[st.block].term, t)
    ensures Alike(f, slice, Enter(f, st, t, step, p), Enter(f, su, t, step, q))
  {
    assert BlockOk(f, t);
    PhisAgree(f, slice, st, su, t, step, p, q);
    MapsMerge(f, slice, st.shs, st.regs, su.regs,
              PhiShadows(f, st, t), PhiValues(f, st, t, step, p), PhiValues(f, su, t, step, q));
  }

  lemma FinishKeeps(f: Fn, slice: set<nat>, st: State, su: State, step: nat, p: Oracle, q: Oracle)
    requires EdgesOk(f) && Closed(f, slice) && Alike(f, slice, st, su)
    ensures SameSoFar(f, slice, Finish(f, slice, st, step, p), Finish(f, slice, su, step, q))
  {
    assert BlockOk(f, st.block);
    match f.blocks[st.block].term
    case Jump(t) => EnterKeeps(f, slice, st, su, t, step, p, q);
    case Branch(c, t, e) =>
      PassedIsEqual(f, slice, st, su, c);
      if !Bad(f, slice, st, c) {
        EnterKeeps(f, slice, st, su, if Truth(Value(f, st, c, [])) then t else e, step, p, q);
      }
    case Return(v) => ReturnKeeps(f, slice, st, su, v);
  }

  lemma ReturnKeeps(f: Fn, slice: set<nat>, st: State, su: State, v: Operand)
    requires |f.width| == |f.insts| && Alike(f, slice, st, su) && Defined(f, v)
    ensures Any(Shadow(f, st, v, 0)) <==> Any(Shadow(f, su, v, 0))
    ensures !Any(Shadow(f, st, v, 0)) ==> Value(f, st, v, []) == Value(f, su, v, [])
  {
    PassedIsEqual(f, slice, st, su, v);
    PassedIsEqual(f, slice, su, st, v);
  }

  lemma StepKeeps(f: Fn, slice: set<nat>, st: State, su: State, step: nat, p: Oracle, q: Oracle)
    requires EdgesOk(f) && Closed(f, slice) && Alike(f, slice, st, su)
    ensures SameSoFar(f, slice, Step(f, slice, st, step, p), Step(f, slice, su, step, q))
  {
    assert BlockOk(f, st.block);
    var body := f.blocks[st.block].body;
    if st.pc < |body| {
      var r := body[st.pc];
      match f.insts[r]
      case Select(_, _, _) => SelectKeeps(f, slice, st, su, r, p(step, r), q(step, r));
      case Op(_, _) => OpKeeps(f, slice, st, su, r, p(step, r), q(step, r));
      case Load(_) => LoadKeeps(f, slice, st, su, r, p(step, r), q(step, r));
      case Store(_, _) => StoreKeeps(f, slice, st, su, r, p(step, r), q(step, r));
      case Call(_, _) => CallKeeps(f, slice, st, su, r, p(step, r), q(step, r));
    } else {
      FinishKeeps(f, slice, st, su, step, p, q);
    }
  }

  /** A run, one step after another. */
  ghost predicate IsRun(f: Fn, slice: set<nat>, run: seq<State>, oracle: Oracle) {
    && WellFormed(f) && run != []
    && (forall n :: 0 <= n < |run| && run[n].Going? ==> run[n].block < |f.blocks|)
    && forall n: nat :: n < |run| - 1 ==> StepAt(f, slice, run, n, oracle)
  }

  ghost predicate StepAt(f: Fn, slice: set<nat>, run: seq<State>, n: nat, oracle: Oracle) {
    n < |run| - 1 && Follows(f, slice, run[n], run[n + 1], n, oracle)
  }

  ghost predicate Follows(f: Fn, slice: set<nat>, st: State, su: State, step: nat, oracle: Oracle) {
    WellFormed(f) && (st.Going? ==> st.block < |f.blocks|) && su == Step(f, slice, st, step, oracle)
  }

  lemma FollowersAlike(f: Fn, slice: set<nat>, st: State, su: State, st1: State, su1: State, step: nat, p: Oracle, q: Oracle)
    requires EdgesOk(f) && Closed(f, slice) && SameSoFar(f, slice, st, su)
    requires Follows(f, slice, st, st1, step, p) && Follows(f, slice, su, su1, step, q)
    ensures SameSoFar(f, slice, st1, su1)
  {
    if st.Going? { StepKeeps(f, slice, st, su, step, p, q); }
  }

  /** Nothing that is not reported depends on an undefined value: two runs from alike states
      that differ in the bytes picked for undef follow the same path, make the same calls and
      agree on every value and every byte with a clean shadow, until both raise the same first
      warning, both execute the same first load that finds poison, or both return the same value.
      Where the check of that load reports it is the subject of SinkDeferral. */
  lemma {:induction false} UndefDoesNotLeak(f: Fn, slice: set<nat>, ru: seq<State>, rv: seq<State>, p: Oracle, q: Oracle, n: nat)
    requires EdgesOk(f) && Closed(f, slice)
    requires IsRun(f, slice, ru, p) && IsRun(f, slice, rv, q) && SameSoFar(f, slice, ru[0], rv[0])
    requires n < |ru| && n < |rv|
    ensures SameSoFar(f, slice, ru[n], rv[n])
  {
    if n > 0 {
      UndefDoesNotLeak(f, slice, ru, rv, p, q, n - 1);
      assert StepAt(f, slice, ru, n - 1, p) && StepAt(f, slice, rv, n - 1, q);
      FollowersAlike(f, slice, ru[n - 1], rv[n - 1], ru[n], rv[n], n - 1, p, q);
    }
  }

  // No false alarm.

  ghost predicate AllClean(st: State)
    requires st.Going?
  {
    (forall r :: r in st.shs ==> !Any(st.shs[r])) && forall a :: !st.smem(a)
  }

  ghost predicate EdgePicksUndef(f: Fn, st: State, t: nat)
    requires WellFormed(f) && st.Going? && t < |f.blocks|
  {
    assert BlockOk(f, t);
    exists r :: r in f.blocks[t].phis && PhiOperand(f, r, st.block).Undef?
  }

  /** The next step really picks an undefined value: a chosen arm or a PHI operand on the edge. */
  ghost predicate PicksUndef(f: Fn, st: State)
    requires WellFormed(f) && st.Going? && st.block < |f.blocks|
  {
    assert BlockOk(f, st.block);
    var body := f.blocks[st.block].body;
    if st.pc < |body| then
      f.insts[body[st.pc]].Select? && ChosenArm(f, st, body[st.pc]).Undef?
    else
      match f.blocks[st.block].term
      case Jump(t) => EdgePicksUndef(f, st, t)
      case Branch(c, t, e) => EdgePicksUndef(f, st, if Truth(Value(f, st, c, [])) then t else e)
      case Return(_) => false
  }

  lemma CleanOperand(f: Fn, slice: set<nat>, st: State, o: Operand, w: nat)
    requires st.Going? && AllClean(st) && (o.Reg? ==> o.r < |f.width|) && !o.Undef?
    ensures !Any(Shadow(f, st, o, w)) && !Any(SliceShadow(f, slice, st, o, w)) && !Bad(f, slice, st, o)
  {
    FillAny(w);
  }

  lemma CleanBody(f: Fn, slice: set<nat>, st: State, r: nat, pick: Bytes)
    requires WellFormed(f) && st.Going? && AllClean(st) && r < |f.insts| && !f.insts[r].Phi?
    requires f.insts[r].Select? ==> !ChosenArm(f, st, r).Undef?
    ensures var su := Exec(f, slice, st, r, pick); su.Going? && AllClean(su)
  {
    assert InstOk(f, r);
    var w := f.width[r];
    FillAny(w);
    match f.insts[r]
    case Select(c, a, b) =>
      CleanOperand(f, slice, st, c, 0);
      CleanOperand(f, slice, st, ChosenArm(f, st, r), w);
    case Op(_, args) => CleanArgs(f, slice, st, args);
    case Load(a) => CleanOperand(f, slice, st, a, 0);
    case Store(a, v) =>
      CleanOperand(f, slice, st, a, 0);
      CleanOperand(f, slice, st, v, w);
    case Call(_, args) => CleanArgs(f, slice, st, args);
  }

  lemma CleanArgs(f: Fn, slice: set<nat>, st: State, args: seq<Operand>)
    requires st.Going? && AllClean(st)
    requires forall k :: 0 <= k < |args| ==> !args[k].Undef? && (args[k].Reg? ==> args[k].r < |f.width|)
    ensures !SomeBad(f, slice, st, args)
  {
    forall k | 0 <= k < |args| ensures !Bad(f, slice, st, args[k]) { CleanOperand(f, slice, st, args[k], 0); }
  }

  lemma CleanEnter(f: Fn, slice: set<nat>, st: State, t: nat, step: nat, p: Oracle)
    requires WellFormed(f) && st.Going? && AllClean(st) && t < |f.blocks| && !EdgePicksUndef(f, st, t)
    ensures AllClean(Enter(f, st, t, step, p))
  {
    assert BlockOk(f, t);
    forall r | r in f.blocks[t].phis ensures !Any(PhiShadow(f, st, r)) {
      assert InstOk(f, r);
      CleanOperand(f, slice, st, PhiOperand(f, r, st.block), f.width[r]);
    }
  }

  lemma CleanStep(f: Fn, slice: set<nat>, st: State, step: nat, p: Oracle)
    requires WellFormed(f) && st.Going? && st.block < |f.blocks| && AllClean(st) && !PicksUndef(f, st)
    ensures var su := Step(f, slice, st, step, p); !su.Warned? && !su.FoundPoison? && (su.Going? ==> AllClean(su))
  {
    assert BlockOk(f, st.block);
    var body := f.blocks[st.block].body;
    if st.pc < |body| {
      CleanBody(f, slice, st, body[st.pc], p(step, body[st.pc]));
    } else {
      match f.blocks[st.block].term
      case Jump(t) => CleanEnter(f, slice, st, t, step, p);
      case Branch(c, t, e) =>
        CleanOperand(f, slice, st, c, 0);
        CleanEnter(f, slice, st, if Truth(Value(f, st, c, [])) then t else e, step, p);
      case Return(v) => CleanOperand(f, slice, st, v, 0);
    }
  }

  /** A run over clean memory that never picks an undefined value, whatever arms and edges with
      one it passes by, raises no warning and loads no poison. */
  lemma {:induction false} NoFalseAlarm(f: Fn, slice: set<nat>, run: seq<State>, p: Oracle, n: nat)
    requires IsRun(f, slice, run, p) && n < |run| && run[0].Going? && AllClean(run[0])
    requires forall k :: 0 <= k < |run| && run[k].Going? ==> !PicksUndef(f, run[k])
    ensures !run[n].Warned? && !run[n].FoundPoison? && (run[n].Going? ==> AllClean(run[n]))
  {
    if n > 0 {
      NoFalseAlarm(f, slice, run, p, n - 1);
      assert StepAt(f, slice, run, n - 1, p);
      if run[n - 1].Going? { CleanStep(f, slice, run[n - 1], n - 1, p); }
    }
  }

  // Every alarm has a source.

  ghost predicate GoesTo(f: Fn, st: State, t: nat)
    requires WellFormed(f) && st.Going? && st.block < |f.blocks|
  {
    assert BlockOk(f, st.block);
    match f.blocks[st.block].term
    case Jump(to) => t == to
    case Branch(c, yes, no) => t == if Truth(Value(f, st, c, [])) then yes else no
    case Return(_) => false
  }

  /** The next step computes register r, in a block's body or as a PHI on the edge it takes. */
  ghost predicate Computes(f: Fn, st: State, r: nat)
    requires WellFormed(f) && st.Going? && st.block < |f.blocks|
  {
    assert BlockOk(f, st.block);
    var body := f.blocks[st.block].body;
    if st.pc < |body| then body[st.pc] == r && !f.insts[r].Store?
    else exists t: nat :: t < |f.blocks| && GoesTo(f, st, t) && r in f.blocks[t].phis
  }

  /** That computation takes in operand o: a condition, the arm it chooses, an argument, or what the
      PHI has for the edge. */
  ghost predicate TakesIn(f: Fn, st: State, r: nat, o: Operand)
    requires WellFormed(f) && st.Going? && r < |f.insts|
  {
    assert InstOk(f, r);
    match f.insts[r]
    case Phi(incoming) => o == if st.block in incoming then incoming[st.block] else Undef
    case Select(c, yes, no) => o == c || o == if Truth(Value(f, st, c, [])) then yes else no
    case Op(_, args) => o in args
    case _ => false
  }

  ghost predicate InBlocks(f: Fn, run: seq<State>) {
    forall k :: 0 <= k < |run| && run[k].Going? ==> run[k].block < |f.blocks|
  }

  /** Step t is the last one before n that computes r. */
  ghost predicate LastComputed(f: Fn, run: seq<State>, t: nat, n: nat, r: nat)
    requires WellFormed(f) && n < |run|
    requires InBlocks(f, run)
  {
    && t < n && r < |f.insts| && run[t].Going? && Computes(f, run[t], r)
    && forall k :: t < k < n && run[k].Going? ==> !Computes(f, run[k], r)
  }

  /** What r holds at n goes back, through values the run really took in, to an undefined value. */
  ghost predicate Traced(f: Fn, run: seq<State>, n: nat, r: nat)
    requires WellFormed(f) && n < |run|
    requires InBlocks(f, run)
    decreases n
  {
    exists t :: 0 <= t < n && LastComputed(f, run, t, n, r)
      && (TakesIn(f, run[t], r, Undef) || exists q :: TakesIn(f, run[t], r, Reg(q)) && Traced(f, run, t, q))
  }

  /** The step takes in something poisoned for r. */
  ghost predicate TakesPoison(f: Fn, st: State, r: nat)
    requires WellFormed(f) && st.Going? && r < |f.insts|
  {
    TakesIn(f, st, r, Undef) || exists q: nat :: q < |f.width| && TakesIn(f, st, r, Reg(q)) && Any(RegShadow(f, st, q))
  }

  lemma OperandPoison(f: Fn, slice: set<nat>, st: State, r: nat, o: Operand, w: nat)
    requires WellFormed(f) && st.Going? && r < |f.insts| && TakesIn(f, st, r, o) && (o.Reg? ==> o.r < |f.width|)
    requires Any(Shadow(f, st, o, w)) || Any(SliceShadow(f, slice, st, o, w)) || Bad(f, slice, st, o)
    ensures TakesPoison(f, st, r)
  {
    FillAny(w);
    if o.Const? { FillAny(|o.bytes|); }
    if o.Reg? { assert TakesIn(f, st, r, Reg(o.r)); }
  }

  lemma BodyPoison(f: Fn, slice: set<nat>, st: State, r: nat, pick: Bytes)
    requires WellFormed(f) && st.Going? && r < |f.insts| && !f.insts[r].Phi? && !f.insts[r].Store?
    requires var su := Exec(f, slice, st, r, pick); su.Going? && r in su.shs && Any(su.shs[r])
    ensures TakesPoison(f, st, r)
  {
    assert InstOk(f, r);
    var w := f.width[r];
    FillAny(w);
    match f.insts[r]
    case Select(c, _, _) =>
      var arm := ChosenArm(f, st, r);
      if Bad(f, slice, st, c) { OperandPoison(f, slice, st, r, c, 0); }
      else { OperandPoison(f, slice, st, r, arm, w); }
    case Op(_, args) =>
      var k :| 0 <= k < |args| && Bad(f, slice, st, args[k]);
      OperandPoison(f, slice, st, r, args[k], 0);
    case Load(_) =>
    case Call(_, _) =>
  }

  lemma EdgePoison(f: Fn, slice: set<nat>, st: State, t: nat, step: nat, p: Oracle, r: nat)
    requires WellFormed(f) && st.Going? && t < |f.blocks| && r < |f.width|
    requires Any(RegShadow(f, Enter(f, st, t, step, p), r))
    ensures if r in f.blocks[t].phis then TakesPoison(f, st, r) else Any(RegShadow(f, st, r))
  {
    assert BlockOk(f, t);
    FillAny(f.width[r]);
    if r in f.blocks[t].phis {
      assert InstOk(f, r);
      OperandPoison(f, slice, st, r, PhiOperand(f, r, st.block), f.width[r]);
    }
  }

  /** A poisoned register was poisoned before the step, or the step computed it from poison. */
  lemma StepPoison(f: Fn, slice: set<nat>, st: State, su: State, step: nat, p: Oracle, r: nat)
    requires WellFormed(f) && st.Going? && st.block < |f.blocks| && su == Step(f, slice, st, step, p) && su.Going?
    requires r < |f.width| && Any(RegShadow(f, su, r))
    ensures if Computes(f, st, r) then TakesPoison(f, st, r) else Any(RegShadow(f, st, r))
  {
    assert BlockOk(f, st.block);
    FillAny(f.width[r]);
    var body := f.blocks[st.block].body;
    if st.pc < |body| {
      if Computes(f, st, r) { BodyPoison(f, slice, st, r, p(step, r)); }
    } else {
      match f.blocks[st.block].term
      case Jump(t) =>
        assert GoesTo(f, st, t);
        EdgePoison(f, slice, st, t, step, p, r);
      case Branch(c, yes, no) =>
        var t := if Truth(Value(f, st, c, [])) then yes else no;
        assert GoesTo(f, st, t);
        EdgePoison(f, slice, st, t, step, p, r);
      case Return(_) =>
    }
  }

  ghost predicate RegsClean(st: State)
    requires st.Going?
  {
    forall r :: r in st.shs ==> !Any(st.shs[r])
  }

  lemma TracedLater(f: Fn, run: seq<State>, n: nat, r: nat)
    requires WellFormed(f) && n + 1 < |run| && InBlocks(f, run) && Traced(f, run, n, r)
    requires run[n].Going? ==> !Computes(f, run[n], r)
    ensures Traced(f, run, n + 1, r)
  {
    var t :| 0 <= t < n && LastComputed(f, run, t, n, r)
      && (TakesIn(f, run[t], r, Undef) || exists q :: TakesIn(f, run[t], r, Reg(q)) && Traced(f, run, t, q));
    assert LastComputed(f, run, t, n + 1, r);
  }

  lemma TracedNow(f: Fn, run: seq<State>, n: nat, r: nat, o: Operand)
    requires WellFormed(f) && n + 1 < |run| && InBlocks(f, run) && r < |f.insts|
    requires run[n].Going? && Computes(f, run[n], r) && TakesIn(f, run[n], r, o)
    requires o.Undef? || (o.Reg? && Traced(f, run, n, o.r))
    ensures Traced(f, run, n + 1, r)
  {
    assert LastComputed(f, run, n, n + 1, r);
    if o.Reg? { assert TakesIn(f, run[n], r, Reg(o.r)); }
  }

  lemma RunStepPoison(f: Fn, slice: set<nat>, run: seq<State>, p: Oracle, n: nat, r: nat)
    requires IsRun(f, slice, run, p) && n + 1 < |run| && run[n + 1].Going? && r < |f.width|
    requires Any(RegShadow(f, run[n + 1], r))
    ensures run[n].Going? && if Computes(f, run[n], r) then TakesPoison(f, run[n], r) else Any(RegShadow(f, run[n], r))
  {
    assert StepAt(f, slice, run, n, p);
    StepPoison(f, slice, run[n], run[n + 1], n, p, r);
  }

  /** Whatever a run has picked so far, a register's shadow is set only if its value really depends
      on an undefined value picked in this very run. */
  lemma {:induction false} PoisonIsTraced(f: Fn, slice: set<nat>, run: seq<State>, p: Oracle, n: nat, r: nat)
    requires IsRun(f, slice, run, p) && n < |run| && run[n].Going? && r < |f.width|
    requires run[0].Going? && RegsClean(run[0]) && Any(RegShadow(f, run[n], r))
    ensures InBlocks(f, run) && Traced(f, run, n, r)
    decreases n
  {
    FillAny(f.width[r]);
    if n > 0 {
      var st := run[n - 1];
      RunStepPoison(f, slice, run, p, n - 1, r);
      if !Computes(f, st, r) {
        PoisonIsTraced(f, slice, run, p, n - 1, r);
        TracedLater(f, run, n - 1, r);
      } else if TakesIn(f, st, r, Undef) {
        TracedNow(f, run, n - 1, r, Undef);
      } else {
        var q: nat :| q < |f.width| && TakesIn(f, st, r, Reg(q)) && Any(RegShadow(f, st, q));
        PoisonIsTraced(f, slice, run, p, n - 1, q);
        TracedNow(f, run, n - 1, r, Reg(q));
      }
    }
  }

  /** A PHI that is computed has an operand for the edge. */
  lemma ComputedEdge(f: Fn, st: State, r: nat)
    requires EdgesOk(f) && st.Going? && st.block < |f.blocks| && r < |f.insts| && Computes(f, st, r)
    ensures f.insts[r].Phi? ==> st.block in f.insts[r].incoming
  {
    assert BlockOk(f, st.block);
    var body := f.blocks[st.block].body;
    if f.insts[r].Phi? {
      var t: nat :| t < |f.blocks| && GoesTo(f, st, t) && r in f.blocks[t].phis;
      assert Goes(f.blocks[st.block].term, t);
    }
  }

  /** What goes back to an undefined value is in every closed set. */
  lemma {:induction false} TracedIsInSlice(f: Fn, slice: set<nat>, run: seq<State>, p: Oracle, n: nat, r: nat)
    requires IsRun(f, slice, run, p) && EdgesOk(f) && Closed(f, slice) && n < |run| && InBlocks(f, run) && Traced(f, run, n, r)
    ensures r in slice
    decreases n
  {
    var t :| 0 <= t < n && LastComputed(f, run, t, n, r)
      && (TakesIn(f, run[t], r, Undef) || exists q :: TakesIn(f, run[t], r, Reg(q)) && Traced(f, run, t, q));
    assert InstOk(f, r);
    if TakesIn(f, run[t], r, Undef) {
      ComputedEdge(f, run[t], r);
      assert IsSeed(f.insts[r]);
    } else {
      var q :| TakesIn(f, run[t], r, Reg(q)) && Traced(f, run, t, q);
      TracedIsInSlice(f, slice, run, p, t, q);
      ComputedEdge(f, run[t], r);
      assert Feeds(f, q, r);
    }
  }

  /** So the slice is enough: a register outside it has a clean shadow in every run. */
  lemma OutsideIsClean(f: Fn, slice: set<nat>, run: seq<State>, p: Oracle, n: nat, r: nat)
    requires IsRun(f, slice, run, p) && EdgesOk(f) && Closed(f, slice) && n < |run| && run[n].Going?
    requires run[0].Going? && RegsClean(run[0]) && r < |f.width| && r !in slice
    ensures !Any(RegShadow(f, run[n], r))
  {
    if Any(RegShadow(f, run[n], r)) {
      PoisonIsTraced(f, slice, run, p, n, r);
      TracedIsInSlice(f, slice, run, p, n, r);
    }
  }

  /** What the next step may not take undefined: an address, an argument of a call, a condition, a
      result. */
  ghost predicate MustBeDefined(f: Fn, st: State, o: Operand)
    requires WellFormed(f) && st.Going? && st.block < |f.blocks|
  {
    assert BlockOk(f, st.block);
    var body := f.blocks[st.block].body;
    if st.pc < |body| then
      match f.insts[body[st.pc]]
      case Load(a) => o == a
      case Store(a, _) => o == a
      case Call(_, args) => o in args
      case _ => false
    else
      match f.blocks[st.block].term
      case Jump(_) => false
      case Branch(c, _, _) => o == c
      case Return(v) => o == v
  }

  /** The exact cause of a warning: an operand that has to be defined there depends on an undefined
      value picked in this run. */
  lemma WarningIsTraced(f: Fn, slice: set<nat>, run: seq<State>, p: Oracle, n: nat) returns (q: nat)
    requires IsRun(f, slice, run, p) && n + 1 < |run| && run[n].Going? && run[n + 1].Warned?
    requires run[0].Going? && RegsClean(run[0])
    ensures InBlocks(f, run) && MustBeDefined(f, run[n], Reg(q)) && Traced(f, run, n, q)
  {
    assert StepAt(f, slice, run, n, p);
    q := WarnedOperand(f, slice, run[n], n, p);
    PoisonIsTraced(f, slice, run, p, n, q);
  }

  lemma WarnedOperand(f: Fn, slice: set<nat>, st: State, step: nat, p: Oracle) returns (q: nat)
    requires WellFormed(f) && st.Going? && st.block < |f.blocks| && Step(f, slice, st, step, p).Warned?
    ensures q < |f.width| && MustBeDefined(f, st, Reg(q)) && Any(RegShadow(f, st, q))
  {
    assert BlockOk(f, st.block);
    var body := f.blocks[st.block].body;
    if st.pc < |body| {
      var i := f.insts[body[st.pc]];
      assert InstOk(f, body[st.pc]);
      match i
      case Load(a) => q := a.r;
      case Store(a, _) => q := a.r;
      case Call(_, args) =>
        var k :| 0 <= k < |args| && Bad(f, slice, st, args[k]);
        q := args[k].r;
    } else {
      match f.blocks[st.block].term
      case Branch(c, _, _) => q := c.r;
      case Return(v) =>
        if v.Const? { FillAny(|v.bytes|); }
        q := v.r;
    }
  }

  /** Without a seed the slice is empty, and no sink check and no store is changed by it. */
  lemma NoUndefNoSlice(f: Fn, slice: set<nat>)
    requires Closed(f, slice) && forall t :: Closed(f, t) ==> slice <= t
    requires forall r :: 0 <= r < |f.insts| ==> !IsSeed(f.insts[r])
    ensures slice == {}
  {
    assert Closed(f, {});
  }
}
