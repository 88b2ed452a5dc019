/** Placing the checks of a basic block (CompilerQEMUMemorySanitizer.cpp: anchorFor,
    checkInsertPoint, materializeInstructionChecks, emitCoalescedCheck,
    materializeCoalescedChecks). A block is its instructions by position, the terminator
    last; a barrier is an instruction after which execution may not go on. */
module Coalescing {
  import opened Wrappers

  datatype Block = Block(barrier: seq<bool>, immediate: seq<bool>, phis: nat, unsplittable: bool) {
    ghost predicate WellFormed() {
      && |barrier| > 0 && |immediate| == |barrier| && phis < |barrier|
      && forall i :: 0 <= i < phis ==> !barrier[i]
    }
    function Last(): int { |barrier| - 1 }
  }

  /** A shadow: a constant, an instruction of this block, or a value from another block. */
  datatype Shadow = Const(poisoned: bool) | Local(pos: nat) | Remote(id: nat)

  datatype Check = Check(shadow: Shadow, orig: nat, essential: bool)

  // Emitted code: straight-line ORs into fresh temporaries and tests that warn.

  datatype Src = Val(shadow: Shadow) | Tmp(t: nat)
  datatype Code = Or(dst: nat, a: Src, b: Src) | Test(a: Src)

  /** `slots[i]` is the code inserted before instruction i, in order. */
  datatype Emitted = Emitted(slots: seq<seq<Code>>, next: nat)

  function Put(e: Emitted, q: nat, code: Code): Emitted
    requires q < |e.slots|
  {
    e.(slots := e.slots[q := e.slots[q] + [code]])
  }

  function EmitOr(e: Emitted, q: nat, a: Src, b: Src): (Emitted, Src)
    requires q < |e.slots|
  {
    (Put(e, q, Or(e.next, a, b)).(next := e.next + 1), Tmp(e.next))
  }

  // Running it.

  /** What the shadows of one run hold. */
  datatype Vals = Vals(local: nat -> bool, remote: nat -> bool)

  ghost predicate Poisoned(v: Vals, s: Shadow) {
    match s
    case Const(b) => b
    case Local(p) => v.local(p)
    case Remote(id) => v.remote(id)
  }

  ghost predicate AnyPoisoned(v: Vals, shadows: seq<Shadow>) {
    exists i :: 0 <= i < |shadows| && Poisoned(v, shadows[i])
  }

  /** Temporaries so far and the positions of the warnings, or a use before its definition. */
  datatype State = Stuck | Going(env: map<nat, bool>, log: set<nat>)

  ghost function Read(v: Vals, pos: nat, env: map<nat, bool>, a: Src): Option<bool> {
    match a
    case Val(Local(p)) => if p < pos then Some(v.local(p)) else None
    case Val(s) => Some(Poisoned(v, s))
    case Tmp(t) => if t in env then Some(env[t]) else None
  }

  ghost function ExecCode(v: Vals, pos: nat, st: State, code: Code): State {
    if st.Stuck? then Stuck else
    match code
    case Or(dst, a, b) =>
      var x, y := Read(v, pos, st.env, a), Read(v, pos, st.env, b);
      if x.None? || y.None? then Stuck else st.(env := st.env[dst := x.value || y.value])
    case Test(a) =>
      var x := Read(v, pos, st.env, a);
      if x.None? then Stuck else if x.value then st.(log := st.log + {pos}) else st
  }

  ghost function ExecSlot(v: Vals, pos: nat, st: State, codes: seq<Code>): State {
    if codes == [] then st
    else ExecCode(v, pos, ExecSlot(v, pos, st, codes[..|codes| - 1]), codes[|codes| - 1])
  }

  /** The state when instruction k is about to execute is `ExecTo(k + 1)`. */
  ghost function ExecTo(v: Vals, slots: seq<seq<Code>>, k: nat): State
    requires k <= |slots|
  {
    if k == 0 then Going(map[], {}) else ExecSlot(v, k - 1, ExecTo(v, slots, k - 1), slots[k - 1])
  }

  // Adding code does not disturb what is there.

  ghost predicate SrcBelow(a: Src, next: nat) { a.Tmp? ==> a.t < next }

  ghost predicate CodeBelow(c: Code, next: nat) {
    match c
    case Or(dst, a, b) => dst < next && SrcBelow(a, next) && SrcBelow(b, next)
    case Test(a) => SrcBelow(a, next)
  }

  ghost predicate SlotBelow(codes: seq<Code>, next: nat) {
    forall j :: 0 <= j < |codes| ==> CodeBelow(codes[j], next)
  }

  ghost predicate AllBelow(e: Emitted) {
    forall i :: 0 <= i < |e.slots| ==> SlotBelow(e.slots[i], e.next)
  }

  /** st with one more temporary, or one more warning. */
  ghost function Plus(st: State, t: nat, x: Option<bool>, log: set<nat>): State {
    if st.Stuck? then Stuck
    else Going(if x.Some? then st.env[t := x.value] else st.env, st.log + log)
  }

  lemma {:induction false} SlotCommutes(v: Vals, pos: nat, st: State, codes: seq<Code>, t: nat, x: Option<bool>, log: set<nat>)
    requires SlotBelow(codes, t) && ExecSlot(v, pos, st, codes).Going?
    ensures ExecSlot(v, pos, Plus(st, t, x, log), codes) == Plus(ExecSlot(v, pos, st, codes), t, x, log)
  {
    if codes != [] {
      var rest, c := codes[..|codes| - 1], codes[|codes| - 1];
      var mid := ExecSlot(v, pos, st, rest);
      SlotCommutes(v, pos, st, rest, t, x, log);
      assert CodeBelow(c, t);
      if mid.Going? { CodeCommutes(v, pos, mid, c, t, x, log); }
    }
  }

  lemma CodeCommutes(v: Vals, pos: nat, st: State, c: Code, t: nat, x: Option<bool>, log: set<nat>)
    requires st.Going? && CodeBelow(c, t) && ExecCode(v, pos, st, c).Going?
    ensures ExecCode(v, pos, Plus(st, t, x, log), c) == Plus(ExecCode(v, pos, st, c), t, x, log)
  {
    var after, plus := ExecCode(v, pos, st, c), Plus(st, t, x, log);
    match c
    case Or(dst, a, b) =>
      assert ExecCode(v, pos, plus, c).env == Plus(after, t, x, log).env;
    case Test(a) =>
      assert ExecCode(v, pos, plus, c).log == Plus(after, t, x, log).log;
  }

  /** Everything emitted so far is defined before it is used, in every slot. */
  ghost predicate Sound(v: Vals, e: Emitted) {
    AllBelow(e) && ExecTo(v, e.slots, |e.slots|).Going?
  }

  lemma {:induction false} SoundBefore(v: Vals, slots: seq<seq<Code>>, k: nat, n: nat)
    requires k <= n <= |slots| && ExecTo(v, slots, n).Going?
    ensures ExecTo(v, slots, k).Going?
    decreases n
  {
    if k < n {
      SlotKeepsStuck(v, n - 1, slots[n - 1]);
      SoundBefore(v, slots, k, n - 1);
    }
  }

  lemma {:induction false} SlotKeepsStuck(v: Vals, pos: nat, codes: seq<Code>)
    ensures ExecSlot(v, pos, Stuck, codes) == Stuck
  {
    if codes != [] { SlotKeepsStuck(v, pos, codes[..|codes| - 1]); }
  }

  /** The state after slot k. */
  ghost function After(v: Vals, e: Emitted, k: nat): State
    requires k < |e.slots|
  {
    ExecTo(v, e.slots, k + 1)
  }

  /** The effect of appending code c to slot q: nothing before it, and after it the old state
      plus what c does there. */
  lemma {:induction false} PutEffect(v: Vals, e: Emitted, q: nat, c: Code, x: Option<bool>, log: set<nat>, k: nat)
    requires Sound(v, e) && q < |e.slots| && k <= |e.slots|
    requires ExecCode(v, q, After(v, e, q), c) == Plus(After(v, e, q), e.next, x, log)
    ensures ExecTo(v, Put(e, q, c).slots, k)
         == if k <= q then ExecTo(v, e.slots, k) else Plus(ExecTo(v, e.slots, k), e.next, x, log)
  {
    var slots, slots1 := e.slots, Put(e, q, c).slots;
    if k > 0 {
      PutEffect(v, e, q, c, x, log, k - 1);
      SoundBefore(v, slots, k, |slots|);
      if k - 1 == q {
        assert slots1[q][..|slots[q]|] == slots[q];
      } else if k - 1 > q {
        assert SlotBelow(slots[k - 1], e.next);
        SlotCommutes(v, k - 1, ExecTo(v, slots, k - 1), slots[k - 1], e.next, x, log);
      }
    }
  }

  /** From slot q on, `a` can be read and gives x. */
  ghost predicate Holds(v: Vals, e: Emitted, q: nat, a: Src, x: bool) {
    && SrcBelow(a, e.next)
    && forall k :: q <= k < |e.slots| ==> After(v, e, k).Going? && Read(v, k, After(v, e, k).env, a) == Some(x)
  }

  lemma ShadowHolds(v: Vals, e: Emitted, q: nat, s: Shadow)
    requires Sound(v, e) && (s.Local? ==> s.pos < q)
    ensures Holds(v, e, q, Val(s), Poisoned(v, s))
  {
    forall k | q <= k < |e.slots| ensures After(v, e, k).Going? {
      SoundBefore(v, e.slots, k + 1, |e.slots|);
    }
  }

  ghost function Log(v: Vals, e: Emitted): set<nat>
    requires Sound(v, e)
  {
    ExecTo(v, e.slots, |e.slots|).log
  }

  lemma BelowAfterPut(e: Emitted, q: nat, c: Code, next: nat)
    requires AllBelow(e) && q < |e.slots| && next >= e.next && CodeBelow(c, next)
    ensures AllBelow(Put(e, q, c).(next := next))
  {
  }

  /** An OR defines a new temporary that holds from its slot on. */
  lemma OrEffect(v: Vals, e: Emitted, q: nat, a: Src, x: bool, b: Src, y: bool)
    requires Sound(v, e) && q < |e.slots| && Holds(v, e, q, a, x) && Holds(v, e, q, b, y)
    ensures var (e1, t) := EmitOr(e, q, a, b);
      Sound(v, e1) && |e1.slots| == |e.slots| && Holds(v, e1, q, t, x || y) && Log(v, e1) == Log(v, e)
  {
    var c, z := Or(e.next, a, b), Some(x || y);
    assert ExecCode(v, q, After(v, e, q), c) == Plus(After(v, e, q), e.next, z, {});
    BelowAfterPut(e, q, c, e.next + 1);
    PutEffect(v, e, q, c, z, {}, |e.slots|);
    var e1 := EmitOr(e, q, a, b).0;
    forall k | q <= k < |e.slots|
      ensures After(v, e1, k).Going? && Read(v, k, After(v, e1, k).env, Tmp(e.next)) == z
    {
      PutEffect(v, e, q, c, z, {}, k + 1);
      SoundBefore(v, e.slots, k + 1, |e.slots|);
    }
  }

  /** A test adds its position to the warnings exactly when what it reads is poisoned. */
  lemma TestEffect(v: Vals, e: Emitted, q: nat, a: Src, x: bool)
    requires Sound(v, e) && q < |e.slots| && Holds(v, e, q, a, x)
    ensures var e1 := Put(e, q, Test(a));
      Sound(v, e1) && Log(v, e1) == Log(v, e) + (if x then {q} else {})
  {
    var log := if x then {q} else {};
    assert ExecCode(v, q, After(v, e, q), Test(a)) == Plus(After(v, e, q), e.next, None, log);
    BelowAfterPut(e, q, Test(a), e.next);
    PutEffect(v, e, q, Test(a), None, log, |e.slots|);
  }

  // Emitting one group.

  /** The position after an instruction, past the PHIs at the top of the block. */
  function InsertPointAfter(b: Block, pos: nat): nat {
    if pos + 1 < b.phis then b.phis else pos + 1
  }

  /** ORs shadows into the accumulator at one slot. */
  function OrAll(e: Emitted, q: nat, acc: Src, rest: seq<Shadow>): (r: (Emitted, Src))
    requires q < |e.slots|
    ensures |r.0.slots| == |e.slots|
  {
    if rest == [] then (e, acc)
    else
      var (e1, acc1) := OrAll(e, q, acc, rest[..|rest| - 1]);
      EmitOr(e1, q, acc1, Val(rest[|rest| - 1]))
  }

  /** ORs each local shadow right after its definition. */
  function Chain(b: Block, e: Emitted, acc: Src, locals: seq<nat>): (r: (Emitted, Src))
    requires forall i :: 0 <= i < |locals| ==> InsertPointAfter(b, locals[i]) < |e.slots|
    ensures |r.0.slots| == |e.slots|
  {
    if locals == [] then (e, acc)
    else
      var (e1, acc1) := Chain(b, e, acc, locals[..|locals| - 1]);
      EmitOr(e1, InsertPointAfter(b, locals[|locals| - 1]), acc1, Val(Local(locals[|locals| - 1])))
  }

  lemma {:induction false} OrAllEffect(v: Vals, e: Emitted, q: nat, acc: Src, x: bool, rest: seq<Shadow>)
    requires Sound(v, e) && q < |e.slots| && Holds(v, e, q, acc, x)
    requires forall i :: 0 <= i < |rest| && rest[i].Local? ==> rest[i].pos < q
    ensures var (e1, acc1) := OrAll(e, q, acc, rest);
      Sound(v, e1) && Holds(v, e1, q, acc1, x || AnyPoisoned(v, rest)) && Log(v, e1) == Log(v, e)
  {
    if rest != [] {
      var front, s := rest[..|rest| - 1], rest[|rest| - 1];
      OrAllEffect(v, e, q, acc, x, front);
      var (e1, acc1) := OrAll(e, q, acc, front);
      ShadowHolds(v, e1, q, s);
      OrEffect(v, e1, q, acc1, x || AnyPoisoned(v, front), Val(s), Poisoned(v, s));
      AnyPoisonedLast(v, rest);
    }
  }

  lemma AnyPoisonedLast(v: Vals, s: seq<Shadow>)
    requires s != []
    ensures AnyPoisoned(v, s) <==> AnyPoisoned(v, s[..|s| - 1]) || Poisoned(v, s[|s| - 1])
  {
  }

  ghost predicate AnyLocal(v: Vals, locals: seq<nat>) {
    exists i :: 0 <= i < |locals| && v.local(locals[i])
  }

  ghost predicate Increasing(s: seq<nat>) {
    forall i, j :: 0 <= i < j < |s| ==> s[i] < s[j]
  }

  lemma LaterHolds(v: Vals, e: Emitted, q: nat, q1: nat, a: Src, x: bool)
    requires Holds(v, e, q, a, x) && q <= q1
    ensures Holds(v, e, q1, a, x)
  {
  }

  /** The incremental chain: each OR sits after the shadow it reads and after the previous OR. */
  lemma {:induction false} ChainEffect(v: Vals, b: Block, e: Emitted, acc: Src, x: bool, locals: seq<nat>, q0: nat)
    requires Sound(v, e) && Holds(v, e, q0, acc, x) && Increasing(locals)
    requires forall i :: 0 <= i < |locals| ==> q0 <= InsertPointAfter(b, locals[i]) < |e.slots|
    ensures var (e1, acc1) := Chain(b, e, acc, locals);
      && Sound(v, e1) && Log(v, e1) == Log(v, e)
      && Holds(v, e1, if locals == [] then q0 else InsertPointAfter(b, locals[|locals| - 1]),
               acc1, x || AnyLocal(v, locals))
  {
    if locals != [] {
      var front, p := locals[..|locals| - 1], locals[|locals| - 1];
      ChainEffect(v, b, e, acc, x, front, q0);
      var (e1, acc1) := Chain(b, e, acc, front);
      var q, y := InsertPointAfter(b, p), x || AnyLocal(v, front);
      LaterHolds(v, e1, if front == [] then q0 else InsertPointAfter(b, front[|front| - 1]), q, acc1, y);
      ShadowHolds(v, e1, q, Local(p));
      OrEffect(v, e1, q, acc1, y, Val(Local(p)), v.local(p));
      AnyLocalLast(v, locals);
    }
  }

  lemma AnyLocalLast(v: Vals, s: seq<nat>)
    requires s != []
    ensures AnyLocal(v, s) <==> AnyLocal(v, s[..|s| - 1]) || v.local(s[|s| - 1])
  {
  }

  // Which shadows chain early: those defined in the anchor's part of the block, strictly
  // before it, once each and in order.

  predicate ChainsEarly(s: Shadow, start: nat, at: nat) {
    s.Local? && start <= s.pos < at
  }

  function InsertSorted(s: seq<nat>, p: nat): seq<nat> {
    if s == [] then [p]
    else if s[|s| - 1] < p then s + [p]
    else if s[|s| - 1] == p then s
    else InsertSorted(s[..|s| - 1], p) + [s[|s| - 1]]
  }

  function EarlyLocals(shadows: seq<Shadow>, start: nat, at: nat): seq<nat> {
    if shadows == [] then []
    else
      var front, s := EarlyLocals(shadows[..|shadows| - 1], start, at), shadows[|shadows| - 1];
      if ChainsEarly(s, start, at) then InsertSorted(front, s.pos) else front
  }

  function LateShadows(shadows: seq<Shadow>, start: nat, at: nat): seq<Shadow> {
    if shadows == [] then []
    else
      var front, s := LateShadows(shadows[..|shadows| - 1], start, at), shadows[|shadows| - 1];
      if ChainsEarly(s, start, at) then front else front + [s]
  }

  lemma {:induction false} InsertSortedProps(s: seq<nat>, p: nat)
    requires Increasing(s)
    ensures Increasing(InsertSorted(s, p))
    ensures forall x: nat :: x in InsertSorted(s, p) <==> x in s || x == p
  {
    if s != [] && s[|s| - 1] > p {
      var front := s[..|s| - 1];
      InsertSortedProps(front, p);
      var t := InsertSorted(front, p);
      forall i | 0 <= i < |t| ensures t[i] < s[|s| - 1] { assert t[i] in t; }
      assert s == front + [s[|s| - 1]];
    }
  }

  lemma {:induction false} EarlyLocalsProps(shadows: seq<Shadow>, start: nat, at: nat)
    ensures var e := EarlyLocals(shadows, start, at);
      Increasing(e) && forall x: nat :: x in e <==> Local(x) in shadows && start <= x < at
  {
    if shadows != [] {
      var front, s := shadows[..|shadows| - 1], shadows[|shadows| - 1];
      EarlyLocalsProps(front, start, at);
      assert shadows == front + [s];
      if ChainsEarly(s, start, at) { InsertSortedProps(EarlyLocals(front, start, at), s.pos); }
    }
  }

  lemma {:induction false} LateShadowsProps(shadows: seq<Shadow>, start: nat, at: nat)
    ensures forall s :: s in LateShadows(shadows, start, at) <==> s in shadows && !ChainsEarly(s, start, at)
  {
    if shadows != [] {
      LateShadowsProps(shadows[..|shadows| - 1], start, at);
      assert shadows == shadows[..|shadows| - 1] + [shadows[|shadows| - 1]];
    }
  }

  /** Early and late shadows together are the group. */
  lemma SplitKeepsPoison(v: Vals, shadows: seq<Shadow>, start: nat, at: nat)
    ensures AnyPoisoned(v, shadows)
      <==> AnyLocal(v, EarlyLocals(shadows, start, at)) || AnyPoisoned(v, LateShadows(shadows, start, at))
  {
    var early, late := EarlyLocals(shadows, start, at), LateShadows(shadows, start, at);
    EarlyLocalsProps(shadows, start, at);
    LateShadowsProps(shadows, start, at);
    if AnyPoisoned(v, shadows) {
      var i :| 0 <= i < |shadows| && Poisoned(v, shadows[i]);
      assert shadows[i] in shadows;
      if ChainsEarly(shadows[i], start, at) {
        assert shadows[i].pos in early;
        var j :| 0 <= j < |early| && early[j] == shadows[i].pos;
        assert v.local(early[j]);
      } else {
        assert shadows[i] in late;
      }
    }
    if AnyLocal(v, early) {
      var j :| 0 <= j < |early| && v.local(early[j]);
      assert early[j] in early && Local(early[j]) in shadows;
    }
    if AnyPoisoned(v, late) {
      var j :| 0 <= j < |late| && Poisoned(v, late[j]);
      assert late[j] in late && late[j] in shadows;
    }
  }

  /** A group can be emitted at `at`: its local shadows come first. */
  ghost predicate Ready(b: Block, shadows: seq<Shadow>, at: nat) {
    b.phis <= at && forall i :: 0 <= i < |shadows| && shadows[i].Local? ==> shadows[i].pos < at
  }

  lemma EarlyInsertPoints(b: Block, shadows: seq<Shadow>, start: nat, at: nat)
    requires Ready(b, shadows, at)
    ensures var early := EarlyLocals(shadows, start, at);
      && (forall i :: 0 <= i < |early| ==> early[i] < InsertPointAfter(b, early[i]) <= at)
      && (early != [] ==> forall i :: 0 <= i < |early[1..]| ==> InsertPointAfter(b, early[1..][i]) <= at)
  {
    EarlyLocalsProps(shadows, start, at);
    var early := EarlyLocals(shadows, start, at);
    forall i | 0 <= i < |early| ensures early[i] < at { assert early[i] in early; }
  }

  /** emitCoalescedCheck: one test at the anchor for the whole group. `start` is where the
      anchor's block begins after earlier checks have split it. */
  function EmitCoalesced(b: Block, e: Emitted, shadows: seq<Shadow>, at: nat, start: nat): (r: Emitted)
    requires at < |e.slots| && Ready(b, shadows, at)
    ensures |r.slots| == |e.slots|
  {
    if shadows == [] then e
    else
      var early := EarlyLocals(shadows, start, at);
      EarlyInsertPoints(b, shadows, start, at);
      if |shadows| > 1 && |early| > 1 then
        var (e1, acc) := Chain(b, e, Val(Local(early[0])), early[1..]);
        var (e2, acc2) := OrAll(e1, at, acc, LateShadows(shadows, start, at));
        Put(e2, at, Test(acc2))
      else
        var (e1, acc) := OrAll(e, at, Val(shadows[0]), shadows[1..]);
        Put(e1, at, Test(acc))
  }

  lemma AnyLocalFirst(v: Vals, s: seq<nat>)
    requires s != []
    ensures AnyLocal(v, s) <==> v.local(s[0]) || AnyLocal(v, s[1..])
  {
  }

  lemma AnyPoisonedFirst(v: Vals, s: seq<Shadow>)
    requires s != []
    ensures AnyPoisoned(v, s) <==> Poisoned(v, s[0]) || AnyPoisoned(v, s[1..])
  {
  }

  /** The chain of the early shadows, as it stands at the anchor. */
  lemma EarlyEffect(v: Vals, b: Block, e: Emitted, early: seq<nat>, at: nat)
    requires Sound(v, e) && at < |e.slots| && early != [] && Increasing(early)
    requires forall i :: 0 <= i < |early| ==> InsertPointAfter(b, early[i]) <= at
    ensures forall i :: 0 <= i < |early[1..]| ==> InsertPointAfter(b, early[1..][i]) < |e.slots|
    ensures var (e1, acc) := Chain(b, e, Val(Local(early[0])), early[1..]);
      Sound(v, e1) && Holds(v, e1, at, acc, AnyLocal(v, early)) && Log(v, e1) == Log(v, e)
  {
    var first, rest := early[0], early[1..];
    var q0 := InsertPointAfter(b, first);
    forall i | 0 <= i < |rest| ensures q0 <= InsertPointAfter(b, rest[i]) <= at { assert rest[i] == early[i + 1]; }
    ShadowHolds(v, e, q0, Local(first));
    ChainEffect(v, b, e, Val(Local(first)), v.local(first), rest, q0);
    AnyLocalFirst(v, early);
    var (e1, acc) := Chain(b, e, Val(Local(first)), rest);
    LaterHolds(v, e1, if rest == [] then q0 else InsertPointAfter(b, rest[|rest| - 1]), at, acc, AnyLocal(v, early));
  }

  lemma IncrementalEffect(v: Vals, b: Block, e: Emitted, shadows: seq<Shadow>, at: nat, start: nat)
    requires Sound(v, e) && at < |e.slots| && Ready(b, shadows, at)
    requires |shadows| > 1 && |EarlyLocals(shadows, start, at)| > 1
    ensures var e1 := EmitCoalesced(b, e, shadows, at, start);
      Sound(v, e1) && Log(v, e1) == Log(v, e) + (if AnyPoisoned(v, shadows) then {at} else {})
  {
    var early, late := EarlyLocals(shadows, start, at), LateShadows(shadows, start, at);
    EarlyInsertPoints(b, shadows, start, at);
    EarlyLocalsProps(shadows, start, at);
    EarlyEffect(v, b, e, early, at);
    LateShadowsProps(shadows, start, at);
    forall i | 0 <= i < |late| && late[i].Local? ensures late[i].pos < at { assert late[i] in late; }
    var (e1, acc) := Chain(b, e, Val(Local(early[0])), early[1..]);
    OrAllEffect(v, e1, at, acc, AnyLocal(v, early), late);
    var (e2, acc2) := OrAll(e1, at, acc, late);
    SplitKeepsPoison(v, shadows, start, at);
    TestEffect(v, e2, at, acc2, AnyPoisoned(v, shadows));
  }

  /** Either form of the group's check fires exactly when some shadow of the group is poisoned,
      and every OR and the test read only what is defined before them. */
  lemma CoalescedEffect(v: Vals, b: Block, e: Emitted, shadows: seq<Shadow>, at: nat, start: nat)
    requires Sound(v, e) && at < |e.slots| && Ready(b, shadows, at)
    ensures var e1 := EmitCoalesced(b, e, shadows, at, start);
      Sound(v, e1) && Log(v, e1) == Log(v, e) + (if AnyPoisoned(v, shadows) then {at} else {})
  {
    if shadows != [] {
      if |shadows| > 1 && |EarlyLocals(shadows, start, at)| > 1 {
        IncrementalEffect(v, b, e, shadows, at, start);
      } else {
        ShadowHolds(v, e, at, shadows[0]);
        OrAllEffect(v, e, at, Val(shadows[0]), Poisoned(v, shadows[0]), shadows[1..]);
        AnyPoisonedFirst(v, shadows);
        var (e1, acc) := OrAll(e, at, Val(shadows[0]), shadows[1..]);
        TestEffect(v, e1, at, acc, AnyPoisoned(v, shadows));
      }
    }
  }

  // Essential checks: at their site, or right after the last shadow they need.

  lemma TestKeepsHolds(v: Vals, e: Emitted, q: nat, a: Src, x: bool, c: Src, y: bool)
    requires Sound(v, e) && q < |e.slots| && Holds(v, e, q, a, x) && Holds(v, e, q, c, y)
    ensures Holds(v, Put(e, q, Test(a)), q, c, y)
  {
    var log, e1 := if x then {q} else {}, Put(e, q, Test(a));
    assert ExecCode(v, q, After(v, e, q), Test(a)) == Plus(After(v, e, q), e.next, None, log);
    forall k | q <= k < |e.slots| ensures After(v, e1, k).Going? && Read(v, k, After(v, e1, k).env, c) == Some(y) {
      PutEffect(v, e, q, Test(a), None, log, k + 1);
      assert After(v, e1, k) == Plus(After(v, e, k), e.next, None, log);
      assert After(v, e, k).Going?;
    }
  }

  /** `checkInsertPoint`: behind the last local shadow defined at or after the site. */
  function CheckInsertPoint(b: Block, orig: nat, shadows: seq<Shadow>): (q: nat)
    ensures q >= orig
  {
    if shadows == [] then orig
    else
      var q, s := CheckInsertPoint(b, orig, shadows[..|shadows| - 1]), shadows[|shadows| - 1];
      if s.Local? && s.pos >= orig && InsertPointAfter(b, s.pos) > q then InsertPointAfter(b, s.pos) else q
  }

  /** One shadow of an essential group: clean constants vanish, poisoned constants warn at
      once, the rest join the accumulator. */
  function EssentialStep(e: Emitted, q: nat, acc: Option<Src>, s: Shadow): (r: (Emitted, Option<Src>))
    requires q < |e.slots|
    ensures |r.0.slots| == |e.slots|
  {
    if s.Const? then (if s.poisoned then Put(e, q, Test(Val(s))) else e, acc)
    else if acc.None? then (e, Some(Val(s)))
    else var (e1, t) := EmitOr(e, q, acc.value, Val(s)); (e1, Some(t))
  }

  function EssentialFold(e: Emitted, q: nat, shadows: seq<Shadow>): (r: (Emitted, Option<Src>))
    requires q < |e.slots|
    ensures |r.0.slots| == |e.slots|
  {
    if shadows == [] then (e, None)
    else
      var (e1, acc) := EssentialFold(e, q, shadows[..|shadows| - 1]);
      EssentialStep(e1, q, acc, shadows[|shadows| - 1])
  }

  /** `materializeInstructionChecks` for one site. */
  function EmitEssential(e: Emitted, q: nat, shadows: seq<Shadow>): (r: Emitted)
    requires q < |e.slots|
    ensures |r.slots| == |e.slots|
  {
    var (e1, acc) := EssentialFold(e, q, shadows);
    if acc.Some? then Put(e1, q, Test(acc.value)) else e1
  }

  /** Where the fold stands: the warning of the constants is out, the accumulator holds the rest. */
  ghost predicate Folded(v: Vals, e0: Emitted, e: Emitted, q: nat, acc: Option<Src>, consts: bool, rest: bool) {
    && Sound(v, e0) && Sound(v, e) && |e.slots| == |e0.slots|
    && Log(v, e) == Log(v, e0) + (if consts then {q} else {})
    && (if acc.Some? then Holds(v, e, q, acc.value, rest) else !rest)
  }

  lemma StepFolds(v: Vals, e0: Emitted, e: Emitted, q: nat, acc: Option<Src>, consts: bool, rest: bool, s: Shadow)
    returns (consts1: bool, rest1: bool)
    requires q < |e.slots| && Folded(v, e0, e, q, acc, consts, rest) && (s.Local? ==> s.pos < q)
    ensures var (e1, acc1) := EssentialStep(e, q, acc, s); Folded(v, e0, e1, q, acc1, consts1, rest1)
    ensures consts1 || rest1 <==> consts || rest || Poisoned(v, s)
  {
    ShadowHolds(v, e, q, s);
    consts1, rest1 := consts || (s.Const? && s.poisoned), rest || (!s.Const? && Poisoned(v, s));
    if s.Const? {
      if s.poisoned {
        TestEffect(v, e, q, Val(s), true);
        if acc.Some? { TestKeepsHolds(v, e, q, Val(s), true, acc.value, rest); }
      }
    } else if acc.Some? {
      OrEffect(v, e, q, acc.value, rest, Val(s), Poisoned(v, s));
    }
  }

  lemma {:induction false} FoldFolds(v: Vals, e: Emitted, q: nat, shadows: seq<Shadow>) returns (consts: bool, rest: bool)
    requires Sound(v, e) && q < |e.slots|
    requires forall i :: 0 <= i < |shadows| && shadows[i].Local? ==> shadows[i].pos < q
    ensures var (e1, acc) := EssentialFold(e, q, shadows); Folded(v, e, e1, q, acc, consts, rest)
    ensures consts || rest <==> AnyPoisoned(v, shadows)
  {
    if shadows == [] {
      consts, rest := false, false;
    } else {
      var front, s := shadows[..|shadows| - 1], shadows[|shadows| - 1];
      consts, rest := FoldFolds(v, e, q, front);
      var (e1, acc) := EssentialFold(e, q, front);
      AnyPoisonedLast(v, shadows);
      consts, rest := StepFolds(v, e, e1, q, acc, consts, rest, s);
    }
  }

  lemma EssentialEffect(v: Vals, e: Emitted, q: nat, shadows: seq<Shadow>)
    requires Sound(v, e) && q < |e.slots|
    requires forall i :: 0 <= i < |shadows| && shadows[i].Local? ==> shadows[i].pos < q
    ensures var e1 := EmitEssential(e, q, shadows);
      Sound(v, e1) && Log(v, e1) == Log(v, e) + (if AnyPoisoned(v, shadows) then {q} else {})
  {
    var consts, rest := FoldFolds(v, e, q, shadows);
    var (e1, acc) := EssentialFold(e, q, shadows);
    if acc.Some? { TestEffect(v, e1, q, acc.value, rest); }
  }

  // Anchors.

  /** The first barrier at or after i, or the terminator. */
  function FirstBarrier(b: Block, i: nat): (j: nat)
    requires i < |b.barrier|
    ensures i <= j < |b.barrier| && (b.barrier[j] || j == b.Last())
    ensures forall k :: i <= k < j ==> !b.barrier[k]
    decreases |b.barrier| - i
  {
    if b.barrier[i] || i == b.Last() then i else FirstBarrier(b, i + 1)
  }

  /** `anchorFor`: none when only an unsplittable terminator is left. */
  function AnchorFor(b: Block, orig: nat): Option<nat>
    requires orig < |b.barrier|
  {
    var j := FirstBarrier(b, orig);
    if j == b.Last() && b.unsplittable then None else Some(j)
  }

  /** The scan of the source. */
  method FindAnchor(b: Block, orig: nat) returns (a: Option<nat>)
    requires orig < |b.barrier|
    ensures a == AnchorFor(b, orig)
  {
    var term := |b.barrier| - 1;
    if b.barrier[orig] && orig != term { return Some(orig); }
    var i := orig + 1;
    while i < term
      invariant orig + 1 <= i && (orig < term ==> i <= term)
      invariant orig < term ==> FirstBarrier(b, orig) == FirstBarrier(b, i)
    {
      if b.barrier[i] { return Some(i); }
      i := i + 1;
    }
    return if b.unsplittable then None else Some(term);
  }

  /** A check's own shadow is ready where the check is pushed: it is defined before the site, or
      after it with nothing in between that might not return. */
  ghost predicate CheckOk(b: Block, c: Check) {
    && c.orig < |b.barrier| && b.phis <= c.orig
    && (c.shadow.Local? ==>
          && c.shadow.pos < b.Last()
          && (c.shadow.pos < c.orig || forall k :: c.orig <= k <= c.shadow.pos ==> !b.barrier[k]))
  }

  lemma ReadyBeforeBarrier(b: Block, c: Check)
    requires b.WellFormed() && CheckOk(b, c)
    ensures c.shadow.Local? ==> c.shadow.pos < FirstBarrier(b, c.orig)
    ensures c.shadow.Local? && c.shadow.pos >= c.orig ==> InsertPointAfter(b, c.shadow.pos) <= FirstBarrier(b, c.orig)
  {
  }

  // Grouping, in order of first insertion.

  type Groups = seq<(nat, seq<Shadow>)>

  function AddTo(groups: Groups, key: nat, s: Shadow): Groups {
    if groups == [] then [(key, [s])]
    else if groups[0].0 == key then [(key, groups[0].1 + [s])] + groups[1..]
    else [groups[0]] + AddTo(groups[1..], key, s)
  }

  ghost predicate InGroup(groups: Groups, key: nat, s: Shadow) {
    exists i :: 0 <= i < |groups| && groups[i].0 == key && s in groups[i].1
  }

  lemma {:induction false} AddToMember(groups: Groups, key: nat, s: Shadow, key1: nat, s1: Shadow)
    ensures InGroup(AddTo(groups, key, s), key1, s1) <==> InGroup(groups, key1, s1) || (key1 == key && s1 == s)
  {
    if groups == [] {
      assert AddTo(groups, key, s)[0] == (key, [s]);
    } else {
      var rest := groups[1..];
      InGroupSplit(groups, key1, s1);
      if groups[0].0 == key {
        InGroupSplit([(key, groups[0].1 + [s])] + rest, key1, s1);
      } else {
        AddToMember(rest, key, s, key1, s1);
        InGroupSplit([groups[0]] + AddTo(rest, key, s), key1, s1);
      }
    }
  }

  lemma InGroupSplit(groups: Groups, key: nat, s: Shadow)
    requires groups != []
    ensures InGroup(groups, key, s) <==> (groups[0].0 == key && s in groups[0].1) || InGroup(groups[1..], key, s)
  {
    if InGroup(groups[1..], key, s) {
      var i :| 0 <= i < |groups| - 1 && groups[1..][i].0 == key && s in groups[1..][i].1;
      assert groups[i + 1] == groups[1..][i];
    }
    if InGroup(groups, key, s) {
      var i :| 0 <= i < |groups| && groups[i].0 == key && s in groups[i].1;
      if i > 0 { assert groups[1..][i - 1] == groups[i]; }
    }
  }

  function GroupAll(pairs: seq<(nat, Shadow)>): Groups {
    if pairs == [] then []
    else AddTo(GroupAll(pairs[..|pairs| - 1]), pairs[|pairs| - 1].0, pairs[|pairs| - 1].1)
  }

  lemma {:induction false} GroupAllMember(pairs: seq<(nat, Shadow)>, key: nat, s: Shadow)
    ensures InGroup(GroupAll(pairs), key, s) <==> (key, s) in pairs
  {
    if pairs != [] {
      var front, last := pairs[..|pairs| - 1], pairs[|pairs| - 1];
      GroupAllMember(front, key, s);
      AddToMember(GroupAll(front), last.0, last.1, key, s);
      assert pairs == front + [last];
    }
  }

  // The whole block.

  predicate Defers(b: Block, c: Check)
    requires c.orig < |b.barrier| == |b.immediate|
  {
    !c.essential && !b.immediate[c.orig]
  }

  predicate Anchored(b: Block, c: Check)
    requires c.orig < |b.barrier| == |b.immediate|
  {
    Defers(b, c) && AnchorFor(b, c.orig).Some?
  }

  ghost predicate ChecksOk(b: Block, checks: seq<Check>) {
    b.WellFormed() && forall i :: 0 <= i < |checks| ==> CheckOk(b, checks[i])
  }

  function AnchorPairs(b: Block, checks: seq<Check>): seq<(nat, Shadow)>
    requires ChecksOk(b, checks)
  {
    if checks == [] then []
    else
      var front, c := AnchorPairs(b, checks[..|checks| - 1]), checks[|checks| - 1];
      assert CheckOk(b, c);
      if Anchored(b, c) then front + [(AnchorFor(b, c.orig).value, c.shadow)] else front
  }

  /** Essential checks in list order, then the deferrable ones that found no anchor. */
  function SitePairs(b: Block, checks: seq<Check>, deferrable: bool): seq<(nat, Shadow)>
    requires ChecksOk(b, checks)
  {
    if checks == [] then []
    else
      var front, c := SitePairs(b, checks[..|checks| - 1], deferrable), checks[|checks| - 1];
      assert CheckOk(b, c);
      if Defers(b, c) == deferrable && !Anchored(b, c) then front + [(c.orig, c.shadow)] else front
  }

  function EssentialPairs(b: Block, checks: seq<Check>): seq<(nat, Shadow)>
    requires ChecksOk(b, checks)
  {
    SitePairs(b, checks, false) + SitePairs(b, checks, true)
  }

  lemma {:induction false} AnchorPairsMember(b: Block, checks: seq<Check>, key: nat, s: Shadow)
    requires ChecksOk(b, checks)
    ensures (key, s) in AnchorPairs(b, checks) <==>
      exists i :: 0 <= i < |checks| && Anchored(b, checks[i])
               && key == AnchorFor(b, checks[i].orig).value && s == checks[i].shadow
  {
    if checks != [] {
      AnchorPairsMember(b, checks[..|checks| - 1], key, s);
      assert CheckOk(b, checks[|checks| - 1]);
    }
  }

  lemma {:induction false} SitePairsMember(b: Block, checks: seq<Check>, deferrable: bool, key: nat, s: Shadow)
    requires ChecksOk(b, checks)
    ensures (key, s) in SitePairs(b, checks, deferrable) <==>
      exists i :: 0 <= i < |checks| && Defers(b, checks[i]) == deferrable && !Anchored(b, checks[i])
               && key == checks[i].orig && s == checks[i].shadow
  {
    if checks != [] {
      SitePairsMember(b, checks[..|checks| - 1], deferrable, key, s);
      assert CheckOk(b, checks[|checks| - 1]);
    }
  }

  lemma PairsMember(b: Block, checks: seq<Check>, key: nat, s: Shadow)
    requires ChecksOk(b, checks)
    ensures (key, s) in AnchorPairs(b, checks) <==>
      exists i :: 0 <= i < |checks| && Anchored(b, checks[i])
               && key == AnchorFor(b, checks[i].orig).value && s == checks[i].shadow
    ensures (key, s) in EssentialPairs(b, checks) <==>
      exists i :: 0 <= i < |checks| && !Anchored(b, checks[i]) && key == checks[i].orig && s == checks[i].shadow
  {
    AnchorPairsMember(b, checks, key, s);
    SitePairsMember(b, checks, false, key, s);
    SitePairsMember(b, checks, true, key, s);
  }

  /** The groups of essential checks, by site, and of deferred ones, by anchor. */
  function Sites(b: Block, checks: seq<Check>): Groups
    requires ChecksOk(b, checks)
  {
    GroupAll(EssentialPairs(b, checks))
  }

  function Anchors(b: Block, checks: seq<Check>): Groups
    requires ChecksOk(b, checks)
  {
    GroupAll(AnchorPairs(b, checks))
  }

  function SitePoint(b: Block, g: (nat, seq<Shadow>)): nat { CheckInsertPoint(b, g.0, g.1) }

  /** A site group can be emitted at its insertion point, an anchored one at its key. */
  ghost predicate SiteGroupOk(b: Block, g: (nat, seq<Shadow>)) {
    && g.0 < |b.barrier| && SitePoint(b, g) <= FirstBarrier(b, g.0)
    && forall i :: 0 <= i < |g.1| && g.1[i].Local? ==> g.1[i].pos < SitePoint(b, g)
  }

  ghost predicate AnchorGroupOk(b: Block, g: (nat, seq<Shadow>)) {
    g.0 < |b.barrier| && Ready(b, g.1, g.0)
  }

  ghost predicate AllSitesOk(b: Block, groups: Groups) {
    forall i :: 0 <= i < |groups| ==> SiteGroupOk(b, groups[i])
  }

  ghost predicate AllAnchorsOk(b: Block, groups: Groups) {
    forall i :: 0 <= i < |groups| ==> AnchorGroupOk(b, groups[i])
  }

  lemma {:induction false} InsertPointBounds(b: Block, orig: nat, shadows: seq<Shadow>)
    requires b.WellFormed() && orig < |b.barrier|
    requires forall i :: 0 <= i < |shadows| ==> CheckOk(b, Check(shadows[i], orig, true))
    ensures SiteGroupOk(b, (orig, shadows))
  {
    if shadows != [] {
      var front, s := shadows[..|shadows| - 1], shadows[|shadows| - 1];
      InsertPointBounds(b, orig, front);
      ReadyBeforeBarrier(b, Check(s, orig, true));
      var p, q := SitePoint(b, (orig, front)), SitePoint(b, (orig, shadows));
      assert p <= q <= FirstBarrier(b, orig);
      forall i | 0 <= i < |shadows| && shadows[i].Local? ensures shadows[i].pos < q {
        if i < |shadows| - 1 { assert front[i] == shadows[i]; }
      }
    }
  }

  /** Every member of a group comes from a check. */
  lemma SiteGroupSource(b: Block, checks: seq<Check>, k: nat, j: nat) returns (i: nat)
    requires ChecksOk(b, checks) && k < |Sites(b, checks)| && j < |Sites(b, checks)[k].1|
    ensures i < |checks| && CheckOk(b, checks[i]) && !Anchored(b, checks[i])
    ensures checks[i].orig == Sites(b, checks)[k].0 && checks[i].shadow == Sites(b, checks)[k].1[j]
  {
    var pairs, g := EssentialPairs(b, checks), Sites(b, checks)[k];
    GroupAllMember(pairs, g.0, g.1[j]);
    PairsMember(b, checks, g.0, g.1[j]);
    i :| 0 <= i < |checks| && !Anchored(b, checks[i]) && g.0 == checks[i].orig && g.1[j] == checks[i].shadow;
  }

  lemma AnchorGroupSource(b: Block, checks: seq<Check>, k: nat, j: nat) returns (i: nat)
    requires ChecksOk(b, checks) && k < |Anchors(b, checks)| && j < |Anchors(b, checks)[k].1|
    ensures i < |checks| && CheckOk(b, checks[i]) && Anchored(b, checks[i])
    ensures AnchorFor(b, checks[i].orig).value == Anchors(b, checks)[k].0
    ensures checks[i].shadow == Anchors(b, checks)[k].1[j]
  {
    var pairs, g := AnchorPairs(b, checks), Anchors(b, checks)[k];
    GroupAllMember(pairs, g.0, g.1[j]);
    PairsMember(b, checks, g.0, g.1[j]);
    i :| 0 <= i < |checks| && Anchored(b, checks[i])
      && g.0 == AnchorFor(b, checks[i].orig).value && g.1[j] == checks[i].shadow;
  }

  lemma {:induction false} GroupsNotEmpty(pairs: seq<(nat, Shadow)>)
    ensures forall i :: 0 <= i < |GroupAll(pairs)| ==> GroupAll(pairs)[i].1 != []
  {
    if pairs != [] {
      GroupsNotEmpty(pairs[..|pairs| - 1]);
      AddToNotEmpty(GroupAll(pairs[..|pairs| - 1]), pairs[|pairs| - 1].0, pairs[|pairs| - 1].1);
    }
  }

  lemma {:induction false} AddToNotEmpty(groups: Groups, key: nat, s: Shadow)
    requires forall i :: 0 <= i < |groups| ==> groups[i].1 != []
    ensures forall i :: 0 <= i < |AddTo(groups, key, s)| ==> AddTo(groups, key, s)[i].1 != []
  {
    if groups != [] && groups[0].0 != key { AddToNotEmpty(groups[1..], key, s); }
  }

  lemma SitesOk(b: Block, checks: seq<Check>)
    requires ChecksOk(b, checks)
    ensures AllSitesOk(b, Sites(b, checks))
  {
    var groups := Sites(b, checks);
    GroupsNotEmpty(EssentialPairs(b, checks));
    forall k | 0 <= k < |groups| ensures SiteGroupOk(b, groups[k]) {
      var g := groups[k];
      forall j | 0 <= j < |g.1| ensures g.0 < |b.barrier| && CheckOk(b, Check(g.1[j], g.0, true)) {
        var i := SiteGroupSource(b, checks, k, j);
      }
      assert CheckOk(b, Check(g.1[0], g.0, true));
      InsertPointBounds(b, g.0, g.1);
    }
  }

  lemma AnchorsOk(b: Block, checks: seq<Check>)
    requires ChecksOk(b, checks)
    ensures AllAnchorsOk(b, Anchors(b, checks))
  {
    var groups := Anchors(b, checks);
    GroupsNotEmpty(AnchorPairs(b, checks));
    forall k | 0 <= k < |groups| ensures AnchorGroupOk(b, groups[k]) {
      var g := groups[k];
      forall j | 0 <= j < |g.1| ensures b.phis <= g.0 < |b.barrier| && (g.1[j].Local? ==> g.1[j].pos < g.0) {
        var i := AnchorGroupSource(b, checks, k, j);
        ReadyBeforeBarrier(b, checks[i]);
      }
      assert GroupAll(AnchorPairs(b, checks))[k].1 != [];
      assert g.1[0].Local? ==> g.1[0].pos < g.0;
    }
  }

  function EmitSites(b: Block, e: Emitted, groups: Groups): (r: Emitted)
    requires |e.slots| == |b.barrier| && AllSitesOk(b, groups)
    ensures |r.slots| == |e.slots|
  {
    if groups == [] then e
    else
      var g := groups[|groups| - 1];
      assert SiteGroupOk(b, g);
      EmitEssential(EmitSites(b, e, groups[..|groups| - 1]), SitePoint(b, g), g.1)
  }

  function EmitAnchors(b: Block, e: Emitted, groups: Groups, starts: nat -> nat): (r: Emitted)
    requires |e.slots| == |b.barrier| && AllAnchorsOk(b, groups)
    ensures |r.slots| == |e.slots|
  {
    if groups == [] then e
    else
      var g := groups[|groups| - 1];
      assert AnchorGroupOk(b, g);
      EmitCoalesced(b, EmitAnchors(b, e, groups[..|groups| - 1], starts), g.1, g.0, starts(g.0))
  }

  function Empty(b: Block): Emitted {
    Emitted(seq(|b.barrier|, i => []), 0)
  }

  /** `materializeCoalescedChecks`: essentials first, then one check per anchor. */
  function Materialize(b: Block, checks: seq<Check>, starts: nat -> nat): (r: Emitted)
    requires ChecksOk(b, checks)
    ensures |r.slots| == |b.barrier|
  {
    SitesOk(b, checks);
    AnchorsOk(b, checks);
    EmitAnchors(b, EmitSites(b, Empty(b), Sites(b, checks)), Anchors(b, checks), starts)
  }

  ghost predicate GroupWarns(v: Vals, groups: Groups, i: nat) {
    i < |groups| && AnyPoisoned(v, groups[i].1)
  }

  ghost predicate SiteWarns(v: Vals, b: Block, groups: Groups, q: nat) {
    exists i: nat :: GroupWarns(v, groups, i) && q == SitePoint(b, groups[i])
  }

  ghost predicate AnchorWarns(v: Vals, groups: Groups, q: nat) {
    exists i: nat :: GroupWarns(v, groups, i) && q == groups[i].0
  }

  lemma WarnsLast(v: Vals, b: Block, groups: Groups, q: nat)
    requires groups != []
    ensures var front, g := groups[..|groups| - 1], groups[|groups| - 1];
      && (SiteWarns(v, b, groups, q) <==> SiteWarns(v, b, front, q) || (AnyPoisoned(v, g.1) && q == SitePoint(b, g)))
      && (AnchorWarns(v, groups, q) <==> AnchorWarns(v, front, q) || (AnyPoisoned(v, g.1) && q == g.0))
  {
    var n := |groups| - 1;
    var front := groups[..n];
    assert forall i: nat :: i < n ==> (GroupWarns(v, groups, i) <==> GroupWarns(v, front, i)) && groups[i] == front[i];
    assert GroupWarns(v, groups, n) <==> AnyPoisoned(v, groups[n].1);
  }

  lemma {:induction false} SitesEffect(v: Vals, b: Block, e: Emitted, groups: Groups)
    requires Sound(v, e) && |e.slots| == |b.barrier| && AllSitesOk(b, groups)
    ensures Sound(v, EmitSites(b, e, groups))
    ensures forall q: nat :: q in Log(v, EmitSites(b, e, groups)) <==> (q in Log(v, e) || SiteWarns(v, b, groups, q))
  {
    if groups != [] {
      var front, g := groups[..|groups| - 1], groups[|groups| - 1];
      SitesEffect(v, b, e, front);
      assert SiteGroupOk(b, g);
      EssentialEffect(v, EmitSites(b, e, front), SitePoint(b, g), g.1);
      forall q: nat { WarnsLast(v, b, groups, q); }
    }
  }

  lemma {:induction false} AnchorsEffect(v: Vals, b: Block, e: Emitted, groups: Groups, starts: nat -> nat)
    requires Sound(v, e) && |e.slots| == |b.barrier| && AllAnchorsOk(b, groups)
    ensures Sound(v, EmitAnchors(b, e, groups, starts))
    ensures forall q: nat :: q in Log(v, EmitAnchors(b, e, groups, starts)) <==> (q in Log(v, e) || AnchorWarns(v, groups, q))
  {
    if groups != [] {
      var front, g := groups[..|groups| - 1], groups[|groups| - 1];
      AnchorsEffect(v, b, e, front, starts);
      assert AnchorGroupOk(b, g);
      CoalescedEffect(v, b, EmitAnchors(b, e, front, starts), g.1, g.0, starts(g.0));
      forall q: nat { WarnsLast(v, b, groups, q); }
    }
  }

  lemma {:induction false} EmptySound(v: Vals, b: Block, k: nat)
    requires k <= |b.barrier|
    ensures ExecTo(v, Empty(b).slots, k) == Going(map[], {})
  {
    if k > 0 { EmptySound(v, b, k - 1); }
  }

  lemma MaterializeEffect(v: Vals, b: Block, checks: seq<Check>, starts: nat -> nat)
    requires ChecksOk(b, checks)
    ensures Sound(v, Materialize(b, checks, starts))
    ensures var log := Log(v, Materialize(b, checks, starts));
      forall q: nat :: q in log <==> (SiteWarns(v, b, Sites(b, checks), q) || AnchorWarns(v, Anchors(b, checks), q))
  {
    SitesOk(b, checks);
    AnchorsOk(b, checks);
    EmptySound(v, b, |b.barrier|);
    SitesEffect(v, b, Empty(b), Sites(b, checks));
    AnchorsEffect(v, b, EmitSites(b, Empty(b), Sites(b, checks)), Anchors(b, checks), starts);
  }

  /** q is between the check's site and the first barrier or terminator at or after it. */
  ghost predicate InTime(b: Block, c: Check, q: nat)
    requires c.orig < |b.barrier|
  {
    c.orig <= q <= FirstBarrier(b, c.orig)
  }

  /** q is in time for a check with a poisoned shadow. */
  ghost predicate Deserved(v: Vals, b: Block, checks: seq<Check>, q: nat, i: nat)
    requires ChecksOk(b, checks)
  {
    i < |checks| && CheckOk(b, checks[i]) && Poisoned(v, checks[i].shadow) && InTime(b, checks[i], q)
  }

  lemma CheckIsTested(v: Vals, b: Block, checks: seq<Check>, i: nat) returns (q: nat)
    requires ChecksOk(b, checks) && i < |checks| && Poisoned(v, checks[i].shadow)
    ensures Deserved(v, b, checks, q, i)
    ensures SiteWarns(v, b, Sites(b, checks), q) || AnchorWarns(v, Anchors(b, checks), q)
  {
    var c := checks[i];
    assert CheckOk(b, c);
    if Anchored(b, c) {
      var anchors := Anchors(b, checks);
      q := AnchorFor(b, c.orig).value;
      PairsMember(b, checks, q, c.shadow);
      GroupAllMember(AnchorPairs(b, checks), q, c.shadow);
      var k: nat :| k < |anchors| && anchors[k].0 == q && c.shadow in anchors[k].1;
      assert GroupWarns(v, anchors, k);
    } else {
      var sites := Sites(b, checks);
      SitesOk(b, checks);
      PairsMember(b, checks, c.orig, c.shadow);
      GroupAllMember(EssentialPairs(b, checks), c.orig, c.shadow);
      var k: nat :| k < |sites| && sites[k].0 == c.orig && c.shadow in sites[k].1;
      q := SitePoint(b, sites[k]);
      assert SiteGroupOk(b, sites[k]) && GroupWarns(v, sites, k);
    }
  }

  lemma WarningHasCause(v: Vals, b: Block, checks: seq<Check>, q: nat) returns (i: nat)
    requires ChecksOk(b, checks)
    requires SiteWarns(v, b, Sites(b, checks), q) || AnchorWarns(v, Anchors(b, checks), q)
    ensures Deserved(v, b, checks, q, i)
  {
    var sites, anchors := Sites(b, checks), Anchors(b, checks);
    if SiteWarns(v, b, sites, q) {
      SitesOk(b, checks);
      var k: nat :| GroupWarns(v, sites, k) && q == SitePoint(b, sites[k]);
      var j: nat :| j < |sites[k].1| && Poisoned(v, sites[k].1[j]);
      i := SiteGroupSource(b, checks, k, j);
      assert SiteGroupOk(b, sites[k]);
    } else {
      var k: nat :| GroupWarns(v, anchors, k) && q == anchors[k].0;
      var j: nat :| j < |anchors[k].1| && Poisoned(v, anchors[k].1[j]);
      i := AnchorGroupSource(b, checks, k, j);
    }
  }

  /** No detection is lost and none is invented: whatever the shadows hold, each check with a
      poisoned shadow warns somewhere between its site and the first barrier or terminator at or
      after it, and every warning is such a check's. All code is defined before it is used. */
  lemma WarningsAreExact(v: Vals, b: Block, checks: seq<Check>, starts: nat -> nat)
    requires ChecksOk(b, checks)
    ensures Sound(v, Materialize(b, checks, starts))
    ensures var log := Log(v, Materialize(b, checks, starts));
      forall i: nat :: i < |checks| && Poisoned(v, checks[i].shadow) ==> (exists q :: q in log && Deserved(v, b, checks, q, i))
    ensures forall q: nat :: q in Log(v, Materialize(b, checks, starts)) ==> (exists i :: Deserved(v, b, checks, q, i))
  {
    MaterializeEffect(v, b, checks, starts);
    var log := Log(v, Materialize(b, checks, starts));
    forall i: nat | i < |checks| && Poisoned(v, checks[i].shadow)
      ensures exists q :: q in log && Deserved(v, b, checks, q, i)
    {
      var q := CheckIsTested(v, b, checks, i);
    }
    forall q | q in log ensures exists i :: Deserved(v, b, checks, q, i) {
      var i := WarningHasCause(v, b, checks, q);
    }
  }

  // Where exactly each check warns.

  /** A check that is tested at its own site: an essential one, one at a site that wants its checks
      at once, or one with nothing left of the block but instructions that go on and a terminator
      that cannot be split off. */
  ghost predicate Stays(b: Block, c: Check)
    requires c.orig < |b.barrier| == |b.immediate|
  {
    || c.essential
    || b.immediate[c.orig]
    || (b.unsplittable && forall k :: c.orig <= k < b.Last() ==> !b.barrier[k])
  }

  ghost predicate StaysAt(b: Block, checks: seq<Check>, i: nat, orig: nat)
    requires ChecksOk(b, checks)
  {
    i < |checks| && CheckOk(b, checks[i]) && checks[i].orig == orig && Stays(b, checks[i])
  }

  /** q is the first position at or after the site where all shadows tested there are defined: the
      site itself, or right behind the last of them. */
  ghost predicate SiteEnd(b: Block, checks: seq<Check>, orig: nat, q: nat)
    requires ChecksOk(b, checks)
  {
    && orig <= q
    && (forall i: nat :: StaysAt(b, checks, i, orig) && checks[i].shadow.Local? ==> checks[i].shadow.pos < q)
    && (q == orig || exists i: nat :: StaysAt(b, checks, i, orig) && checks[i].shadow == Local(q - 1))
  }

  /** The position at which check i warns if its shadow is poisoned. */
  ghost predicate WarnsAt(b: Block, checks: seq<Check>, i: nat, q: nat)
    requires ChecksOk(b, checks)
  {
    && i < |checks| && CheckOk(b, checks[i])
    && if Stays(b, checks[i]) then SiteEnd(b, checks, checks[i].orig, q) else q == FirstBarrier(b, checks[i].orig)
  }

  ghost predicate SomeWarnsAt(v: Vals, b: Block, checks: seq<Check>, q: nat)
    requires ChecksOk(b, checks)
  {
    exists i: nat :: WarnsAt(b, checks, i, q) && Poisoned(v, checks[i].shadow)
  }

  lemma StaysIffNotAnchored(b: Block, c: Check)
    requires b.WellFormed() && c.orig < |b.barrier|
    ensures Stays(b, c) <==> !Anchored(b, c)
    ensures !Stays(b, c) ==> AnchorFor(b, c.orig) == Some(FirstBarrier(b, c.orig))
  {
  }

  ghost predicate DistinctKeys(groups: Groups) {
    forall i, j :: 0 <= i < j < |groups| ==> groups[i].0 != groups[j].0
  }

  lemma {:induction false} AddToDistinct(groups: Groups, key: nat, s: Shadow)
    requires DistinctKeys(groups)
    ensures DistinctKeys(AddTo(groups, key, s))
    ensures forall k :: 0 <= k < |AddTo(groups, key, s)| ==>
      AddTo(groups, key, s)[k].0 == key || exists j :: 0 <= j < |groups| && groups[j].0 == AddTo(groups, key, s)[k].0
  {
    if groups != [] && groups[0].0 != key { AddToDistinct(groups[1..], key, s); }
  }

  lemma {:induction false} GroupAllDistinct(pairs: seq<(nat, Shadow)>)
    ensures DistinctKeys(GroupAll(pairs))
  {
    if pairs != [] {
      GroupAllDistinct(pairs[..|pairs| - 1]);
      AddToDistinct(GroupAll(pairs[..|pairs| - 1]), pairs[|pairs| - 1].0, pairs[|pairs| - 1].1);
    }
  }

  /** The insertion point is the place itself or right behind one of the shadows. */
  lemma {:induction false} InsertPointCause(b: Block, orig: nat, shadows: seq<Shadow>)
    requires b.phis <= orig
    ensures var q := CheckInsertPoint(b, orig, shadows); q == orig || Local(q - 1) in shadows
  {
    if shadows != [] {
      InsertPointCause(b, orig, shadows[..|shadows| - 1]);
      assert shadows == shadows[..|shadows| - 1] + [shadows[|shadows| - 1]];
    }
  }

  /** A site's group is every check that stays there. */
  lemma SiteGroupIsAll(b: Block, checks: seq<Check>, k: nat, s: Shadow)
    requires ChecksOk(b, checks) && k < |Sites(b, checks)|
    ensures s in Sites(b, checks)[k].1 <==> exists i: nat :: StaysAt(b, checks, i, Sites(b, checks)[k].0) && checks[i].shadow == s
  {
    var pairs, sites := EssentialPairs(b, checks), Sites(b, checks);
    var key := sites[k].0;
    GroupAllMember(pairs, key, s);
    PairsMember(b, checks, key, s);
    GroupAllDistinct(pairs);
    forall i | 0 <= i < |checks| ensures CheckOk(b, checks[i]) && (Stays(b, checks[i]) <==> !Anchored(b, checks[i])) {
      StaysIffNotAnchored(b, checks[i]);
    }
    if i: nat :| StaysAt(b, checks, i, key) && checks[i].shadow == s {
      assert (key, s) in pairs;
      assert InGroup(sites, key, s);
      var n :| 0 <= n < |sites| && sites[n].0 == key && s in sites[n].1;
    }
    if s in sites[k].1 { assert InGroup(sites, key, s); }
  }

  lemma SitePointIsSiteEnd(b: Block, checks: seq<Check>, k: nat)
    requires ChecksOk(b, checks) && k < |Sites(b, checks)|
    ensures SiteEnd(b, checks, Sites(b, checks)[k].0, SitePoint(b, Sites(b, checks)[k]))
  {
    SitesOk(b, checks);
    var g := Sites(b, checks)[k];
    var q := SitePoint(b, g);
    assert SiteGroupOk(b, g);
    GroupsNotEmpty(EssentialPairs(b, checks));
    var i0 := SiteGroupSource(b, checks, k, 0);
    forall i: nat | StaysAt(b, checks, i, g.0) && checks[i].shadow.Local? ensures checks[i].shadow.pos < q {
      SiteGroupIsAll(b, checks, k, checks[i].shadow);
    }
    InsertPointCause(b, g.0, g.1);
    if q != g.0 { SiteGroupIsAll(b, checks, k, Local(q - 1)); }
  }

  lemma SiteEndIsUnique(b: Block, checks: seq<Check>, orig: nat, q: nat, q1: nat)
    requires ChecksOk(b, checks) && SiteEnd(b, checks, orig, q) && SiteEnd(b, checks, orig, q1)
    ensures q == q1
  {
  }

  lemma SiteWarnsIff(v: Vals, b: Block, checks: seq<Check>, q: nat)
    requires ChecksOk(b, checks)
    ensures SiteWarns(v, b, Sites(b, checks), q) <==>
      exists i: nat :: WarnsAt(b, checks, i, q) && Stays(b, checks[i]) && Poisoned(v, checks[i].shadow)
  {
    var sites := Sites(b, checks);
    if SiteWarns(v, b, sites, q) {
      var k: nat :| GroupWarns(v, sites, k) && q == SitePoint(b, sites[k]);
      var j: nat :| j < |sites[k].1| && Poisoned(v, sites[k].1[j]);
      var i := SiteGroupSource(b, checks, k, j);
      StaysIffNotAnchored(b, checks[i]);
      SitePointIsSiteEnd(b, checks, k);
      assert WarnsAt(b, checks, i, q);
    }
    if i: nat :| WarnsAt(b, checks, i, q) && Stays(b, checks[i]) && Poisoned(v, checks[i].shadow) {
      StaysIffNotAnchored(b, checks[i]);
      PairsMember(b, checks, checks[i].orig, checks[i].shadow);
      GroupAllMember(EssentialPairs(b, checks), checks[i].orig, checks[i].shadow);
      var k: nat :| k < |sites| && sites[k].0 == checks[i].orig && checks[i].shadow in sites[k].1;
      SitePointIsSiteEnd(b, checks, k);
      SiteEndIsUnique(b, checks, checks[i].orig, q, SitePoint(b, sites[k]));
      assert GroupWarns(v, sites, k);
    }
  }

  lemma AnchorWarnsIff(v: Vals, b: Block, checks: seq<Check>, q: nat)
    requires ChecksOk(b, checks)
    ensures AnchorWarns(v, Anchors(b, checks), q) <==>
      exists i: nat :: WarnsAt(b, checks, i, q) && !Stays(b, checks[i]) && Poisoned(v, checks[i].shadow)
  {
    var anchors := Anchors(b, checks);
    if AnchorWarns(v, anchors, q) {
      var k: nat :| GroupWarns(v, anchors, k) && q == anchors[k].0;
      var j: nat :| j < |anchors[k].1| && Poisoned(v, anchors[k].1[j]);
      var i := AnchorGroupSource(b, checks, k, j);
      StaysIffNotAnchored(b, checks[i]);
      assert WarnsAt(b, checks, i, q);
    }
    if i: nat :| WarnsAt(b, checks, i, q) && !Stays(b, checks[i]) && Poisoned(v, checks[i].shadow) {
      StaysIffNotAnchored(b, checks[i]);
      PairsMember(b, checks, q, checks[i].shadow);
      GroupAllMember(AnchorPairs(b, checks), q, checks[i].shadow);
      var k: nat :| k < |anchors| && anchors[k].0 == q && checks[i].shadow in anchors[k].1;
      assert GroupWarns(v, anchors, k);
    }
  }

  /** The warnings of a block, exactly. A poisoned check that is essential, sits where checks are
      wanted at once, or has no anchor warns at its site, or right behind the last shadow tested at
      that site if one is defined later; any other one warns at its anchor, the first barrier or
      terminator, and not before. There is no other warning. */
  lemma WarningPositions(v: Vals, b: Block, checks: seq<Check>, starts: nat -> nat)
    requires ChecksOk(b, checks)
    ensures Sound(v, Materialize(b, checks, starts))
    ensures forall q: nat :: q in Log(v, Materialize(b, checks, starts)) <==> SomeWarnsAt(v, b, checks, q)
  {
    MaterializeEffect(v, b, checks, starts);
    forall q: nat ensures q in Log(v, Materialize(b, checks, starts)) <==> SomeWarnsAt(v, b, checks, q) {
      SiteWarnsIff(v, b, checks, q);
      AnchorWarnsIff(v, b, checks, q);
    }
  }

  /** An essential check, or one at an immediate site, whose site needs no later shadow is tested in
      front of the very instruction it guards. */
  lemma EssentialWarnsAtItsSite(v: Vals, b: Block, checks: seq<Check>, starts: nat -> nat, i: nat)
    requires ChecksOk(b, checks) && i < |checks| && Poisoned(v, checks[i].shadow)
    requires checks[i].orig < |b.immediate| && (checks[i].essential || b.immediate[checks[i].orig])
    requires forall k :: 0 <= k < |checks| && checks[k].orig == checks[i].orig && checks[k].shadow.Local? ==>
      checks[k].shadow.pos < checks[i].orig
    ensures Sound(v, Materialize(b, checks, starts)) && checks[i].orig in Log(v, Materialize(b, checks, starts))
  {
    WarningPositions(v, b, checks, starts);
    assert CheckOk(b, checks[i]);
    var orig := checks[i].orig;
    forall k: nat | StaysAt(b, checks, k, orig) && checks[k].shadow.Local? ensures checks[k].shadow.pos < orig {}
    assert WarnsAt(b, checks, i, orig);
  }

  // How many tests.

  function Tests(codes: seq<Code>): nat {
    if codes == [] then 0 else Tests(codes[..|codes| - 1]) + if codes[|codes| - 1].Test? then 1 else 0
  }

  function TestsAt(e: Emitted, k: nat): nat
    requires k < |e.slots|
  {
    Tests(e.slots[k])
  }

  lemma PutTests(e: Emitted, q: nat, c: Code, k: nat)
    requires q < |e.slots| && k < |e.slots|
    ensures TestsAt(Put(e, q, c), k) == TestsAt(e, k) + (if k == q && c.Test? then 1 else 0)
  {
    if k == q { assert (e.slots[q] + [c])[..|e.slots[q]|] == e.slots[q]; }
  }

  lemma {:induction false} OrAllTests(e: Emitted, q: nat, acc: Src, rest: seq<Shadow>, k: nat)
    requires q < |e.slots| && k < |e.slots|
    ensures TestsAt(OrAll(e, q, acc, rest).0, k) == TestsAt(e, k)
  {
    if rest != [] {
      OrAllTests(e, q, acc, rest[..|rest| - 1], k);
      var (e1, acc1) := OrAll(e, q, acc, rest[..|rest| - 1]);
      PutTests(e1, q, Or(e1.next, acc1, Val(rest[|rest| - 1])), k);
    }
  }

  lemma {:induction false} ChainTests(b: Block, e: Emitted, acc: Src, locals: seq<nat>, k: nat)
    requires forall i :: 0 <= i < |locals| ==> InsertPointAfter(b, locals[i]) < |e.slots|
    requires k < |e.slots|
    ensures TestsAt(Chain(b, e, acc, locals).0, k) == TestsAt(e, k)
  {
    if locals != [] {
      var p := locals[|locals| - 1];
      ChainTests(b, e, acc, locals[..|locals| - 1], k);
      var (e1, acc1) := Chain(b, e, acc, locals[..|locals| - 1]);
      PutTests(e1, InsertPointAfter(b, p), Or(e1.next, acc1, Val(Local(p))), k);
    }
  }

  lemma CoalescedTests(b: Block, e: Emitted, shadows: seq<Shadow>, at: nat, start: nat, k: nat)
    requires at < |e.slots| && Ready(b, shadows, at) && shadows != [] && k < |e.slots|
    ensures TestsAt(EmitCoalesced(b, e, shadows, at, start), k) == TestsAt(e, k) + (if k == at then 1 else 0)
  {
    var early := EarlyLocals(shadows, start, at);
    EarlyInsertPoints(b, shadows, start, at);
    if |shadows| > 1 && |early| > 1 {
      ChainTests(b, e, Val(Local(early[0])), early[1..], k);
      var (e1, acc) := Chain(b, e, Val(Local(early[0])), early[1..]);
      OrAllTests(e1, at, acc, LateShadows(shadows, start, at), k);
      var (e2, acc2) := OrAll(e1, at, acc, LateShadows(shadows, start, at));
      PutTests(e2, at, Test(acc2), k);
    } else {
      OrAllTests(e, at, Val(shadows[0]), shadows[1..], k);
      var (e1, acc) := OrAll(e, at, Val(shadows[0]), shadows[1..]);
      PutTests(e1, at, Test(acc), k);
    }
  }

  ghost predicate IsKey(groups: Groups, key: nat) { exists i :: 0 <= i < |groups| && groups[i].0 == key }

  lemma IsKeyLast(groups: Groups, key: nat)
    requires groups != [] && DistinctKeys(groups)
    ensures var front, last := groups[..|groups| - 1], groups[|groups| - 1];
      DistinctKeys(front) && (IsKey(groups, key) <==> IsKey(front, key) || last.0 == key) && !(IsKey(front, key) && last.0 == key)
  {
    var front := groups[..|groups| - 1];
    if i :| 0 <= i < |front| && front[i].0 == key { assert groups[i].0 == key; }
    if i :| 0 <= i < |groups| && groups[i].0 == key && i < |front| { assert front[i].0 == key; }
  }

  lemma {:induction false} AnchorsTests(b: Block, e: Emitted, groups: Groups, starts: nat -> nat, k: nat)
    requires |e.slots| == |b.barrier| && AllAnchorsOk(b, groups) && k < |e.slots| && DistinctKeys(groups)
    requires forall i :: 0 <= i < |groups| ==> groups[i].1 != []
    ensures TestsAt(EmitAnchors(b, e, groups, starts), k) == TestsAt(e, k) + (if IsKey(groups, k) then 1 else 0)
  {
    if groups != [] {
      var front, g := groups[..|groups| - 1], groups[|groups| - 1];
      assert AnchorGroupOk(b, g);
      AnchorsTests(b, e, front, starts, k);
      CoalescedTests(b, EmitAnchors(b, e, front, starts), g.1, g.0, starts(g.0), k);
      IsKeyLast(groups, k);
    }
  }

  /** However many checks wait for an anchor, they cost it one test; no other place gets one for
      them. */
  lemma OneTestPerAnchor(b: Block, checks: seq<Check>, starts: nat -> nat, k: nat)
    requires ChecksOk(b, checks) && k < |b.barrier|
    ensures AllSitesOk(b, Sites(b, checks))
    ensures TestsAt(Materialize(b, checks, starts), k) == TestsAt(EmitSites(b, Empty(b), Sites(b, checks)), k)
      + if exists i: nat :: WarnsAt(b, checks, i, k) && !Stays(b, checks[i]) then 1 else 0
  {
    SitesOk(b, checks);
    AnchorsOk(b, checks);
    var pairs, anchors := AnchorPairs(b, checks), Anchors(b, checks);
    GroupAllDistinct(pairs);
    GroupsNotEmpty(pairs);
    AnchorsTests(b, EmitSites(b, Empty(b), Sites(b, checks)), anchors, starts, k);
    if IsKey(anchors, k) {
      var n: nat :| n < |anchors| && anchors[n].0 == k;
      var i := AnchorGroupSource(b, checks, n, 0);
      StaysIffNotAnchored(b, checks[i]);
      assert WarnsAt(b, checks, i, k);
    }
    if i: nat :| WarnsAt(b, checks, i, k) && !Stays(b, checks[i]) {
      StaysIffNotAnchored(b, checks[i]);
      PairsMember(b, checks, k, checks[i].shadow);
      GroupAllMember(pairs, k, checks[i].shadow);
      assert InGroup(anchors, k, checks[i].shadow);
    }
  }

  // Where the ORs of a group go.

  /** How many of the local shadows are ready at position k and not before. */
  function ReadyAt(b: Block, locals: seq<nat>, k: nat): nat {
    if locals == [] then 0
    else ReadyAt(b, locals[..|locals| - 1], k) + if InsertPointAfter(b, locals[|locals| - 1]) == k then 1 else 0
  }

  lemma {:induction false} OrAllSize(e: Emitted, q: nat, acc: Src, rest: seq<Shadow>, k: nat)
    requires q < |e.slots| && k < |e.slots|
    ensures |OrAll(e, q, acc, rest).0.slots[k]| == |e.slots[k]| + (if k == q then |rest| else 0)
  {
    if rest != [] { OrAllSize(e, q, acc, rest[..|rest| - 1], k); }
  }

  lemma {:induction false} ChainSize(b: Block, e: Emitted, acc: Src, locals: seq<nat>, k: nat)
    requires forall i :: 0 <= i < |locals| ==> InsertPointAfter(b, locals[i]) < |e.slots|
    requires k < |e.slots|
    ensures |Chain(b, e, acc, locals).0.slots[k]| == |e.slots[k]| + ReadyAt(b, locals, k)
  {
    if locals != [] { ChainSize(b, e, acc, locals[..|locals| - 1], k); }
  }

  /** With two or more shadows of a group defined in the anchor's part of the block, each of them but
      the first is ORed in as soon as it is ready, and only the others wait for the anchor, where the
      test follows; otherwise all of the group is ORed at the anchor. */
  lemma ShadowsAreFoldedEarly(b: Block, e: Emitted, shadows: seq<Shadow>, at: nat, start: nat, k: nat)
    requires at < |e.slots| && Ready(b, shadows, at) && shadows != [] && k < |e.slots|
    ensures var early := EarlyLocals(shadows, start, at);
      |EmitCoalesced(b, e, shadows, at, start).slots[k]| == |e.slots[k]| +
        if |shadows| > 1 && |early| > 1 then
          ReadyAt(b, early[1..], k) + (if k == at then |LateShadows(shadows, start, at)| + 1 else 0)
        else if k == at then |shadows| else 0
  {
    var early := EarlyLocals(shadows, start, at);
    EarlyInsertPoints(b, shadows, start, at);
    if |shadows| > 1 && |early| > 1 {
      ChainSize(b, e, Val(Local(early[0])), early[1..], k);
      var (e1, acc) := Chain(b, e, Val(Local(early[0])), early[1..]);
      OrAllSize(e1, at, acc, LateShadows(shadows, start, at), k);
    } else {
      OrAllSize(e, at, Val(shadows[0]), shadows[1..], k);
    }
  }

  // Runs that stop early.

  lemma {:induction false} LogStaysInSlot(v: Vals, pos: nat, st: State, codes: seq<Code>)
    requires st.Going? && ExecSlot(v, pos, st, codes).Going?
    ensures st.log <= ExecSlot(v, pos, st, codes).log <= st.log + {pos}
  {
    if codes != [] {
      var rest := codes[..|codes| - 1];
      if ExecSlot(v, pos, st, rest).Going? { LogStaysInSlot(v, pos, st, rest); }
    }
  }

  /** A warning at q is out as soon as slot q has run. */
  lemma {:induction false} WarningIsTimely(v: Vals, slots: seq<seq<Code>>, k: nat, n: nat, q: nat)
    requires k <= n <= |slots| && ExecTo(v, slots, n).Going? && q < k && q in ExecTo(v, slots, n).log
    ensures ExecTo(v, slots, k).Going? && q in ExecTo(v, slots, k).log
    decreases n
  {
    SoundBefore(v, slots, k, n);
    if k < n {
      SoundBefore(v, slots, n - 1, n);
      LogStaysInSlot(v, n - 1, ExecTo(v, slots, n - 1), slots[n - 1]);
      WarningIsTimely(v, slots, k, n - 1, q);
    }
  }

  /** A run that gets to a check's site and stops at an instruction that does not go on, barrier
      or terminator, has already warned about the check if its shadow was poisoned. */
  lemma WarnsBeforeTheRunStops(v: Vals, b: Block, checks: seq<Check>, starts: nat -> nat, i: nat, stop: nat) returns (q: nat)
    requires ChecksOk(b, checks) && i < |checks| && Poisoned(v, checks[i].shadow)
    requires checks[i].orig <= stop < |b.barrier| && (b.barrier[stop] || stop == b.Last())
    ensures q <= stop && Deserved(v, b, checks, q, i)
    ensures var st := ExecTo(v, Materialize(b, checks, starts).slots, stop + 1); st.Going? && q in st.log
  {
    MaterializeEffect(v, b, checks, starts);
    q := CheckIsTested(v, b, checks, i);
    StopsAfterFirstBarrier(b, checks[i].orig, stop);
    var e := Materialize(b, checks, starts);
    WarningIsTimely(v, e.slots, stop + 1, |e.slots|, q);
  }

  lemma StopsAfterFirstBarrier(b: Block, orig: nat, stop: nat)
    requires orig <= stop < |b.barrier| && (b.barrier[stop] || stop == b.Last())
    ensures FirstBarrier(b, orig) <= stop
  {
  }

  // The emitting code of the pass: an instrumentation that grows the block in place.

  class Instrumenter {
    const b: Block
    var slots: seq<seq<Code>>
    var next: nat

    ghost predicate Valid() reads this { b.WellFormed() && |slots| == |b.barrier| }

    function Code(): Emitted reads this { Emitted(slots, next) }

    constructor (b: Block)
      requires b.WellFormed()
      ensures Valid() && this.b == b && Code() == Empty(b)
    {
      this.b := b;
      slots := seq(|b.barrier|, i => []);
      next := 0;
    }

    method CreateOr(q: nat, x: Src, y: Src) returns (t: Src)
      requires q < |slots|
      modifies `slots, `next
      ensures (Code(), t) == EmitOr(old(Code()), q, x, y)
    {
      t := Tmp(next);
      slots := slots[q := slots[q] + [Or(next, x, y)]];
      next := next + 1;
    }

    method CreateTest(q: nat, x: Src)
      requires q < |slots|
      modifies `slots
      ensures Code() == Put(old(Code()), q, Test(x))
    {
      slots := slots[q := slots[q] + [Test(x)]];
    }

    method OrInto(q: nat, first: Src, rest: seq<Shadow>) returns (acc: Src)
      requires q < |slots|
      modifies `slots, `next
      ensures (Code(), acc) == OrAll(old(Code()), q, first, rest)
    {
      acc := first;
      for i := 0 to |rest|
        invariant |slots| == old(|slots|)
        invariant (Code(), acc) == OrAll(old(Code()), q, first, rest[..i])
      {
        assert rest[..i + 1][..i] == rest[..i];
        acc := CreateOr(q, acc, Val(rest[i]));
      }
      assert rest[..|rest|] == rest;
    }

    /** The shadows split into those chained early, sorted and without repeats, and the others. */
    method SplitShadows(shadows: seq<Shadow>, at: nat, start: nat) returns (early: seq<nat>, late: seq<Shadow>)
      ensures early == EarlyLocals(shadows, start, at) && late == LateShadows(shadows, start, at)
    {
      early, late := [], [];
      for i := 0 to |shadows|
        invariant early == EarlyLocals(shadows[..i], start, at)
        invariant late == LateShadows(shadows[..i], start, at)
      {
        assert shadows[..i + 1][..i] == shadows[..i];
        if ChainsEarly(shadows[i], start, at) {
          early := InsertSorted(early, shadows[i].pos);
        } else {
          late := late + [shadows[i]];
        }
      }
      assert shadows[..|shadows|] == shadows;
    }

    method ChainEarly(early: seq<nat>) returns (acc: Src)
      requires Valid() && early != []
      requires forall i :: 0 <= i < |early| ==> InsertPointAfter(b, early[i]) < |slots|
      modifies `slots, `next
      ensures Valid()
      ensures (Code(), acc) == Chain(b, old(Code()), Val(Local(early[0])), early[1..])
    {
      acc := Val(Local(early[0]));
      for i := 1 to |early|
        invariant Valid()
        invariant (Code(), acc) == Chain(b, old(Code()), Val(Local(early[0])), early[1..i])
      {
        assert early[1..i + 1][..i - 1] == early[1..i];
        acc := CreateOr(InsertPointAfter(b, early[i]), acc, Val(Local(early[i])));
      }
      assert early[1..|early|] == early[1..];
    }

    method EmitCoalescedCheck(shadows: seq<Shadow>, at: nat, start: nat)
      requires Valid() && at < |slots| && Ready(b, shadows, at)
      modifies `slots, `next
      ensures Valid() && Code() == EmitCoalesced(b, old(Code()), shadows, at, start)
    {
      if shadows == [] { return; }
      EarlyInsertPoints(b, shadows, start, at);
      if |shadows| > 1 {
        var early, late := SplitShadows(shadows, at, start);
        if |early| > 1 {
          var chained := ChainEarly(early);
          var all := OrInto(at, chained, late);
          CreateTest(at, all);
          return;
        }
      }
      var acc := OrInto(at, Val(shadows[0]), shadows[1..]);
      CreateTest(at, acc);
    }

    method FindInsertPoint(orig: nat, shadows: seq<Shadow>) returns (q: nat)
      ensures q == CheckInsertPoint(b, orig, shadows)
    {
      q := orig;
      for i := 0 to |shadows|
        invariant q == CheckInsertPoint(b, orig, shadows[..i])
      {
        assert shadows[..i + 1][..i] == shadows[..i];
        var s := shadows[i];
        if s.Local? && s.pos >= orig && InsertPointAfter(b, s.pos) > q { q := InsertPointAfter(b, s.pos); }
      }
      assert shadows[..|shadows|] == shadows;
    }

    method MaterializeInstructionChecks(orig: nat, shadows: seq<Shadow>)
      requires Valid() && SiteGroupOk(b, (orig, shadows))
      modifies `slots, `next
      ensures Valid() && Code() == EmitEssential(old(Code()), SitePoint(b, (orig, shadows)), shadows)
    {
      var q := FindInsertPoint(orig, shadows);
      var acc: Option<Src> := None;
      for i := 0 to |shadows|
        invariant Valid()
        invariant (Code(), acc) == EssentialFold(old(Code()), q, shadows[..i])
      {
        assert shadows[..i + 1][..i] == shadows[..i];
        var s := shadows[i];
        if s.Const? {
          if s.poisoned { CreateTest(q, Val(s)); }
        } else if acc.None? {
          acc := Some(Val(s));
        } else {
          var t := CreateOr(q, acc.value, Val(s));
          acc := Some(t);
        }
      }
      assert shadows[..|shadows|] == shadows;
      if acc.Some? { CreateTest(q, acc.value); }
    }

    /** Who waits for an anchor and who is tested at its site. */
    method Classify(checks: seq<Check>) returns (essential: seq<(nat, Shadow)>, byAnchor: Groups)
      requires ChecksOk(b, checks)
      ensures essential == EssentialPairs(b, checks) && byAnchor == Anchors(b, checks)
    {
      essential, byAnchor := [], [];
      var unanchored := [];
      for i := 0 to |checks|
        invariant essential == SitePairs(b, checks[..i], false)
        invariant unanchored == SitePairs(b, checks[..i], true)
        invariant byAnchor == GroupAll(AnchorPairs(b, checks[..i]))
      {
        assert checks[..i + 1][..i] == checks[..i];
        var c := checks[i];
        assert CheckOk(b, c);
        if Defers(b, c) {
          var a := FindAnchor(b, c.orig);
          if a.Some? {
            byAnchor := AddTo(byAnchor, a.value, c.shadow);
          } else {
            unanchored := unanchored + [(c.orig, c.shadow)];
          }
        } else {
          essential := essential + [(c.orig, c.shadow)];
        }
      }
      assert checks[..|checks|] == checks;
      essential := essential + unanchored;
    }

    method GroupByOrigIns(pairs: seq<(nat, Shadow)>) returns (groups: Groups)
      ensures groups == GroupAll(pairs)
    {
      groups := [];
      for i := 0 to |pairs|
        invariant groups == GroupAll(pairs[..i])
      {
        assert pairs[..i + 1][..i] == pairs[..i];
        groups := AddTo(groups, pairs[i].0, pairs[i].1);
      }
      assert pairs[..|pairs|] == pairs;
    }

    /** The checks that stay at their sites. */
    method MaterializeSites(sites: Groups)
      requires Valid() && AllSitesOk(b, sites)
      modifies `slots, `next
      ensures Valid() && Code() == EmitSites(b, old(Code()), sites)
    {
      ghost var e := Code();
      for i := 0 to |sites|
        invariant Valid() && Code() == EmitSites(b, e, sites[..i])
      {
        assert sites[..i + 1][..i] == sites[..i];
        assert SiteGroupOk(b, sites[i]);
        MaterializeInstructionChecks(sites[i].0, sites[i].1);
      }
      assert sites[..|sites|] == sites;
    }

    /** The checks deferred to an anchor. */
    method MaterializeAnchors(byAnchor: Groups, starts: nat -> nat)
      requires Valid() && AllAnchorsOk(b, byAnchor)
      modifies `slots, `next
      ensures Valid() && Code() == EmitAnchors(b, old(Code()), byAnchor, starts)
    {
      ghost var e := Code();
      for i := 0 to |byAnchor|
        invariant Valid() && Code() == EmitAnchors(b, e, byAnchor[..i], starts)
      {
        assert byAnchor[..i + 1][..i] == byAnchor[..i];
        assert AnchorGroupOk(b, byAnchor[i]);
        EmitCoalescedCheck(byAnchor[i].1, byAnchor[i].0, starts(byAnchor[i].0));
      }
      assert byAnchor[..|byAnchor|] == byAnchor;
    }

    method MaterializeCoalescedChecks(checks: seq<Check>, starts: nat -> nat)
      requires Valid() && ChecksOk(b, checks) && Code() == Empty(b)
      modifies `slots, `next
      ensures Valid() && Code() == Materialize(b, checks, starts)
    {
      SitesOk(b, checks);
      AnchorsOk(b, checks);
      var essential, byAnchor := Classify(checks);
      var sites := GroupByOrigIns(essential);
      MaterializeSites(sites);
      MaterializeAnchors(byAnchor, starts);
    }
  }
}
