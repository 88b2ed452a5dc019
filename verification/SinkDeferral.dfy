/** Moving a load's check to a later sink (CompilerQEMUMemorySanitizer.cpp: findSinkFor,
    guaranteedPathHasBarrier, the remapping in runOnFunction). A function is a control-flow graph
    of instructions numbered in program order; a barrier may not let execution go on. */
module SinkDeferral {
  import opened FiniteSets
  import opened Wrappers

  datatype Op =
    | Load                                     // operands: address
    | Store                                    // operands: address, value
    | Return | Branch | Switch
    | DivRem                                   // operands: dividend, divisor
    | Binary
    | Call(intrinsic: bool, ownRuntime: bool, invoke: bool)
    | Through                                  // casts, GEPs, comparisons, aggregates, unary, freeze
    | Merge                                    // PHI and select
    | Other(terminator: bool)

  datatype Inst = Inst(op: Op, args: seq<nat>, barrier: bool, block: nat) {
    predicate Terminator() {
      op.Return? || op.Branch? || op.Switch? || (op.Call? && op.invoke) || (op.Other? && op.terminator)
    }
  }

  datatype Blk = Blk(first: nat, end: nat, succs: seq<nat>)

  datatype Fn = Fn(insts: seq<Inst>, blocks: seq<Blk>) {
    ghost predicate WellFormed() {
      && |blocks| > 0
      && (forall n :: 0 <= n < |insts| ==> insts[n].block < |blocks| && InBlock(insts[n].block, n))
      && (forall b :: 0 <= b < |blocks| ==> BlockOk(b))
    }
    predicate InBlock(b: nat, n: nat) requires b < |blocks| { blocks[b].first <= n < blocks[b].end }
    ghost predicate BlockOk(b: nat) requires b < |blocks| {
      && blocks[b].first < blocks[b].end <= |insts|
      && (forall n: nat :: InBlock(b, n) ==> insts[n].block == b)
      && (forall n: nat :: InBlock(b, n) ==> (insts[n].Terminator() <==> n == blocks[b].end - 1))
      && (forall k :: 0 <= k < |blocks[b].succs| ==> blocks[b].succs[k] < |blocks|)
    }
  }

  ghost predicate Edge(f: Fn, a: nat, b: nat) {
    a < |f.blocks| && b < |f.blocks| && b in f.blocks[a].succs
  }

  ghost predicate IsPath(f: Fn, p: seq<nat>) {
    && p != [] && p[0] < |f.blocks|
    && forall i :: 0 <= i < |p| - 1 ==> Edge(f, p[i], p[i + 1])
  }

  lemma PathInBlocks(f: Fn, p: seq<nat>, i: nat)
    requires IsPath(f, p) && i < |p|
    ensures p[i] < |f.blocks|
  {
    if i > 0 { assert Edge(f, p[i - 1], p[i]); }
  }

  function Last(s: seq<nat>): nat requires s != [] { s[|s| - 1] }

  lemma TailIsPath(f: Fn, p: seq<nat>, i: nat)
    requires IsPath(f, p) && i < |p|
    ensures IsPath(f, p[i..])
  {
    PathInBlocks(f, p, i);
    forall j | 0 <= j < |p[i..]| - 1 ensures Edge(f, p[i..][j], p[i..][j + 1]) { assert Edge(f, p[i + j], p[i + j + 1]); }
  }

  lemma PrefixIsPath(f: Fn, p: seq<nat>, i: nat)
    requires IsPath(f, p) && 0 < i <= |p|
    ensures IsPath(f, p[..i])
  {
  }

  lemma JoinPaths(f: Fn, p: seq<nat>, q: seq<nat>)
    requires IsPath(f, p) && IsPath(f, q) && Edge(f, Last(p), q[0])
    ensures IsPath(f, p + q)
  {
  }

  /** Two paths that meet in a block make one path. */
  lemma SplicePath(f: Fn, p: seq<nat>, t: seq<nat>)
    requires IsPath(f, p) && IsPath(f, t) && Last(p) == t[0]
    ensures IsPath(f, p[..|p| - 1] + t)
    ensures (p[..|p| - 1] + t)[0] == p[0] && Last(p[..|p| - 1] + t) == Last(t)
  {
  }

  ghost predicate EntryPath(f: Fn, b: nat, p: seq<nat>) { IsPath(f, p) && p[0] == 0 && Last(p) == b }

  ghost predicate Reachable(f: Fn, b: nat) { exists p: seq<nat> :: EntryPath(f, b, p) }

  lemma PrefixReaches(f: Fn, p: seq<nat>, i: nat)
    requires IsPath(f, p) && p[0] == 0 && i < |p|
    ensures EntryPath(f, p[i], p[..i + 1]) && Reachable(f, p[i])
  {
    PrefixIsPath(f, p, i + 1);
    assert EntryPath(f, p[i], p[..i + 1]);
  }

  // What the other analyses say: the innermost loop of a block and post-dominance.

  /** `loopOf` gives the header of the innermost loop of each block. */
  datatype Analyses = Analyses(loopOf: seq<Option<nat>>, postDom: set<(nat, nat)>)

  ghost predicate ExitPath(f: Fn, l: nat, p: seq<nat>) {
    IsPath(f, p) && p[0] == l && Last(p) < |f.blocks| && f.blocks[Last(p)].succs == []
  }

  ghost predicate PostDominates(f: Fn, s: nat, l: nat) {
    forall p: seq<nat> :: ExitPath(f, l, p) ==> s in p
  }

  ghost predicate Dominates(f: Fn, d: nat, b: nat) {
    forall p: seq<nat> :: EntryPath(f, b, p) ==> d in p
  }

  /** A way from b to n that keeps clear of h. */
  ghost predicate Clear(f: Fn, b: nat, n: nat, h: nat, p: seq<nat>) {
    IsPath(f, p) && p[0] == b && Last(p) == n && h !in p
  }

  /** An edge back to a block that dominates its origin; blocks no run reaches count for nothing. */
  ghost predicate BackEdge(f: Fn, n: nat, h: nat) { Edge(f, n, h) && Dominates(f, h, n) && Reachable(f, n) }

  /** The natural loop of header h: what gets back to h along one of its back edges. */
  ghost predicate InLoop(f: Fn, h: nat, b: nat) {
    Reachable(f, b) && exists n :: BackEdge(f, n, h) && (b == h || exists p: seq<nat> :: Clear(f, b, n, h, p))
  }

  /** Each block has the header of its innermost loop: the one all its other loops contain. */
  ghost predicate LoopsOk(f: Fn, loopOf: seq<Option<nat>>) {
    && |loopOf| == |f.blocks|
    && forall b :: 0 <= b < |loopOf| ==>
      if loopOf[b].Some? then InLoop(f, loopOf[b].value, b) && forall h :: InLoop(f, h, b) ==> InLoop(f, h, loopOf[b].value)
      else forall h :: !InLoop(f, h, b)
  }

  // The loop table stands for the loops themselves.

  ghost predicate SameLoops(f: Fn, a: nat, b: nat) { forall h :: InLoop(f, h, a) <==> InLoop(f, h, b) }

  lemma HeadDominates(f: Fn, h: nat, b: nat)
    requires InLoop(f, h, b)
    ensures Dominates(f, h, b)
  {
    if b != h {
      var n :| BackEdge(f, n, h) && exists p: seq<nat> :: Clear(f, b, n, h, p);
      var p: seq<nat> :| Clear(f, b, n, h, p);
      forall q: seq<nat> | EntryPath(f, b, q) ensures h in q {
        SplicePath(f, q, p);
        var whole := q[..|q| - 1] + p;
        assert EntryPath(f, n, whole) && h in whole;
      }
    }
  }

  lemma {:induction false} MutualDominance(f: Fn, x: nat, y: nat, p: seq<nat>)
    requires Dominates(f, x, y) && Dominates(f, y, x) && EntryPath(f, x, p)
    ensures x == y
    decreases |p|
  {
    if x != y {
      var j :| 0 <= j < |p| && p[j] == y;
      PrefixReaches(f, p, j);
      var i :| 0 <= i < j + 1 && p[..j + 1][i] == x;
      PrefixReaches(f, p, i);
      MutualDominance(f, x, y, p[..i + 1]);
    }
  }

  lemma HeadIsInLoop(f: Fn, h: nat, b: nat)
    requires InLoop(f, h, b)
    ensures InLoop(f, h, h)
  {
    HeadDominates(f, h, b);
    var p: seq<nat> :| EntryPath(f, b, p);
    var i :| 0 <= i < |p| && p[i] == h;
    PrefixReaches(f, p, i);
  }

  /** Two loops that hold each other's header are one. */
  lemma MutualHeads(f: Fn, x: nat, y: nat)
    requires InLoop(f, x, y) && InLoop(f, y, x)
    ensures x == y
  {
    HeadDominates(f, x, y);
    HeadDominates(f, y, x);
    var p: seq<nat> :| EntryPath(f, x, p);
    MutualDominance(f, x, y, p);
  }

  /** A path from b that ends behind h's back edge and keeps clear of h stays in the loop. */
  lemma ClearStaysInLoop(f: Fn, h: nat, n: nat, b: nat, p: seq<nat>, j: nat)
    requires BackEdge(f, n, h) && Clear(f, b, n, h, p) && Reachable(f, b) && j < |p|
    ensures InLoop(f, h, p[j])
  {
    var q: seq<nat> :| EntryPath(f, b, q);
    SplicePath(f, q, p);
    var whole := q[..|q| - 1] + p;
    assert whole[|q| - 1 + j] == p[j];
    PrefixReaches(f, whole, |q| - 1 + j);
    TailIsPath(f, p, j);
    assert Clear(f, p[j], n, h, p[j..]);
  }

  /** Loops nest: a loop that holds another's header holds the other. */
  lemma LoopsNest(f: Fn, h: nat, x: nat, b: nat)
    requires InLoop(f, h, x) && InLoop(f, x, b)
    ensures InLoop(f, h, b)
  {
    if h != x && b != x {
      var n :| BackEdge(f, n, h) && exists p: seq<nat> :: Clear(f, x, n, h, p);
      var p: seq<nat> :| Clear(f, x, n, h, p);
      var m :| BackEdge(f, m, x) && exists q: seq<nat> :: Clear(f, b, m, x, q);
      var q: seq<nat> :| Clear(f, b, m, x, q);
      if h in q {
        var j :| 0 <= j < |q| && q[j] == h;
        ClearStaysInLoop(f, x, m, b, q, j);
        MutualHeads(f, x, h);
      }
      JoinPaths(f, q, p);
      assert Clear(f, b, n, h, q + p);
    }
  }

  lemma InnermostCovers(f: Fn, loopOf: seq<Option<nat>>, a: nat, b: nat, h: nat)
    requires LoopsOk(f, loopOf) && a < |loopOf| && b < |loopOf| && loopOf[a] == loopOf[b] && InLoop(f, h, a)
    ensures InLoop(f, h, b)
  {
    assert loopOf[a].Some?;
    LoopsNest(f, h, loopOf[a].value, b);
  }

  /** Two blocks have the same innermost loop exactly when the same loops hold them. */
  lemma InnermostDecides(f: Fn, loopOf: seq<Option<nat>>, a: nat, b: nat)
    requires LoopsOk(f, loopOf) && a < |loopOf| && b < |loopOf|
    ensures loopOf[a] == loopOf[b] <==> SameLoops(f, a, b)
  {
    if loopOf[a] == loopOf[b] {
      forall h ensures InLoop(f, h, a) <==> InLoop(f, h, b) {
        if InLoop(f, h, a) { InnermostCovers(f, loopOf, a, b, h); }
        if InLoop(f, h, b) { InnermostCovers(f, loopOf, b, a, h); }
      }
    } else if SameLoops(f, a, b) {
      if loopOf[a].Some? && loopOf[b].Some? {
        var x, y := loopOf[a].value, loopOf[b].value;
        assert InLoop(f, x, b) && InLoop(f, y, a);
        MutualHeads(f, x, y);
      }
    }
  }

  ghost predicate AnalysesOk(f: Fn, an: Analyses) {
    && |an.loopOf| == |f.blocks|
    && forall s, l :: (s, l) in an.postDom ==> PostDominates(f, s, l)
  }

  // Barriers on the way.

  ghost predicate BarrierIn(f: Fn, lo: nat, hi: nat) {
    exists n :: lo <= n < hi && n < |f.insts| && f.insts[n].barrier
  }

  ghost predicate BlockHasBarrier(f: Fn, b: nat) {
    b < |f.blocks| && BarrierIn(f, f.blocks[b].first, f.blocks[b].end)
  }

  /** A way out of block l that keeps clear of block s. */
  ghost predicate Around(f: Fn, l: nat, s: nat, p: seq<nat>) {
    IsPath(f, p) && Edge(f, l, p[0]) && s !in p
  }

  ghost predicate Between(f: Fn, l: nat, s: nat, b: nat) {
    exists p: seq<nat> :: Around(f, l, s, p) && Last(p) == b
  }

  /** Some instruction between the load and the sink may not let execution go on. */
  ghost predicate BarrierOnTheWay(f: Fn, load: nat, sink: nat)
    requires f.WellFormed() && load < |f.insts| && sink < |f.insts|
  {
    var l, s := f.insts[load].block, f.insts[sink].block;
    if l == s then BarrierIn(f, load + 1, sink)
    else
      || BarrierIn(f, load + 1, f.blocks[l].end)
      || (exists b :: Between(f, l, s, b) && BlockHasBarrier(f, b))
      || BarrierIn(f, f.blocks[s].first, sink)
  }

  method ScanForBarrier(f: Fn, lo: nat, hi: nat) returns (found: bool)
    requires hi <= |f.insts|
    ensures found <==> BarrierIn(f, lo, hi)
  {
    var n := lo;
    while n < hi
      invariant forall k :: lo <= k < n && k < hi ==> !f.insts[k].barrier
    {
      if f.insts[n].barrier { return true; }
      n := n + 1;
    }
    return false;
  }

  /** Adds the new members of `more` to both the visited set and the work list. */
  method PushNew(more: seq<nat>, avoid: nat, seen: set<nat>, wl: seq<nat>) returns (seen1: set<nat>, wl1: seq<nat>)
    ensures forall b :: b in seen1 <==> b in seen || (b in more && b != avoid)
    ensures forall b :: b in wl1 <==> b in wl || (b in seen1 && b !in seen)
    ensures seen1 == seen ==> wl1 == wl
  {
    seen1, wl1 := seen, wl;
    for i := 0 to |more|
      invariant seen <= seen1 && (seen1 == seen ==> wl1 == wl)
      invariant forall b :: b in seen1 <==> b in seen || (b in more[..i] && b != avoid)
      invariant forall b :: b in wl1 <==> b in wl || (b in seen1 && b !in seen)
    {
      assert more[..i + 1] == more[..i] + [more[i]];
      if more[i] != avoid && more[i] !in seen1 { seen1, wl1 := seen1 + {more[i]}, wl1 + [more[i]]; }
    }
    assert more[..|more|] == more;
  }

  lemma ExtendAround(f: Fn, l: nat, s: nat, b: nat, c: nat)
    requires Between(f, l, s, b) && Edge(f, b, c) && c != s
    ensures Between(f, l, s, c)
  {
    var p: seq<nat> :| Around(f, l, s, p) && Last(p) == b;
    var q := p + [c];
    forall i | 0 <= i < |q| - 1 ensures Edge(f, q[i], q[i + 1]) {
      if i < |p| - 1 { assert Edge(f, p[i], p[i + 1]); }
    }
    assert Around(f, l, s, q) && Last(q) == c;
  }

  lemma StartAround(f: Fn, l: nat, s: nat, b: nat)
    requires Edge(f, l, b) && b != s
    ensures Between(f, l, s, b)
  {
    assert Around(f, l, s, [b]) && Last([b]) == b;
  }

  /** A set that holds the first steps and is closed under edges holds everything between. */
  lemma {:induction false} ClosedHoldsPath(f: Fn, l: nat, s: nat, seen: set<nat>, p: seq<nat>, i: nat)
    requires Around(f, l, s, p) && i < |p|
    requires forall b :: Edge(f, l, b) && b != s ==> b in seen
    requires forall a, b :: a in seen && Edge(f, a, b) && b != s ==> b in seen
    ensures p[i] in seen
  {
    if i == 0 {
      assert p[0] in p;
    } else {
      ClosedHoldsPath(f, l, s, seen, p, i - 1);
      assert Edge(f, p[i - 1], p[i]) && p[i] in p;
    }
  }

  ghost predicate Scanned(f: Fn, s: nat, b: nat, seen: set<nat>) {
    !BlockHasBarrier(f, b) && forall c :: Edge(f, b, c) && c != s ==> c in seen
  }

  /** The visited set of the walk, which holds only blocks between. */
  ghost predicate Walked(f: Fn, l: nat, s: nat, seen: set<nat>, wl: seq<nat>) {
    && seen <= Below(|f.blocks|)
    && (forall b :: b in wl ==> b in seen)
    && (forall b :: b in seen ==> Between(f, l, s, b))
    && (forall b: nat :: Edge(f, l, b) && b != s ==> b in seen)
    && (forall b :: b in seen ==> b in wl || Scanned(f, s, b, seen))
  }

  lemma WalkedOneMore(f: Fn, l: nat, s: nat, seen: set<nat>, wl: seq<nat>, b: nat, seen1: set<nat>, wl1: seq<nat>)
    requires f.WellFormed() && wl != [] && b == wl[|wl| - 1] && Walked(f, l, s, seen, wl) && !BlockHasBarrier(f, b)
    requires b < |f.blocks|
    requires forall c :: c in seen1 <==> c in seen || (c in f.blocks[b].succs && c != s)
    requires forall c :: c in wl1 <==> c in wl[..|wl| - 1] || (c in seen1 && c !in seen)
    ensures Walked(f, l, s, seen1, wl1)
  {
    assert wl == wl[..|wl| - 1] + [b] && b in wl && f.BlockOk(b);
    forall c | c in seen1 ensures Between(f, l, s, c) && c in Below(|f.blocks|) {
      if c !in seen { assert Edge(f, b, c); ExtendAround(f, l, s, b, c); }
    }
    forall c | c in seen1 ensures c in wl1 || Scanned(f, s, c, seen1) {
      if c in seen && c !in wl { assert Scanned(f, s, c, seen); }
    }
  }

  lemma WalkedIsAll(f: Fn, l: nat, s: nat, seen: set<nat>, b: nat)
    requires Walked(f, l, s, seen, []) && Between(f, l, s, b)
    ensures !BlockHasBarrier(f, b)
  {
    var p: seq<nat> :| Around(f, l, s, p) && Last(p) == b;
    forall a, c | a in seen && Edge(f, a, c) && c != s ensures c in seen { assert Scanned(f, s, a, seen); }
    ClosedHoldsPath(f, l, s, seen, p, |p| - 1);
    assert Scanned(f, s, b, seen);
  }

  lemma WalkStarts(f: Fn, l: nat, s: nat, seen: set<nat>, wl: seq<nat>)
    requires f.WellFormed() && l < |f.blocks|
    requires forall b :: b in seen <==> b in f.blocks[l].succs && b != s
    requires forall b :: b in wl <==> b in seen
    ensures Walked(f, l, s, seen, wl)
  {
    assert f.BlockOk(l);
    forall b | b in seen ensures Between(f, l, s, b) && b in Below(|f.blocks|) { StartAround(f, l, s, b); }
  }

  /** The work-list walk over the blocks between. */
  method WalkBetween(f: Fn, l: nat, s: nat) returns (found: bool)
    requires f.WellFormed() && l < |f.blocks| && s < |f.blocks|
    ensures found <==> exists b :: Between(f, l, s, b) && BlockHasBarrier(f, b)
  {
    var seen, wl := PushNew(f.blocks[l].succs, s, {}, []);
    WalkStarts(f, l, s, seen, wl);
    while wl != []
      invariant Walked(f, l, s, seen, wl)
      decreases |Below(|f.blocks|) - seen|, |wl|
    {
      var b := wl[|wl| - 1];
      assert b in wl && f.BlockOk(b);
      found := ScanForBarrier(f, f.blocks[b].first, f.blocks[b].end);
      if found { return; }
      var seen1, wl1 := PushNew(f.blocks[b].succs, s, seen, wl[..|wl| - 1]);
      WalkedOneMore(f, l, s, seen, wl, b, seen1, wl1);
      SmallerRest(Below(|f.blocks|), seen, seen1);
      seen, wl := seen1, wl1;
    }
    forall b | Between(f, l, s, b) ensures !BlockHasBarrier(f, b) { WalkedIsAll(f, l, s, seen, b); }
    found := false;
  }

  /** `guaranteedPathHasBarrier`, for a sink its caller already placed after the load. */
  method GuaranteedPathHasBarrier(f: Fn, load: nat, sink: nat) returns (found: bool)
    requires f.WellFormed() && load < |f.insts| && sink < |f.insts|
    requires f.insts[load].block == f.insts[sink].block ==> load < sink
    ensures found <==> BarrierOnTheWay(f, load, sink)
  {
    var l, s := f.insts[load].block, f.insts[sink].block;
    assert f.BlockOk(l) && f.BlockOk(s);
    if l == s {
      found := ScanForBarrier(f, load + 1, sink);
      return;
    }
    found := ScanForBarrier(f, load + 1, f.blocks[l].end);
    if found { return; }
    found := WalkBetween(f, l, s);
    if found { return; }
    found := ScanForBarrier(f, f.blocks[s].first, sink);
  }

  // The search for a sink.

  datatype Role = Sink | Pass | Ignore

  /** What a user does with the value v. */
  function RoleOf(i: Inst, v: nat): Role {
    match i.op
    case Load => if |i.args| > 0 && i.args[0] == v then Sink else Ignore
    case Store => if |i.args| > 0 && i.args[0] == v then Sink else Ignore
    case Return => if v in i.args then Sink else Ignore
    case Branch => if v in i.args then Sink else Ignore
    case Switch => if v in i.args then Sink else Ignore
    case DivRem => if |i.args| > 1 && i.args[1] == v then Sink else Pass
    case Binary => Pass
    case Call(intrinsic, ownRuntime, _) => if !intrinsic && !ownRuntime && v in i.args then Sink else Ignore
    case Through => Pass
    case Merge => Ignore
    case Other(_) => Ignore
  }

  /** The operand has to be right when the instruction executes: it is dereferenced, divided by,
      returned, decided on or handed to a callee that is neither an intrinsic nor the runtime's own. */
  predicate Strict(op: Op, k: nat) {
    match op
    case Load => k == 0
    case Store => k == 0
    case Return => true
    case Branch => true
    case Switch => true
    case DivRem => k == 1
    case Call(intrinsic, ownRuntime, _) => !(intrinsic || ownRuntime)
    case _ => false
  }

  /** A user is a sink exactly for its strict operands, and passes on exactly what it computes a new
      value from; a store of the value, a PHI and a select end the search. */
  lemma RoleIsExact(i: Inst, v: nat)
    requires v in i.args
    ensures RoleOf(i, v) == Sink <==> exists k :: 0 <= k < |i.args| && i.args[k] == v && Strict(i.op, k)
    ensures RoleOf(i, v) == Pass <==> RoleOf(i, v) != Sink && (i.op.DivRem? || i.op.Binary? || i.op.Through?)
  {
    var k :| 0 <= k < |i.args| && i.args[k] == v;
    if i.op.Return? || i.op.Branch? || i.op.Switch? || i.op.Call? {
      assert RoleOf(i, v) == Sink <==> Strict(i.op, k);
    }
  }

  ghost predicate Uses(f: Fn, n: nat, v: nat, role: Role) {
    n < |f.insts| && v in f.insts[n].args && RoleOf(f.insts[n], v) == role
  }

  /** Values computed from the load, each from the one before. */
  ghost predicate Chain(f: Fn, load: nat, chain: seq<nat>) {
    && chain != [] && chain[0] == load
    && forall k :: 0 <= k < |chain| - 1 ==> Uses(f, chain[k + 1], chain[k], Pass)
  }

  ghost predicate Derived(f: Fn, load: nat, v: nat) {
    exists chain: seq<nat> :: Chain(f, load, chain) && Last(chain) == v
  }

  /** The instruction sinks a value computed from the load. */
  ghost predicate SinksLoad(f: Fn, load: nat, sink: nat) {
    exists v :: Derived(f, load, v) && Uses(f, sink, v, Sink)
  }

  ghost predicate Accepts(f: Fn, an: Analyses, load: nat, sink: nat)
    requires f.WellFormed() && |an.loopOf| == |f.blocks| && load < |f.insts|
  {
    && sink < |f.insts| && !f.insts[sink].Terminator()
    && var l, s := f.insts[load].block, f.insts[sink].block;
      && an.loopOf[s] == an.loopOf[l]
      && (if s == l then load < sink else (s, l) in an.postDom)
      && !BarrierOnTheWay(f, load, sink)
  }

  /** The same on the graph: a guaranteed sink in the same loops, with no barrier on the way. */
  ghost predicate GoodSink(f: Fn, an: Analyses, load: nat, sink: nat)
    requires f.WellFormed() && load < |f.insts|
  {
    && sink < |f.insts| && !f.insts[sink].Terminator()
    && var l, s := f.insts[load].block, f.insts[sink].block;
      && (forall h :: InLoop(f, h, l) <==> InLoop(f, h, s))
      && (if s == l then load < sink else (s, l) in an.postDom)
      && !BarrierOnTheWay(f, load, sink)
  }

  lemma AcceptedIsGood(f: Fn, an: Analyses, load: nat, sink: nat)
    requires f.WellFormed() && LoopsOk(f, an.loopOf) && load < |f.insts|
    ensures Accepts(f, an, load, sink) <==> GoodSink(f, an, load, sink)
  {
    if sink < |f.insts| { InnermostDecides(f, an.loopOf, f.insts[sink].block, f.insts[load].block); }
  }

  ghost predicate UsersOk(f: Fn, users: seq<seq<nat>>) {
    && |users| == |f.insts|
    && forall v: nat, n: nat :: v < |users| ==> (n in users[v] <==> n < |f.insts| && v in f.insts[n].args)
  }

  method Accept(f: Fn, an: Analyses, load: nat, cand: nat) returns (yes: bool)
    requires f.WellFormed() && AnalysesOk(f, an) && load < |f.insts| && cand < |f.insts|
    ensures yes <==> Accepts(f, an, load, cand)
  {
    if f.insts[cand].Terminator() { return false; }
    var l, s := f.insts[load].block, f.insts[cand].block;
    if an.loopOf[s] != an.loopOf[l] { return false; }
    if if s == l then load < cand else (s, l) in an.postDom {
      var barrier := GuaranteedPathHasBarrier(f, load, cand);
      return !barrier;
    }
    return false;
  }

  lemma ExtendDerived(f: Fn, load: nat, v: nat, n: nat)
    requires Derived(f, load, v) && Uses(f, n, v, Pass)
    ensures Derived(f, load, n)
  {
    var chain: seq<nat> :| Chain(f, load, chain) && Last(chain) == v;
    var longer := chain + [n];
    forall k | 0 <= k < |longer| - 1 ensures Uses(f, longer[k + 1], longer[k], Pass) {
      if k < |chain| - 1 { assert Uses(f, chain[k + 1], chain[k], Pass); }
    }
    assert Chain(f, load, longer) && Last(longer) == n;
  }

  lemma {:induction false} ClosedHoldsChain(f: Fn, load: nat, seen: set<nat>, chain: seq<nat>, i: nat)
    requires Chain(f, load, chain) && i < |chain| && load in seen
    requires forall v, n :: v in seen && Uses(f, n, v, Pass) ==> n in seen
    ensures chain[i] in seen
  {
    if i > 0 {
      ClosedHoldsChain(f, load, seen, chain, i - 1);
      assert Uses(f, chain[i], chain[i - 1], Pass);
    }
  }

  /** User n of v has been dealt with. */
  ghost predicate Handled(f: Fn, an: Analyses, load: nat, v: nat, n: nat, seen: set<nat>)
    requires f.WellFormed() && |an.loopOf| == |f.blocks| && load < |f.insts|
  {
    (Uses(f, n, v, Pass) ==> n in seen) && (Uses(f, n, v, Sink) ==> !Accepts(f, an, load, n))
  }

  ghost predicate AllHandled(f: Fn, an: Analyses, load: nat, v: nat, seen: set<nat>)
    requires f.WellFormed() && |an.loopOf| == |f.blocks| && load < |f.insts|
  {
    forall n: nat :: Handled(f, an, load, v, n, seen)
  }

  /** The loop over the users of one value. */
  method VisitUsers(f: Fn, an: Analyses, users: seq<seq<nat>>, load: nat, v: nat, seen: set<nat>, wl: seq<nat>)
    returns (r: Option<nat>, seen1: set<nat>, wl1: seq<nat>)
    requires f.WellFormed() && AnalysesOk(f, an) && UsersOk(f, users)
    requires load < |f.insts| && v < |f.insts| && Derived(f, load, v)
    requires seen <= Below(|f.insts|)
    ensures seen <= seen1 <= Below(|f.insts|)
    ensures forall n :: n in seen1 && n !in seen ==> Derived(f, load, n)
    ensures forall n :: n in wl1 <==> n in wl || (n in seen1 && n !in seen)
    ensures seen1 == seen ==> wl1 == wl
    ensures r.Some? ==> Uses(f, r.value, v, Sink) && Accepts(f, an, load, r.value)
    ensures r.None? ==> AllHandled(f, an, load, v, seen1)
  {
    seen1, wl1 := seen, wl;
    for i := 0 to |users[v]|
      invariant seen <= seen1 <= Below(|f.insts|) && (seen1 == seen ==> wl1 == wl)
      invariant forall n :: n in seen1 && n !in seen ==> Derived(f, load, n)
      invariant forall n :: n in wl1 <==> n in wl || (n in seen1 && n !in seen)
      invariant forall k :: 0 <= k < i ==> Handled(f, an, load, v, users[v][k], seen1)
    {
      var n := users[v][i];
      assert n in users[v];
      assert n < |f.insts| && v in f.insts[n].args;
      match RoleOf(f.insts[n], v)
      case Sink =>
        var yes := Accept(f, an, load, n);
        if yes { return Some(n), seen1, wl1; }
      case Pass =>
        ExtendDerived(f, load, v, n);
        if n !in seen1 { seen1, wl1 := seen1 + {n}, wl1 + [n]; }
      case Ignore =>
    }
    forall n: nat ensures Handled(f, an, load, v, n, seen1) {
      if n in users[v] {
        var k :| 0 <= k < |users[v]| && users[v][k] == n;
        assert Handled(f, an, load, v, users[v][k], seen1);
      }
    }
    return None, seen1, wl1;
  }

  /** The visited values are computed from the load, and those off the list are dealt with. */
  ghost predicate Searched(f: Fn, an: Analyses, load: nat, seen: set<nat>, wl: seq<nat>)
    requires f.WellFormed() && |an.loopOf| == |f.blocks| && load < |f.insts|
  {
    && load in seen && seen <= Below(|f.insts|)
    && (forall v :: v in wl ==> v in seen)
    && (forall v :: v in seen ==> Derived(f, load, v))
    && (forall v :: v in seen ==> v in wl || AllHandled(f, an, load, v, seen))
  }

  lemma SearchedOneMore(f: Fn, an: Analyses, load: nat, seen: set<nat>, wl: seq<nat>, seen1: set<nat>, wl1: seq<nat>)
    requires f.WellFormed() && |an.loopOf| == |f.blocks| && load < |f.insts|
    requires Searched(f, an, load, seen, wl) && wl != [] && seen <= seen1 <= Below(|f.insts|)
    requires AllHandled(f, an, load, wl[|wl| - 1], seen1)
    requires forall n :: n in seen1 && n !in seen ==> Derived(f, load, n)
    requires forall n :: n in wl1 <==> n in wl[..|wl| - 1] || (n in seen1 && n !in seen)
    ensures Searched(f, an, load, seen1, wl1)
  {
    assert wl == wl[..|wl| - 1] + [wl[|wl| - 1]];
    forall u | u in seen1 ensures u in wl1 || AllHandled(f, an, load, u, seen1) {
      if u in seen && u !in wl { StillHandled(f, an, load, u, seen, seen1); }
    }
  }

  lemma SearchedIsAll(f: Fn, an: Analyses, load: nat, seen: set<nat>, s: nat)
    requires f.WellFormed() && |an.loopOf| == |f.blocks| && load < |f.insts|
    requires Searched(f, an, load, seen, []) && SinksLoad(f, load, s)
    ensures !Accepts(f, an, load, s)
  {
    var v :| Derived(f, load, v) && Uses(f, s, v, Sink);
    var chain: seq<nat> :| Chain(f, load, chain) && Last(chain) == v;
    forall u, n | u in seen && Uses(f, n, u, Pass) ensures n in seen { assert Handled(f, an, load, u, n, seen); }
    ClosedHoldsChain(f, load, seen, chain, |chain| - 1);
    assert Handled(f, an, load, v, s, seen);
  }

  /** `findSinkFor`: some acceptable sink of a value computed from the load, or none exists. */
  method FindSinkFor(f: Fn, an: Analyses, users: seq<seq<nat>>, load: nat) returns (r: Option<nat>)
    requires f.WellFormed() && AnalysesOk(f, an) && UsersOk(f, users) && load < |f.insts|
    ensures r.Some? ==> SinksLoad(f, load, r.value) && Accepts(f, an, load, r.value)
    ensures r.None? ==> forall s :: SinksLoad(f, load, s) ==> !Accepts(f, an, load, s)
    ensures LoopsOk(f, an.loopOf) ==>
      if r.Some? then GoodSink(f, an, load, r.value) else forall s :: SinksLoad(f, load, s) ==> !GoodSink(f, an, load, s)
  {
    var seen, wl := {load}, [load];
    assert Chain(f, load, [load]) && Last([load]) == load;
    while wl != []
      invariant Searched(f, an, load, seen, wl)
      decreases |Below(|f.insts|) - seen|, |wl|
    {
      var v := wl[|wl| - 1];
      assert v in wl;
      var found, seen1, wl1 := VisitUsers(f, an, users, load, v, seen, wl[..|wl| - 1]);
      if found.Some? {
        if LoopsOk(f, an.loopOf) { AcceptedIsGood(f, an, load, found.value); }
        return found;
      }
      SearchedOneMore(f, an, load, seen, wl, seen1, wl1);
      SmallerRest(Below(|f.insts|), seen, seen1);
      seen, wl := seen1, wl1;
    }
    forall s | SinksLoad(f, load, s)
      ensures !Accepts(f, an, load, s) && (LoopsOk(f, an.loopOf) ==> !GoodSink(f, an, load, s))
    {
      SearchedIsAll(f, an, load, seen, s);
      if LoopsOk(f, an.loopOf) { AcceptedIsGood(f, an, load, s); }
    }
    return None;
  }

  lemma StillHandled(f: Fn, an: Analyses, load: nat, v: nat, seen: set<nat>, seen1: set<nat>)
    requires f.WellFormed() && |an.loopOf| == |f.blocks| && load < |f.insts|
    requires AllHandled(f, an, load, v, seen) && seen <= seen1
    ensures AllHandled(f, an, load, v, seen1)
  {
    forall n: nat ensures Handled(f, an, load, v, n, seen1) { assert Handled(f, an, load, v, n, seen); }
  }

  // Runs.

  /** The blocks visited from the entry, the instruction the run stops at in the last one, and
      for every visit the shadow the load finds if it executes there. */
  datatype Run = Run(path: seq<nat>, stop: nat, poison: seq<bool>)

  /** A run stops at a barrier or at the end of a block without successors. */
  ghost predicate IsRun(f: Fn, r: Run)
    requires f.WellFormed()
  {
    && IsPath(f, r.path) && r.path[0] == 0 && |r.poison| == |r.path|
    && Last(r.path) < |f.blocks| && f.InBlock(Last(r.path), r.stop) && r.stop < |f.insts|
    && (f.insts[r.stop].barrier || (r.stop == f.blocks[Last(r.path)].end - 1 && f.blocks[Last(r.path)].succs == []))
  }

  /** Visit i gets to instruction n; it also gets past it. */
  ghost predicate Reaches(f: Fn, r: Run, i: nat, n: nat) {
    && i < |r.path| && n < |f.insts| && f.insts[n].block == r.path[i]
    && (i < |r.path| - 1 || n <= r.stop)
  }

  ghost predicate Passes(f: Fn, r: Run, i: nat, n: nat) {
    Reaches(f, r, i, n) && (i < |r.path| - 1 || n < r.stop)
  }

  /** At visit k the sink's check reads the shadow the load left at visit i: the load's latest. */
  ghost predicate Sees(f: Fn, r: Run, load: nat, sink: nat, i: nat, k: nat) {
    && Passes(f, r, i, load) && Reaches(f, r, k, sink) && i <= k && (i == k ==> load < sink)
    && forall m :: i < m <= k && m < |r.path| && r.path[m] == f.insts[load].block ==> m == k && sink < load
  }

  ghost predicate Tested(f: Fn, r: Run, load: nat, sink: nat, i: nat) {
    exists k :: Sees(f, r, load, sink, i, k)
  }

  /** From the load's block its own block can be reached again while avoiding the sink's. */
  ghost predicate Reenters(f: Fn, load: nat, sink: nat)
    requires load < |f.insts| && sink < |f.insts|
  {
    var l, s := f.insts[load].block, f.insts[sink].block;
    l != s && Between(f, l, s, l)
  }

  /** Visits after i that keep clear of the sink's block are between. */
  lemma VisitIsBetween(f: Fn, p: seq<nat>, i: nat, m: nat, s: nat)
    requires IsPath(f, p) && i < m < |p| && forall j :: i < j <= m ==> p[j] != s
    ensures Between(f, p[i], s, p[m])
  {
    TailIsPath(f, p, i + 1);
    PrefixIsPath(f, p[i + 1..], m - i);
    assert p[i + 1..][..m - i] == p[i + 1..m + 1];
    assert Edge(f, p[i], p[i + 1]);
    assert Around(f, p[i], s, p[i + 1..m + 1]) && Last(p[i + 1..m + 1]) == p[m];
  }

  lemma NextVisit(p: seq<nat>, i: nat, s: nat) returns (k: nat)
    requires i < |p| && s in p[i + 1..]
    ensures i < k < |p| && p[k] == s && forall j :: i < j < k ==> p[j] != s
  {
    k := i + 1;
    while p[k] != s
      invariant i < k < |p| && (forall j :: i < j < k ==> p[j] != s) && s in p[k..]
      decreases |p| - k
    {
      assert p[k..] == [p[k]] + p[k + 1..];
      k := k + 1;
    }
  }

  /** A run that passed the load in its last visit stops past lo .. hi if there is no barrier there. */
  lemma StopsBeyond(f: Fn, r: Run, lo: nat, hi: nat)
    requires f.WellFormed() && IsRun(f, r) && lo <= r.stop && !BarrierIn(f, lo, hi)
    requires hi < f.blocks[Last(r.path)].end
    ensures hi <= r.stop
  {
  }

  /** The run meets the sink's block after the load. */
  lemma MeetsSinkBlock(f: Fn, an: Analyses, load: nat, sink: nat, r: Run, i: nat)
    requires f.WellFormed() && AnalysesOk(f, an) && load < |f.insts| && Accepts(f, an, load, sink)
    requires IsRun(f, r) && Passes(f, r, i, load) && f.insts[load].block != f.insts[sink].block
    ensures f.insts[sink].block in r.path[i + 1..]
  {
    var l, s, n := f.insts[load].block, f.insts[sink].block, |r.path| - 1;
    assert f.BlockOk(l) && f.BlockOk(r.path[n]);
    TailIsPath(f, r.path, i);
    assert r.path[i..] == [l] + r.path[i + 1..];
    if !f.insts[r.stop].barrier {
      assert ExitPath(f, l, r.path[i..]);
    } else if i < n && s !in r.path[i + 1..] {
      forall j | i < j <= n ensures r.path[j] != s { assert r.path[i + 1..][j - i - 1] == r.path[j]; }
      VisitIsBetween(f, r.path, i, n, s);
    }
  }

  /** The run cannot stop before the sink. */
  lemma SinkIsReached(f: Fn, an: Analyses, load: nat, sink: nat, r: Run, i: nat) returns (k: nat)
    requires f.WellFormed() && AnalysesOk(f, an) && load < |f.insts| && Accepts(f, an, load, sink)
    requires IsRun(f, r) && Passes(f, r, i, load)
    ensures i <= k && Reaches(f, r, k, sink) && (i == k ==> load < sink)
    ensures forall m :: i < m < k ==> Between(f, f.insts[load].block, f.insts[sink].block, r.path[m])
    ensures f.insts[load].block == f.insts[sink].block ==> k == i
  {
    var l, s := f.insts[load].block, f.insts[sink].block;
    assert f.BlockOk(l) && f.BlockOk(s);
    if l == s {
      k := i;
      if i == |r.path| - 1 { StopsBeyond(f, r, load + 1, sink); }
    } else {
      MeetsSinkBlock(f, an, load, sink, r, i);
      k := NextVisit(r.path, i, s);
      forall m | i < m < k ensures Between(f, l, s, r.path[m]) {
        VisitIsBetween(f, r.path, i, m, s);
      }
      if k == |r.path| - 1 { StopsBeyond(f, r, f.blocks[s].first, sink); }
    }
  }

  /** No report is lost: if no path re-enters the load's block before the sink's block, every
      run that executes the load and stops later has tested that very shadow at the sink. */
  lemma EveryLoadIsTested(f: Fn, an: Analyses, load: nat, sink: nat, r: Run, i: nat)
    requires f.WellFormed() && AnalysesOk(f, an) && load < |f.insts| && Accepts(f, an, load, sink)
    requires !Reenters(f, load, sink)
    requires IsRun(f, r) && Passes(f, r, i, load)
    ensures Tested(f, r, load, sink, i)
  {
    var k := SinkIsReached(f, an, load, sink, r, i);
    assert Sees(f, r, load, sink, i, k);
  }

  // The check reads a shadow that exists.

  /** Static single assignment: operands are defined before their users; PHIs aside. */
  ghost predicate DefinedBeforeUse(f: Fn) {
    forall n, a :: 0 <= n < |f.insts| && a in f.insts[n].args && !f.insts[n].op.Merge? ==>
      a < |f.insts| && (if f.insts[a].block == f.insts[n].block then a < n else Dominates(f, f.insts[a].block, f.insts[n].block))
  }

  ghost predicate Computed(f: Fn, r: Run, v: nat, k: nat, at: nat, i: nat) {
    && i <= k < |r.path| && v < |f.insts| && r.path[i] == f.insts[v].block && (i == k ==> v < at)
  }

  lemma OperandComputed(f: Fn, r: Run, n: nat, a: nat, k: nat) returns (i: nat)
    requires f.WellFormed() && DefinedBeforeUse(f) && IsRun(f, r)
    requires k < |r.path| && n < |f.insts| && r.path[k] == f.insts[n].block && a in f.insts[n].args && !f.insts[n].op.Merge?
    ensures Computed(f, r, a, k, n, i)
  {
    if f.insts[a].block == f.insts[n].block {
      i := k;
    } else {
      var p := r.path[..k + 1];
      PrefixIsPath(f, r.path, k + 1);
      assert Last(p) == r.path[k];
      assert f.insts[a].block in p;
      i :| 0 <= i < |p| && p[i] == f.insts[a].block;
    }
  }

  lemma {:induction false} ChainComputed(f: Fn, r: Run, load: nat, chain: seq<nat>, k: nat, at: nat, i: nat) returns (j: nat)
    requires f.WellFormed() && DefinedBeforeUse(f) && IsRun(f, r)
    requires Chain(f, load, chain) && Computed(f, r, Last(chain), k, at, i)
    ensures Computed(f, r, load, k, at, j)
    decreases |chain|
  {
    if |chain| == 1 {
      j := i;
    } else {
      var shorter, n := chain[..|chain| - 1], Last(chain);
      assert Uses(f, n, Last(shorter), Pass);
      forall m | 0 <= m < |shorter| - 1 ensures Uses(f, shorter[m + 1], shorter[m], Pass) {
        assert Uses(f, chain[m + 1], chain[m], Pass);
      }
      var i1 := OperandComputed(f, r, n, Last(shorter), i);
      j := ChainComputed(f, r, load, shorter, k, at, i1);
    }
  }

  lemma LatestVisit(f: Fn, r: Run, load: nat, sink: nat, k: nat, j: nat) returns (i: nat)
    requires f.WellFormed() && load < |f.insts| && Reaches(f, r, k, sink) && load != sink && Computed(f, r, load, k, sink, j)
    ensures Sees(f, r, load, sink, i, k)
  {
    i := j;
    var m := j + 1;
    while m <= k
      invariant j <= i < m <= k + 1 && Computed(f, r, load, k, sink, i)
      invariant forall x :: i < x < m && r.path[x] == f.insts[load].block ==> x == k && sink < load
    {
      if r.path[m] == f.insts[load].block && (m == k ==> load < sink) { i := m; }
      m := m + 1;
    }
  }

  /** Nothing is invented: wherever the sink is reached, its check reads the shadow of exactly
      one executed load, so it fires just when that load's shadow was poisoned. */
  lemma CheckReadsOneLoad(f: Fn, an: Analyses, load: nat, sink: nat, r: Run, k: nat) returns (i: nat)
    requires f.WellFormed() && AnalysesOk(f, an) && DefinedBeforeUse(f) && load < |f.insts|
    requires SinksLoad(f, load, sink) && Accepts(f, an, load, sink) && IsRun(f, r) && Reaches(f, r, k, sink)
    ensures Sees(f, r, load, sink, i, k)
    ensures forall j :: Sees(f, r, load, sink, j, k) ==> j == i
  {
    var v :| Derived(f, load, v) && Uses(f, sink, v, Sink);
    var chain: seq<nat> :| Chain(f, load, chain) && Last(chain) == v;
    var i0 := OperandComputed(f, r, sink, v, k);
    var j := ChainComputed(f, r, load, chain, k, sink, i0);
    i := LatestVisit(f, r, load, sink, k, j);
  }

  // Exactly when nothing is lost.

  ghost predicate StopPath(f: Fn, b: nat, p: seq<nat>) {
    IsPath(f, p) && p[0] == b && Last(p) < |f.blocks| && (f.blocks[Last(p)].succs == [] || BlockHasBarrier(f, Last(p)))
  }

  ghost predicate CanStop(f: Fn, b: nat) {
    exists p: seq<nat> :: StopPath(f, b, p)
  }

  lemma StopPoint(f: Fn, p: seq<nat>) returns (stop: nat)
    requires f.WellFormed() && p != [] && StopPath(f, p[0], p)
    ensures f.InBlock(Last(p), stop) && stop < |f.insts|
    ensures f.insts[stop].barrier || (stop == f.blocks[Last(p)].end - 1 && f.blocks[Last(p)].succs == [])
  {
    var b := Last(p);
    assert f.BlockOk(b);
    if f.blocks[b].succs == [] {
      stop := f.blocks[b].end - 1;
    } else {
      stop :| f.blocks[b].first <= stop < f.blocks[b].end && stop < |f.insts| && f.insts[stop].barrier;
    }
  }

  /** A way back to the load's block around the sink's, between a way there and a way on, makes a
      run that loses a poisoned load. */
  lemma ReentryLosesALoadOn(f: Fn, load: nat, sink: nat, p: seq<nat>, t: seq<nat>, stop: nat) returns (r: Run, i: nat)
    requires f.WellFormed() && load < |f.insts| && sink < |f.insts| && Reenters(f, load, sink)
    requires EntryPath(f, f.insts[load].block, p)
    requires StopPath(f, f.insts[load].block, t) && f.InBlock(Last(t), stop) && stop < |f.insts|
    requires f.insts[stop].barrier || (stop == f.blocks[Last(t)].end - 1 && f.blocks[Last(t)].succs == [])
    ensures IsRun(f, r) && Passes(f, r, i, load) && !Tested(f, r, load, sink, i)
    ensures r.stop == stop && Last(r.path) == Last(t)
    ensures forall m :: 0 <= m < |r.path| ==> r.poison[m] == (m == i)
  {
    var l, s := f.insts[load].block, f.insts[sink].block;
    var q: seq<nat> :| Around(f, l, s, q) && Last(q) == l;
    JoinPaths(f, p, q);
    i := |p| - 1;
    var path := (p + q)[..|p + q| - 1] + t;
    SplicePath(f, p + q, t);
    r := Run(path, stop, seq(|path|, m requires 0 <= m => m == i));
    var back := |p + q| - 1;
    assert path[back] == l && path[i] == l;
    forall k: nat ensures !Sees(f, r, load, sink, i, k) {
      if i < k < back {
        assert path[k] == (p + q)[k] == q[k - |p|];
        assert q[k - |p|] in q;
      }
    }
  }

  /** Wherever the load's block can be re-entered so, some run loses a poisoned load. */
  lemma ReentryLosesALoad(f: Fn, load: nat, sink: nat) returns (r: Run, i: nat)
    requires f.WellFormed() && load < |f.insts| && sink < |f.insts| && Reenters(f, load, sink)
    requires Reachable(f, f.insts[load].block) && CanStop(f, f.insts[load].block)
    ensures IsRun(f, r) && Passes(f, r, i, load) && !Tested(f, r, load, sink, i)
    ensures forall m :: 0 <= m < |r.path| ==> r.poison[m] == (m == i)
  {
    var p: seq<nat> :| EntryPath(f, f.insts[load].block, p);
    var t: seq<nat> :| StopPath(f, f.insts[load].block, t);
    var stop := StopPoint(f, t);
    r, i := ReentryLosesALoadOn(f, load, sink, p, t, stop);
  }

  /** Deferring to another block loses no load, over all runs, exactly when no path gets back to
      the load's block before it has met the sink's block. */
  lemma NothingLostIffNoReentry(f: Fn, an: Analyses, load: nat, sink: nat)
    requires f.WellFormed() && AnalysesOk(f, an) && load < |f.insts| && Accepts(f, an, load, sink)
    requires Reachable(f, f.insts[load].block) && CanStop(f, f.insts[load].block)
    ensures (forall r, i :: IsRun(f, r) && Passes(f, r, i, load) ==> Tested(f, r, load, sink, i))
      <==> !Reenters(f, load, sink)
  {
    if Reenters(f, load, sink) {
      var r, i := ReentryLosesALoad(f, load, sink);
    } else {
      forall r, i | IsRun(f, r) && Passes(f, r, i, load) ensures Tested(f, r, load, sink, i) {
        EveryLoadIsTested(f, an, load, sink, r, i);
      }
    }
  }

  // The same-loop test is needed.

  /** From the header every block of the loop is reached inside the loop. */
  lemma HeadToMember(f: Fn, h: nat, b: nat) returns (p: seq<nat>)
    requires InLoop(f, h, b)
    ensures IsPath(f, p) && p[0] == h && Last(p) == b && forall j :: 0 <= j < |p| ==> InLoop(f, h, p[j])
  {
    HeadDominates(f, h, b);
    HeadIsInLoop(f, h, b);
    var q: seq<nat> :| EntryPath(f, b, q);
    var i := LastVisit(q, h);
    p := q[i..];
    TailIsPath(f, q, i);
    if b != h {
      var n :| BackEdge(f, n, h) && exists t: seq<nat> :: Clear(f, b, n, h, t);
      var t: seq<nat> :| Clear(f, b, n, h, t);
      forall j | 0 < j < |p| ensures InLoop(f, h, p[j]) {
        PrefixReaches(f, q, i + j);
        TailIsPath(f, q, i + j);
        SplicePath(f, q[i + j..], t);
        var way := q[i + j..][..|q[i + j..]| - 1] + t;
        assert Clear(f, p[j], n, h, way);
      }
    }
  }

  lemma LastVisit(q: seq<nat>, h: nat) returns (i: nat)
    requires h in q
    ensures i < |q| && q[i] == h && forall j :: i < j < |q| ==> q[j] != h
  {
    i := |q| - 1;
    while q[i] != h
      invariant i < |q| && h in q[..i + 1] && (forall j :: i < j < |q| ==> q[j] != h)
      decreases i
    {
      assert q[..i + 1] == q[..i] + [q[i]];
      i := i - 1;
    }
  }

  /** And from every block of the loop the header is reached inside it. */
  lemma MemberToHead(f: Fn, h: nat, b: nat) returns (p: seq<nat>)
    requires InLoop(f, h, b)
    ensures IsPath(f, p) && |p| > 1 && p[0] == b && Last(p) == h && forall j :: 0 <= j < |p| ==> InLoop(f, h, p[j])
  {
    HeadIsInLoop(f, h, b);
    var n :| BackEdge(f, n, h) && (b == h || exists t: seq<nat> :: Clear(f, b, n, h, t));
    var t: seq<nat>;
    if b != h {
      t :| Clear(f, b, n, h, t);
      forall j | 0 <= j < |t| ensures InLoop(f, h, t[j]) { ClearStaysInLoop(f, h, n, b, t, j); }
    } else if n == h {
      t := [h];
      PathInBlocksOf(f, h);
    } else {
      PathInBlocksOf(f, n);
      assert Clear(f, n, n, h, [n]);
      t := HeadToMember(f, h, n);
    }
    p := t + [h];
    PathInBlocksOf(f, h);
    JoinPaths(f, t, [h]);
  }

  lemma PathInBlocksOf(f: Fn, b: nat)
    requires b < |f.blocks|
    ensures IsPath(f, [b])
  {
  }

  /** A sink outside a loop that holds the load can be missed: the loop gets back to the load. */
  lemma SinkOutsideALoopReenters(f: Fn, h: nat, load: nat, sink: nat)
    requires load < |f.insts| && sink < |f.insts|
    requires InLoop(f, h, f.insts[load].block) && !InLoop(f, h, f.insts[sink].block)
    ensures Reenters(f, load, sink)
  {
    var l, s := f.insts[load].block, f.insts[sink].block;
    var back := MemberToHead(f, h, l);
    var on := HeadToMember(f, h, l);
    TailIsPath(f, back, 1);
    SplicePath(f, back[1..], on);
    var p := back[1..][..|back[1..]| - 1] + on;
    forall j | 0 <= j < |p| ensures p[j] != s {
      if j < |back| - 2 { assert p[j] == back[j + 1]; } else { assert p[j] == on[j - (|back| - 2)]; }
    }
    assert Edge(f, back[0], back[1]) && p[0] == back[1];
    assert Around(f, l, s, p) && Last(p) == l;
  }

  /** So the test is needed: whatever else holds of a sink, if it lies outside a loop around the load,
      some run loses a poisoned load. */
  lemma SinkOutsideALoopLosesALoad(f: Fn, h: nat, load: nat, sink: nat) returns (r: Run, i: nat)
    requires f.WellFormed() && load < |f.insts| && sink < |f.insts| && CanStop(f, f.insts[load].block)
    requires InLoop(f, h, f.insts[load].block) && !InLoop(f, h, f.insts[sink].block)
    ensures IsRun(f, r) && Passes(f, r, i, load) && r.poison[i] && !Tested(f, r, load, sink, i)
  {
    SinkOutsideALoopReenters(f, h, load, sink);
    r, i := ReentryLosesALoad(f, load, sink);
  }

  // It does not rule re-entry out.

  /** entry -> head; head -> skip, body; skip -> head; body -> head, exit. The load is in the
      head, behind a PHI that keeps what it found the time before; the store through it is in the
      body, and the PHI is returned. Head, skip and body are one loop. */
  function Loopy(): Fn {
    Fn([Inst(Branch, [], false, 0),
        Inst(Merge, [2], false, 1), Inst(Load, [], false, 1), Inst(Branch, [], false, 1),
        Inst(Branch, [], false, 2),
        Inst(Store, [2], false, 3), Inst(Branch, [], false, 3),
        Inst(Return, [1], true, 4)],
       [Blk(0, 1, [1]), Blk(1, 4, [2, 3]), Blk(4, 5, [1]), Blk(5, 7, [1, 4]), Blk(7, 8, [])])
  }

  function LoopyAnalyses(): Analyses { Analyses([None, Some(1), Some(1), Some(1), None], {(3, 1)}) }

  lemma {:induction false} BodyPostDominatesHead(p: seq<nat>)
    requires IsPath(Loopy(), p) && p[0] in {1, 2} && Last(p) == 4
    ensures 3 in p
    decreases |p|
  {
    assert Edge(Loopy(), p[0], p[1]);
    if p[1] != 3 {
      TailIsPath(Loopy(), p, 1);
      BodyPostDominatesHead(p[1..]);
    }
  }

  lemma {:induction false} OnlySkipBetween(p: seq<nat>, i: nat)
    requires Around(Loopy(), 1, 3, p) && i < |p|
    ensures p[i] in {1, 2}
  {
    assert p[i] in p;
    if i > 0 {
      OnlySkipBetween(p, i - 1);
      assert Edge(Loopy(), p[i - 1], p[i]);
    }
  }

  lemma LoopyBlockOk(b: nat)
    requires b < 5
    ensures Loopy().BlockOk(b)
  {
  }

  lemma LoopyWellFormed()
    ensures Loopy().WellFormed()
  {
    forall b: nat | b < 5 ensures Loopy().BlockOk(b) { LoopyBlockOk(b); }
  }

  lemma LoopyAnalysesOk()
    ensures AnalysesOk(Loopy(), LoopyAnalyses())
  {
    forall p: seq<nat> | ExitPath(Loopy(), 1, p) ensures 3 in p {
      PathInBlocks(Loopy(), p, |p| - 1);
      BodyPostDominatesHead(p);
    }
  }

  lemma LoopyNoBarrier()
    requires Loopy().WellFormed()
    ensures !BarrierOnTheWay(Loopy(), 2, 5)
  {
    var f := Loopy();
    forall b | Between(f, 1, 3, b) ensures !BlockHasBarrier(f, b) {
      var p: seq<nat> :| Around(f, 1, 3, p) && Last(p) == b;
      OnlySkipBetween(p, |p| - 1);
    }
    assert !BarrierIn(f, 3, 4) && !BarrierIn(f, 5, 5);
  }

  lemma LoopyAccepts()
    ensures Loopy().WellFormed() && AnalysesOk(Loopy(), LoopyAnalyses())
    ensures SinksLoad(Loopy(), 2, 5) && Accepts(Loopy(), LoopyAnalyses(), 2, 5)
  {
    LoopyWellFormed();
    LoopyAnalysesOk();
    LoopyNoBarrier();
    assert Chain(Loopy(), 2, [2]) && Last([2]) == 2 && Uses(Loopy(), 5, 2, Sink);
  }

  /** Every way into the loop goes through its header. */
  lemma {:induction false} HeadComesFirst(p: seq<nat>)
    requires IsPath(Loopy(), p) && p[0] == 0 && Last(p) in {1, 2, 3}
    ensures 1 in p
  {
    assert Edge(Loopy(), p[0], p[1]);
  }

  lemma LoopyPaths()
    ensures EntryPath(Loopy(), 0, [0]) && EntryPath(Loopy(), 1, [0, 1])
    ensures EntryPath(Loopy(), 2, [0, 1, 2]) && EntryPath(Loopy(), 3, [0, 1, 3])
    ensures Reachable(Loopy(), 1) && Reachable(Loopy(), 2) && Reachable(Loopy(), 3)
  {
    assert Edge(Loopy(), 0, 1) && Edge(Loopy(), 1, 2) && Edge(Loopy(), 1, 3);
  }

  lemma LoopyBackEdges(n: nat, h: nat)
    ensures BackEdge(Loopy(), n, h) <==> h == 1 && n in {2, 3}
  {
    var f := Loopy();
    LoopyPaths();
    if h == 1 && n in {2, 3} {
      forall p: seq<nat> | EntryPath(f, n, p) ensures 1 in p { HeadComesFirst(p); }
    } else if BackEdge(f, n, h) {
      assert false;
    }
  }

  lemma ExitIsLast(p: seq<nat>)
    requires IsPath(Loopy(), p) && p[0] == 4
    ensures |p| == 1
  {
    assert |p| > 1 ==> Edge(Loopy(), p[0], p[1]);
  }

  lemma LoopyMembers(h: nat, b: nat)
    requires b < 5
    ensures InLoop(Loopy(), h, b) <==> h == 1 && b in {1, 2, 3}
  {
    var f := Loopy();
    LoopyPaths();
    forall n: nat { LoopyBackEdges(n, h); }
    if h == 1 && b in {2, 3} {
      assert BackEdge(f, b, 1) && Clear(f, b, b, 1, [b]);
    } else if h == 1 && b == 1 {
      assert BackEdge(f, 2, 1);
    } else if InLoop(f, h, b) {
      var n :| BackEdge(f, n, h) && (b == h || exists p: seq<nat> :: Clear(f, b, n, h, p));
      var p: seq<nat> :| Clear(f, b, n, h, p);
      if b == 0 { HeadComesFirst(p); } else { ExitIsLast(p); }
    }
  }

  lemma LoopyLoops()
    ensures LoopsOk(Loopy(), LoopyAnalyses().loopOf)
  {
    forall b: nat, h: nat | b < 5 { LoopyMembers(h, b); }
    forall h: nat { LoopyMembers(h, 1); }
  }

  /** The pass accepts the store as the load's sink, yet a run loses a poisoned load. */
  lemma SameLoopTestIsNotEnough() returns (r: Run, i: nat)
    ensures Loopy().WellFormed() && AnalysesOk(Loopy(), LoopyAnalyses()) && LoopsOk(Loopy(), LoopyAnalyses().loopOf)
    ensures SinksLoad(Loopy(), 2, 5) && Accepts(Loopy(), LoopyAnalyses(), 2, 5)
    ensures IsRun(Loopy(), r) && Passes(Loopy(), r, i, 2) && r.poison[i] && !Tested(Loopy(), r, 2, 5, i)
  {
    LoopyAccepts();
    LoopyLoops();
    LoopyReenters();
    var f := Loopy();
    assert IsPath(f, [0, 1]) && Last([0, 1]) == 1;
    assert StopPath(f, 1, [1, 3, 4]);
    r, i := ReentryLosesALoad(f, 2, 5);
  }

  lemma LoopyReenters()
    ensures Reenters(Loopy(), 2, 5)
    ensures Edge(Loopy(), 0, 1) && Edge(Loopy(), 1, 2) && Edge(Loopy(), 2, 1) && Edge(Loopy(), 1, 3) && Edge(Loopy(), 3, 4)
  {
    var f := Loopy();
    assert Edge(f, 0, 1) && Edge(f, 1, 2) && Edge(f, 2, 1) && Edge(f, 1, 3) && Edge(f, 3, 4);
    assert Around(f, 1, 3, [2, 1]) && Last([2, 1]) == 1;
  }

  // The remapping of the whole list.

  datatype Check = Check(shadow: nat, orig: nat, essential: bool)

  ghost predicate Deferred(f: Fn, an: Analyses, c: Check, d: Check)
    requires f.WellFormed() && |an.loopOf| == |f.blocks| && c.orig < |f.insts|
  {
    && d.shadow == c.shadow && d.essential == c.essential
    && (d.orig == c.orig || (SinksLoad(f, c.orig, d.orig) && Accepts(f, an, c.orig, d.orig)))
    && (c.essential || !f.insts[c.orig].op.Load? ==> d.orig == c.orig)
    && (!c.essential && f.insts[c.orig].op.Load? && d.orig == c.orig ==>
          forall s :: SinksLoad(f, c.orig, s) ==> !Accepts(f, an, c.orig, s))
  }

  /** Every deferrable load check moves to a sink the search accepts, if there is one. */
  method DeferToSinks(f: Fn, an: Analyses, users: seq<seq<nat>>, list: array<Check>)
    requires f.WellFormed() && AnalysesOk(f, an) && UsersOk(f, users)
    requires forall i :: 0 <= i < list.Length ==> list[i].orig < |f.insts|
    modifies list
    ensures forall i :: 0 <= i < list.Length ==> Deferred(f, an, old(list[i]), list[i])
  {
    for k := 0 to list.Length
      invariant forall i :: 0 <= i < k ==> Deferred(f, an, old(list[i]), list[i])
      invariant forall i :: k <= i < list.Length ==> list[i] == old(list[i])
    {
      var c := list[k];
      if !c.essential && f.insts[c.orig].op.Load? {
        var s := FindSinkFor(f, an, users, c.orig);
        if s.Some? { list[k] := c.(orig := s.value); }
      }
    }
  }

  /** One past the last check of a site. */
  function LastOf(s: seq<Check>, orig: nat): (k: nat)
    ensures k <= |s| && (k > 0 ==> s[k - 1].orig == orig)
    ensures forall j :: k <= j < |s| ==> s[j].orig != orig
  {
    if s == [] then 0 else if s[|s| - 1].orig == orig then |s| else LastOf(s[..|s| - 1], orig)
  }

  /** Behind the checks of the same site, or at the end. */
  function Place(s: seq<Check>, orig: nat): (k: nat)
    ensures k <= |s|
  {
    if LastOf(s, orig) == 0 then |s| else LastOf(s, orig)
  }

  function Insert(s: seq<Check>, c: Check): seq<Check> {
    s[..Place(s, c.orig)] + [c] + s[Place(s, c.orig)..]
  }

  /** The checks of one site, in list order. */
  function Of(s: seq<Check>, orig: nat): seq<Check> {
    if s == [] then [] else Of(s[..|s| - 1], orig) + (if s[|s| - 1].orig == orig then [s[|s| - 1]] else [])
  }

  function FirstOf(s: seq<Check>, orig: nat): (k: nat)
    ensures k <= |s| && (k < |s| ==> s[k].orig == orig) && forall j :: 0 <= j < k ==> s[j].orig != orig
  {
    if s == [] then 0 else if FirstOf(s[..|s| - 1], orig) < |s| - 1 then FirstOf(s[..|s| - 1], orig)
    else if s[|s| - 1].orig == orig then |s| - 1 else |s|
  }

  /** Where the list first mentions the sites of some checks. */
  ghost function Ranks(list: seq<Check>, s: seq<Check>): (r: seq<nat>)
    ensures |r| == |s| && forall i :: 0 <= i < |s| ==> r[i] == FirstOf(list, s[i].orig)
  {
    if s == [] then [] else Ranks(list, s[..|s| - 1]) + [FirstOf(list, s[|s| - 1].orig)]
  }

  ghost predicate Ascending(r: seq<nat>) { forall i, j :: 0 <= i < j < |r| ==> r[i] <= r[j] }

  /** The same checks, each site's in list order, sites in the order the list first mentions them. */
  ghost predicate Grouped(list: seq<Check>, s: seq<Check>) {
    && (forall orig :: Of(s, orig) == Of(list, orig))
    && (forall i :: 0 <= i < |s| ==> FirstOf(list, s[i].orig) < |list|)
    && Ascending(Ranks(list, s))
  }

  lemma FirstOfDiffers(list: seq<Check>, a: nat, b: nat)
    requires a != b && FirstOf(list, a) < |list|
    ensures FirstOf(list, a) != FirstOf(list, b)
  {
  }

  lemma {:induction false} OfAppend(s: seq<Check>, t: seq<Check>, orig: nat)
    ensures Of(s + t, orig) == Of(s, orig) + Of(t, orig)
  {
    if t == [] {
      assert s + t == s;
    } else {
      OfAppend(s, t[..|t| - 1], orig);
      assert (s + t)[..|s + t| - 1] == s + t[..|t| - 1];
    }
  }

  lemma {:induction false} OfNone(s: seq<Check>, orig: nat)
    requires forall j :: 0 <= j < |s| ==> s[j].orig != orig
    ensures Of(s, orig) == []
  {
    if s != [] { OfNone(s[..|s| - 1], orig); }
  }

  lemma OfThree(s: seq<Check>, c: Check, t: seq<Check>, orig: nat)
    ensures Of(s + [c] + t, orig) == Of(s, orig) + (if c.orig == orig then [c] else []) + Of(t, orig)
  {
    assert Of([c], orig) == if c.orig == orig then [c] else [];
    OfAppend(s + [c], t, orig);
    OfAppend(s, [c], orig);
  }

  lemma InsertOf(s: seq<Check>, c: Check, orig: nat)
    ensures Of(Insert(s, c), orig) == Of(s, orig) + (if c.orig == orig then [c] else [])
  {
    var k := Place(s, c.orig);
    OfThree(s[..k], c, s[k..], orig);
    OfAppend(s[..k], s[k..], orig);
    assert s == s[..k] + s[k..];
    if c.orig == orig { OfNone(s[k..], orig); }
  }

  lemma FirstOfMore(list: seq<Check>, c: Check, orig: nat)
    ensures FirstOf(list + [c], orig) ==
      if FirstOf(list, orig) < |list| then FirstOf(list, orig) else if c.orig == orig then |list| else |list| + 1
  {
    assert (list + [c])[..|list|] == list;
  }

  lemma InsertGroups(list: seq<Check>, s: seq<Check>, c: Check)
    requires Grouped(list, s)
    ensures Grouped(list + [c], Insert(s, c))
  {
    var t, k := Insert(s, c), LastOf(s, c.orig);
    forall orig: nat ensures Of(t, orig) == Of(list + [c], orig) {
      InsertOf(s, c, orig);
      OfAppend(list, [c], orig);
      assert Of([c], orig) == if c.orig == orig then [c] else [];
    }
    if k == 0 { NotYet(list, s, c.orig); }
    InsertSorted(list, s, c);
    InsertListed(list, s, c);
  }

  /** A site without a check in the groups has none in the list. */
  lemma {:induction false} NotYet(list: seq<Check>, s: seq<Check>, orig: nat)
    requires Of(s, orig) == Of(list, orig) && LastOf(s, orig) == 0
    ensures FirstOf(list, orig) == |list|
  {
    OfNone(s, orig);
    OfSome(list, orig);
  }

  lemma {:induction false} OfSome(s: seq<Check>, orig: nat)
    ensures Of(s, orig) != [] <==> FirstOf(s, orig) < |s|
  {
    if s != [] { OfSome(s[..|s| - 1], orig); }
  }

  lemma AscendingInsert(r: seq<nat>, at: nat, x: nat)
    requires Ascending(r) && at <= |r|
    requires (at > 0 ==> r[at - 1] <= x) && (at < |r| ==> x <= r[at])
    ensures Ascending(r[..at] + [x] + r[at..])
  {
  }

  lemma RanksStay(list: seq<Check>, s: seq<Check>, c: Check)
    requires forall i :: 0 <= i < |s| ==> FirstOf(list, s[i].orig) < |list|
    ensures Ranks(list + [c], s) == Ranks(list, s)
  {
    forall i | 0 <= i < |s| ensures FirstOf(list + [c], s[i].orig) == FirstOf(list, s[i].orig) { FirstOfMore(list, c, s[i].orig); }
  }

  lemma RanksOfInsert(list: seq<Check>, s: seq<Check>, c: Check, at: nat)
    requires at <= |s|
    ensures Ranks(list, s[..at] + [c] + s[at..]) == Ranks(list, s)[..at] + [FirstOf(list, c.orig)] + Ranks(list, s)[at..]
  {
  }

  lemma RankAtPlace(list: seq<Check>, s: seq<Check>, c: Check)
    requires Ascending(Ranks(list, s)) && (forall i :: 0 <= i < |s| ==> FirstOf(list, s[i].orig) < |list|)
    requires LastOf(s, c.orig) == 0 ==> FirstOf(list, c.orig) == |list|
    ensures var at, x := Place(s, c.orig), FirstOf(list + [c], c.orig);
      (at > 0 ==> Ranks(list, s)[at - 1] <= x) && (at < |s| ==> x <= Ranks(list, s)[at])
  {
    var k, r := LastOf(s, c.orig), Ranks(list, s);
    FirstOfMore(list, c, c.orig);
    if k > 0 { assert s[k - 1].orig == c.orig && r[k - 1] == FirstOf(list, c.orig); }
  }

  lemma InsertSorted(list: seq<Check>, s: seq<Check>, c: Check)
    requires Ascending(Ranks(list, s)) && (forall i :: 0 <= i < |s| ==> FirstOf(list, s[i].orig) < |list|)
    requires LastOf(s, c.orig) == 0 ==> FirstOf(list, c.orig) == |list|
    ensures Ascending(Ranks(list + [c], Insert(s, c)))
  {
    var at := Place(s, c.orig);
    RankAtPlace(list, s, c);
    RanksStay(list, s, c);
    AscendingInsert(Ranks(list, s), at, FirstOf(list + [c], c.orig));
    RanksOfInsert(list + [c], s, c, at);
  }

  lemma InsertListed(list: seq<Check>, s: seq<Check>, c: Check)
    requires forall i :: 0 <= i < |s| ==> FirstOf(list, s[i].orig) < |list|
    ensures forall i :: 0 <= i < |Insert(s, c)| ==> FirstOf(list + [c], Insert(s, c)[i].orig) < |list + [c]|
  {
    forall i | 0 <= i < |Insert(s, c)| ensures FirstOf(list + [c], Insert(s, c)[i].orig) < |list + [c]| {
      FirstOfMore(list, c, Insert(s, c)[i].orig);
      assert Insert(s, c)[i] in s || Insert(s, c)[i] == c;
    }
  }

  /** Checks of one site stand together, as the code that emits them needs it. */
  lemma GroupedTogether(list: seq<Check>, s: seq<Check>, i: nat, j: nat, k: nat)
    requires Grouped(list, s) && i <= j <= k < |s| && s[i].orig == s[k].orig
    ensures s[j].orig == s[i].orig
  {
    assert Ranks(list, s)[i] <= Ranks(list, s)[j] <= Ranks(list, s)[k];
    if s[j].orig != s[i].orig { FirstOfDiffers(list, s[i].orig, s[j].orig); }
  }

  method GroupByOrigIns(list: seq<Check>) returns (grouped: seq<Check>)
    ensures Grouped(list, grouped)
  {
    grouped := [];
    for i := 0 to |list|
      invariant Grouped(list[..i], grouped)
    {
      assert list[..i + 1] == list[..i] + [list[i]];
      InsertGroups(list[..i], grouped, list[i]);
      grouped := Insert(grouped, list[i]);
    }
    assert list[..|list|] == list;
  }
}
