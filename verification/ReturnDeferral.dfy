/** Dropped return checks and deferred load checks together (CompilerQEMUMemorySanitizer.cpp,
    filterPendingReturnChecks and the remapping to sinks in runOnFunction). A return check is
    dropped because the loads behind its shadow have checks of their own, but a load's check may
    have moved to a sink that tests a later load instead. */
module ReturnDeferral {
  import D = SinkDeferral
  import R = ReturnFilter

  /** The shadow instructions of a function, numbered in program order: what each computes, in
      which block, for which load, and for a PHI the block each operand comes from. */
  datatype Shadows = Shadows(g: seq<R.Node>, block: seq<nat>, load: seq<nat>, from: seq<seq<nat>>) {
    predicate IsPhi(n: nat) { n < |g| && g[n].Transfer? && g[n].op.Phi? }

    predicate IsLoad(n: nat) { n < |g| && g[n].CheckedLoad? }
  }

  ghost predicate ShadowsOk(f: D.Fn, sh: Shadows)
    requires f.WellFormed()
  {
    && R.WellFormed(sh.g) && |sh.block| == |sh.load| == |sh.from| == |sh.g|
    && forall n: nat :: n < |sh.g| ==> ShadowOk(f, sh, n)
  }

  ghost predicate ShadowOk(f: D.Fn, sh: Shadows, n: nat)
    requires n < |sh.g| == |sh.block| == |sh.load| == |sh.from|
  {
    && sh.block[n] < |f.blocks|
    && (sh.IsLoad(n) ==>
          sh.load[n] < |f.insts| && f.insts[sh.load[n]].op.Load? && f.insts[sh.load[n]].block == sh.block[n])
    && (sh.IsPhi(n) ==>
          && |sh.from[n]| == |sh.g[n].operands|
          && forall a: nat :: a in sh.from[n] <==> D.Edge(f, a, sh.block[n]))
  }

  /** A run with the words that loads and unknown instructions produce in each visit. */
  datatype Run = Run(walk: D.Run, words: seq<seq<R.Word>>)

  ghost predicate IsRun(f: D.Fn, sh: Shadows, run: Run)
    requires f.WellFormed()
  {
    && D.IsRun(f, run.walk) && |run.words| == |run.walk.path|
    && forall m :: 0 <= m < |run.words| ==> |run.words[m]| == |sh.g|
  }

  ghost predicate Returns(f: D.Fn, run: Run) {
    && run.walk.stop < |f.insts| && f.insts[run.walk.stop].op.Return?
    && run.walk.path != [] && D.Last(run.walk.path) < |f.blocks| && f.blocks[D.Last(run.walk.path)].succs == []
  }

  function IndexOf(s: seq<nat>, x: nat): (k: nat)
    requires x in s
    ensures k < |s| && s[k] == x
  {
    if s[0] == x then 0 else 1 + IndexOf(s[1..], x)
  }

  /** The PHIs of a block take the values they had at the end of the block before. */
  ghost function PhiEnv(sh: Shadows, env: R.Env, b: nat, prev: nat): R.Env
    requires |sh.block| == |sh.from| == |sh.g|
  {
    env + map n: nat | n < |sh.g| && sh.IsPhi(n) && sh.block[n] == b ::
            if prev in sh.from[n] then R.Operand(sh.g, env, n, IndexOf(sh.from[n], prev)) else 0
  }

  ghost function WordOf(sh: Shadows, env: R.Env, n: nat, words: seq<R.Word>): R.Word
    requires n < |sh.g| == |words|
  {
    if sh.g[n].Transfer? then
      R.Eval(sh.g[n].op, R.Operand(sh.g, env, n, 0), R.Operand(sh.g, env, n, 1), R.Operand(sh.g, env, n, 2))
    else words[n]
  }

  /** The other instructions of a block, one after the other. */
  ghost function RestEnv(sh: Shadows, env: R.Env, b: nat, words: seq<R.Word>, n: nat): R.Env
    requires |sh.block| == |sh.g| == |words| && n <= |sh.g|
  {
    if n == 0 then env
    else
      var e := RestEnv(sh, env, b, words, n - 1);
      if sh.block[n - 1] != b || sh.IsPhi(n - 1) || sh.g[n - 1].Constant? then e
      else e[n - 1 := WordOf(sh, e, n - 1, words)]
  }

  /** One visit of a block; the entry block has no PHIs to evaluate. */
  ghost function Visit(sh: Shadows, env: R.Env, path: seq<nat>, m: nat, words: seq<R.Word>): R.Env
    requires |sh.block| == |sh.from| == |sh.g| == |words| && m < |path|
  {
    RestEnv(sh, if m == 0 then env else PhiEnv(sh, env, path[m], path[m - 1]), path[m], words, |words|)
  }

  /** What the shadows hold after the first m visits. */
  ghost function EnvAt(f: D.Fn, sh: Shadows, run: Run, m: nat): R.Env
    requires f.WellFormed() && ShadowsOk(f, sh) && IsRun(f, sh, run) && m <= |run.walk.path|
  {
    if m == 0 then map[] else Visit(sh, EnvAt(f, sh, run, m - 1), run.walk.path, m - 1, run.words[m - 1])
  }

  ghost function Shown(sh: Shadows, env: R.Env, s: nat): R.Word {
    if R.Available(sh.g, env, s) then R.Value(sh.g, env, s) else 0
  }

  /** The returned shadow at the end of a run is poisoned. */
  ghost predicate ReturnsPoison(f: D.Fn, sh: Shadows, run: Run, s: nat)
    requires f.WellFormed()
  {
    && ShadowsOk(f, sh) && s < |sh.g| && IsRun(f, sh, run) && Returns(f, run)
    && Shown(sh, EnvAt(f, sh, run, |run.walk.path|), s) != 0
  }

  ghost predicate Dropped(f: D.Fn, sh: Shadows, s: nat)
    requires f.WellFormed()
  {
    ShadowsOk(f, sh) && s < |sh.g| && !R.MayCarryUndef(sh.g, s, {}).0
  }

  // Where the checks of the loads are.

  /** `moved` holds the sinks of the loads whose checks were deferred. */
  ghost predicate MovedOk(f: D.Fn, an: D.Analyses, moved: map<nat, nat>)
    requires f.WellFormed() && D.AnalysesOk(f, an)
  {
    forall load :: load in moved ==>
      load < |f.insts| && f.insts[load].op.Load? && D.SinksLoad(f, load, moved[load]) && D.Accepts(f, an, load, moved[load])
  }

  /** Visit m executes the load of node n and finds poison there. */
  ghost predicate FindsPoison(sh: Shadows, run: Run, m: nat, n: nat) {
    && m < |run.walk.path| && m < |run.words| && n < |run.words[m]| && n < |sh.block|
    && sh.IsLoad(n) && sh.block[n] == run.walk.path[m] && run.words[m][n] != 0
  }

  /** Some load finds poison and its check sees that very word, at the load or at its sink. */
  ghost predicate Reported(f: D.Fn, sh: Shadows, moved: map<nat, nat>, run: Run) {
    exists m: nat, n: nat :: FindsPoison(sh, run, m, n) && n < |sh.load|
      && (sh.load[n] in moved ==> D.Tested(f, run.walk, sh.load[n], moved[sh.load[n]], m))
  }

  // What a poisoned return shadow means.

  ghost predicate OperandPath(g: seq<R.Node>, s: nat, path: seq<nat>) {
    && path != [] && path[0] == s && (forall i :: 0 <= i < |path| ==> path[i] < |g|)
    && forall i :: 0 <= i < |path| - 1 ==> g[path[i]].Transfer? && path[i + 1] in g[path[i]].operands
  }

  /** The shadow n is behind the shadow s. */
  ghost predicate Behind(g: seq<R.Node>, s: nat, n: nat) {
    exists path :: OperandPath(g, s, path) && path[|path| - 1] == n
  }

  ghost predicate Closed(g: seq<R.Node>, inside: set<nat>) {
    forall n: nat :: n in inside ==> n < |g| && R.Harmless(g, n, inside)
  }

  lemma BehindIsClosed(g: seq<R.Node>, s: nat) returns (inside: set<nat>)
    requires R.WellFormed(g) && s < |g| && !R.MayCarryUndef(g, s, {}).0
    ensures s in inside && Closed(g, inside) && forall n: nat :: n in inside ==> Behind(g, s, n)
  {
    inside := set n: nat | n < |g| && Behind(g, s, n);
    assert OperandPath(g, s, [s]) && [s][0] == s;
    R.SearchIsExact(g, s);
    forall n: nat | n in inside ensures R.Harmless(g, n, inside) {
      var path :| OperandPath(g, s, path) && path[|path| - 1] == n;
      assert !R.BadPath(g, s, path);
      if g[n].Transfer? {
        forall k | 0 <= k < |g[n].operands| ensures g[n].operands[k] in inside {
          var more := path + [g[n].operands[k]];
          assert OperandPath(g, s, more) && more[|more| - 1] == g[n].operands[k];
        }
      }
    }
  }

  lemma CleanOperand(g: seq<R.Node>, env: R.Env, inside: set<nat>, n: nat, k: nat)
    requires Closed(g, inside) && R.AllClean(g, env, inside) && n in inside && g[n].Transfer?
    ensures R.Operand(g, env, n, k) == 0
  {
    assert R.Harmless(g, n, inside);
    if k < |g[n].operands| { assert g[n].operands[k] in inside && R.Harmless(g, g[n].operands[k], inside); }
  }

  lemma CleanPhis(sh: Shadows, env: R.Env, b: nat, prev: nat, inside: set<nat>)
    requires |sh.block| == |sh.from| == |sh.g| && Closed(sh.g, inside) && R.AllClean(sh.g, env, inside)
    ensures R.AllClean(sh.g, PhiEnv(sh, env, b, prev), inside)
  {
    forall n: nat | n in inside && n in PhiEnv(sh, env, b, prev) ensures PhiEnv(sh, env, b, prev)[n] == 0 {
      if sh.IsPhi(n) && sh.block[n] == b && prev in sh.from[n] {
        CleanOperand(sh.g, env, inside, n, IndexOf(sh.from[n], prev));
      }
    }
  }

  lemma CleanWord(sh: Shadows, env: R.Env, n: nat, words: seq<R.Word>, inside: set<nat>)
    requires n < |sh.g| == |words| && Closed(sh.g, inside) && R.AllClean(sh.g, env, inside) && n in inside
    requires !sh.g[n].Constant? && (sh.IsLoad(n) ==> words[n] == 0)
    ensures WordOf(sh, env, n, words) == 0
  {
    assert R.Harmless(sh.g, n, inside);
    if sh.g[n].Transfer? {
      CleanOperand(sh.g, env, inside, n, 0);
      CleanOperand(sh.g, env, inside, n, 1);
      CleanOperand(sh.g, env, inside, n, 2);
      R.ZeroStaysZero(sh.g[n].op);
    }
  }

  lemma CleanUpdate(g: seq<R.Node>, env: R.Env, inside: set<nat>, n: nat, w: R.Word)
    requires R.AllClean(g, env, inside) && (n in inside ==> w == 0)
    ensures R.AllClean(g, env[n := w], inside)
  {
  }

  lemma {:induction false} CleanRest(sh: Shadows, env: R.Env, b: nat, words: seq<R.Word>, n: nat, inside: set<nat>)
    requires |sh.block| == |sh.g| == |words| && n <= |sh.g| && Closed(sh.g, inside) && R.AllClean(sh.g, env, inside)
    requires forall k: nat :: k in inside && sh.IsLoad(k) && sh.block[k] == b ==> words[k] == 0
    ensures R.AllClean(sh.g, RestEnv(sh, env, b, words, n), inside)
  {
    if n > 0 {
      CleanRest(sh, env, b, words, n - 1, inside);
      var e := RestEnv(sh, env, b, words, n - 1);
      if sh.block[n - 1] == b && !sh.IsPhi(n - 1) && !sh.g[n - 1].Constant? {
        if n - 1 in inside { CleanWord(sh, e, n - 1, words, inside); }
        CleanUpdate(sh.g, e, inside, n - 1, WordOf(sh, e, n - 1, words));
      }
    }
  }

  ghost predicate NoneFound(sh: Shadows, run: Run, inside: set<nat>, m: nat) {
    forall k: nat, n: nat :: k < m && n in inside ==> !FindsPoison(sh, run, k, n)
  }

  lemma {:induction false} CleanUntilFound(f: D.Fn, sh: Shadows, run: Run, inside: set<nat>, m: nat)
    requires f.WellFormed() && ShadowsOk(f, sh) && IsRun(f, sh, run) && m <= |run.walk.path|
    requires Closed(sh.g, inside) && NoneFound(sh, run, inside, m)
    ensures R.AllClean(sh.g, EnvAt(f, sh, run, m), inside)
  {
    if m > 0 {
      CleanUntilFound(f, sh, run, inside, m - 1);
      var env, b := EnvAt(f, sh, run, m - 1), run.walk.path[m - 1];
      assert |run.words[m - 1]| == |sh.g|;
      if m > 1 { CleanPhis(sh, env, b, run.walk.path[m - 2], inside); }
      var start := if m == 1 then env else PhiEnv(sh, env, b, run.walk.path[m - 2]);
      forall n: nat | n in inside && sh.IsLoad(n) && sh.block[n] == b ensures run.words[m - 1][n] == 0 {
        assert !FindsPoison(sh, run, m - 1, n);
      }
      CleanRest(sh, start, b, run.words[m - 1], |sh.g|, inside);
    }
  }

  /** A poisoned word behind a dropped check was found by some load behind it. */
  lemma PoisonWasFound(f: D.Fn, sh: Shadows, run: Run, s: nat) returns (m: nat, n: nat)
    requires f.WellFormed() && Dropped(f, sh, s) && ReturnsPoison(f, sh, run, s)
    ensures FindsPoison(sh, run, m, n) && Behind(sh.g, s, n)
  {
    var inside := BehindIsClosed(sh.g, s);
    var end := |run.walk.path|;
    assert R.Harmless(sh.g, s, inside);
    if NoneFound(sh, run, inside, end) { CleanUntilFound(f, sh, run, inside, end); }
    m, n :| m < end && n in inside && FindsPoison(sh, run, m, n);
  }

  /** A run that returns gets past every load of the blocks it visits. */
  lemma LoadIsPassed(f: D.Fn, sh: Shadows, run: Run, m: nat, n: nat)
    requires f.WellFormed() && ShadowsOk(f, sh) && IsRun(f, sh, run) && Returns(f, run) && FindsPoison(sh, run, m, n)
    ensures D.Passes(f, run.walk, m, sh.load[n])
  {
    assert ShadowOk(f, sh, n);
    var b, load := sh.block[n], sh.load[n];
    assert f.BlockOk(b) && f.InBlock(b, load);
    if m == |run.walk.path| - 1 { assert f.insts[run.walk.stop].Terminator() && f.InBlock(b, run.walk.stop); }
  }

  /** A dropped return check is redundant when no load behind its shadow was deferred to a sink
      that its block can be re-entered before. */
  lemma DroppedCheckIsRedundant(f: D.Fn, an: D.Analyses, sh: Shadows, moved: map<nat, nat>, run: Run, s: nat)
    requires f.WellFormed() && D.AnalysesOk(f, an) && MovedOk(f, an, moved)
    requires Dropped(f, sh, s) && ReturnsPoison(f, sh, run, s)
    requires forall n: nat :: Behind(sh.g, s, n) && sh.IsLoad(n) && sh.load[n] in moved ==>
      !D.Reenters(f, sh.load[n], moved[sh.load[n]])
    ensures Reported(f, sh, moved, run)
  {
    var m, n := PoisonWasFound(f, sh, run, s);
    LoadIsPassed(f, sh, run, m, n);
    if sh.load[n] in moved { D.EveryLoadIsTested(f, an, sh.load[n], moved[sh.load[n]], run.walk, m); }
  }

  // A load that is returned itself is always reported: re-entry loses only older values.

  lemma {:induction false} RestLoad(sh: Shadows, env: R.Env, b: nat, words: seq<R.Word>, n: nat, s: nat)
    requires |sh.block| == |sh.g| == |words| && n <= |sh.g| && sh.IsLoad(s)
    ensures var e := RestEnv(sh, env, b, words, n);
      if s < n && sh.block[s] == b then s in e && e[s] == words[s] else (s in e <==> s in env) && (s in e ==> e[s] == env[s])
  {
    if n > 0 { RestLoad(sh, env, b, words, n - 1, s); }
  }

  lemma VisitLoad(sh: Shadows, env: R.Env, path: seq<nat>, m: nat, words: seq<R.Word>, s: nat)
    requires |sh.block| == |sh.from| == |sh.g| == |words| && m < |path| && sh.IsLoad(s)
    ensures var e := Visit(sh, env, path, m, words);
      if sh.block[s] == path[m] then s in e && e[s] == words[s] else (s in e <==> s in env) && (s in e ==> e[s] == env[s])
  {
    RestLoad(sh, if m == 0 then env else PhiEnv(sh, env, path[m], path[m - 1]), path[m], words, |words|, s);
  }

  /** Before visit n the load's latest visit is m. */
  ghost predicate Latest(path: seq<nat>, b: nat, n: nat, m: nat) {
    m < n <= |path| && path[m] == b && forall j :: m < j < n ==> path[j] != b
  }

  lemma LatestStays(path: seq<nat>, b: nat, n: nat, m: nat)
    requires Latest(path, b, n, m) && n < |path| && path[n] != b
    ensures Latest(path, b, n + 1, m)
  {
  }

  /** A load's shadow is what its latest execution found. */
  lemma {:induction false} LatestFound(f: D.Fn, sh: Shadows, run: Run, s: nat, n: nat) returns (m: nat)
    requires f.WellFormed() && ShadowsOk(f, sh) && IsRun(f, sh, run) && n <= |run.walk.path| && sh.IsLoad(s)
    requires s in EnvAt(f, sh, run, n)
    ensures Latest(run.walk.path, sh.block[s], n, m) && EnvAt(f, sh, run, n)[s] == run.words[m][s]
  {
    VisitLoad(sh, EnvAt(f, sh, run, n - 1), run.walk.path, n - 1, run.words[n - 1], s);
    if run.walk.path[n - 1] == sh.block[s] {
      m := n - 1;
    } else {
      m := LatestFound(f, sh, run, s, n - 1);
      LatestStays(run.walk.path, sh.block[s], n - 1, m);
    }
  }

  /** So re-entry alone does not make dropping unsafe: it depends on what the function returns. */
  lemma ReturnedLoadIsReported(f: D.Fn, an: D.Analyses, sh: Shadows, moved: map<nat, nat>, run: Run, s: nat)
    requires f.WellFormed() && D.AnalysesOk(f, an) && MovedOk(f, an, moved)
    requires ReturnsPoison(f, sh, run, s) && sh.IsLoad(s)
    ensures Reported(f, sh, moved, run)
  {
    var m := LatestFound(f, sh, run, s, |run.walk.path|);
    assert FindsPoison(sh, run, m, s);
    LoadIsPassed(f, sh, run, m, s);
    var load := sh.load[s];
    assert ShadowOk(f, sh, s);
    if load in moved {
      var k := D.SinkIsReached(f, an, load, moved[load], run.walk, m);
      assert D.Sees(f, run.walk, load, moved[load], m, k);
    }
  }

  // The converse: where a block can be re-entered so, a returned value escapes.

  /** Some way from the block leads to a return. */
  ghost predicate ReturnPath(f: D.Fn, b: nat, t: seq<nat>) {
    && D.IsPath(f, t) && t[0] == b && D.Last(t) < |f.blocks| && f.blocks[D.Last(t)].succs == []
    && 0 < f.blocks[D.Last(t)].end <= |f.insts| && f.insts[f.blocks[D.Last(t)].end - 1].op.Return?
  }

  ghost predicate CanReturn(f: D.Fn, b: nat) {
    exists t: seq<nat> :: ReturnPath(f, b, t)
  }

  /** No edge leads back to the entry block. */
  ghost predicate EntryFirst(f: D.Fn) { forall a: nat :: !D.Edge(f, a, 0) }

  ghost function Preds(f: D.Fn, b: nat, n: nat): seq<nat>
    requires n <= |f.blocks|
  {
    if n == 0 then [] else Preds(f, b, n - 1) + (if b in f.blocks[n - 1].succs then [n - 1] else [])
  }

  lemma {:induction false} PredsAre(f: D.Fn, b: nat, n: nat, a: nat)
    requires n <= |f.blocks| && b < |f.blocks|
    ensures a in Preds(f, b, n) <==> a < n && D.Edge(f, a, b)
  {
    if n > 0 { PredsAre(f, b, n - 1, a); }
  }

  const OR: nat := 2
  const FIRST_PHI: nat := 3

  /** The shadow that leaves a block: of everything the load in block l has found so far. */
  ghost function Out(l: nat, a: nat): nat { if a == l then OR else FIRST_PHI + a }

  ghost function Outs(l: nat, preds: seq<nat>): (r: seq<nat>)
    ensures |r| == |preds| && forall k :: 0 <= k < |r| ==> r[k] == Out(l, preds[k])
  {
    seq(|preds|, k requires 0 <= k < |preds| => Out(l, preds[k]))
  }

  ghost function PhiNode(f: D.Fn, l: nat, b: nat): R.Node {
    if b == 0 then R.Constant(0) else R.Transfer(R.Phi, Outs(l, Preds(f, b, |f.blocks|)))
  }

  /** A function that ORs together whatever one load finds, in SSA form: a PHI in every block. */
  ghost function Gathering(f: D.Fn, load: nat): Shadows
    requires load < |f.insts|
  {
    var l, n := f.insts[load].block, |f.blocks|;
    Shadows([R.Constant(0), R.CheckedLoad, R.Transfer(R.Or, [FIRST_PHI + l, 1])] + seq(n, b requires 0 <= b < n => PhiNode(f, l, b)),
            [0, l, l] + seq(n, b requires 0 <= b < n => b),
            [0, load, 0] + seq(n, b => 0),
            [[], [], []] + seq(n, b requires 0 <= b < n => Preds(f, b, n)))
  }

  ghost predicate PhiAt(f: D.Fn, l: nat, sh: Shadows, b: nat)
    requires b < |f.blocks| && |sh.g| == |sh.block| == |sh.from| == FIRST_PHI + |f.blocks|
  {
    && sh.g[FIRST_PHI + b] == PhiNode(f, l, b) && sh.block[FIRST_PHI + b] == b
    && sh.from[FIRST_PHI + b] == Preds(f, b, |f.blocks|)
  }

  /** What is to be known of such a function. */
  ghost predicate Gathers(f: D.Fn, load: nat, sh: Shadows)
    requires load < |f.insts|
  {
    var l := f.insts[load].block;
    && f.WellFormed() && f.insts[load].op.Load?
    && |sh.g| == |sh.block| == |sh.load| == |sh.from| == FIRST_PHI + |f.blocks|
    && sh.g[0] == R.Constant(0) && sh.g[1] == R.CheckedLoad && sh.g[OR] == R.Transfer(R.Or, [FIRST_PHI + l, 1])
    && sh.block[0] == 0 && sh.block[1] == sh.block[OR] == l && sh.load[1] == load
    && forall b: nat :: b < |f.blocks| ==> PhiAt(f, l, sh, b)
  }

  lemma GatheringGathers(f: D.Fn, load: nat)
    requires f.WellFormed() && load < |f.insts| && f.insts[load].op.Load?
    ensures Gathers(f, load, Gathering(f, load))
  {
  }

  ghost predicate NodeOk(g: seq<R.Node>, n: nat)
    requires n < |g|
  {
    g[n].Transfer? ==>
      && (g[n].op.Phi? || |g[n].operands| == R.Arity(g[n].op))
      && forall k :: 0 <= k < |g[n].operands| ==> g[n].operands[k] < |g|
  }

  lemma NodesOk(g: seq<R.Node>)
    requires forall n: nat :: n < |g| ==> NodeOk(g, n)
    ensures R.WellFormed(g)
  {
    forall n | 0 <= n < |g| && g[n].Transfer?
      ensures g[n].op.Phi? || |g[n].operands| == R.Arity(g[n].op)
      ensures forall k :: 0 <= k < |g[n].operands| ==> g[n].operands[k] < |g|
    {
      assert NodeOk(g, n);
    }
  }

  lemma PhiShadowOk(f: D.Fn, load: nat, sh: Shadows, b: nat)
    requires load < |f.insts| && Gathers(f, load, sh) && b < |f.blocks|
    ensures ShadowOk(f, sh, FIRST_PHI + b) && NodeOk(sh.g, FIRST_PHI + b)
  {
    assert PhiAt(f, f.insts[load].block, sh, b);
    var preds := Preds(f, b, |f.blocks|);
    forall a: nat { PredsAre(f, b, |f.blocks|, a); }
    forall k | 0 <= k < |preds| ensures preds[k] < |f.blocks| { assert preds[k] in preds; }
  }

  lemma GatheringOk(f: D.Fn, load: nat, sh: Shadows)
    requires load < |f.insts| && Gathers(f, load, sh)
    ensures ShadowsOk(f, sh)
  {
    assert f.insts[load].block < |f.blocks|;
    forall n: nat | n < |sh.g| ensures ShadowOk(f, sh, n) && NodeOk(sh.g, n) {
      if n >= FIRST_PHI {
        assert PhiAt(f, f.insts[load].block, sh, n - FIRST_PHI);
        PhiShadowOk(f, load, sh, n - FIRST_PHI);
      }
    }
    NodesOk(sh.g);
  }

  lemma OneLoad(f: D.Fn, load: nat, sh: Shadows, n: nat)
    requires load < |f.insts| && Gathers(f, load, sh)
    ensures sh.IsLoad(n) <==> n == 1
  {
    assert sh.g[1].CheckedLoad? && sh.g[OR].Transfer? && sh.g[0].Constant?;
    if FIRST_PHI <= n < |sh.g| {
      assert PhiAt(f, f.insts[load].block, sh, n - FIRST_PHI);
      assert sh.g[n] == PhiNode(f, f.insts[load].block, n - FIRST_PHI);
    }
  }

  /** It has no poison source of its own, so its return check is dropped. */
  lemma GatheringIsDropped(f: D.Fn, load: nat, sh: Shadows, s: nat)
    requires load < |f.insts| && Gathers(f, load, sh) && s < |sh.g|
    ensures Dropped(f, sh, s)
  {
    GatheringOk(f, load, sh);
    R.SearchIsExact(sh.g, s);
    forall n: nat | n < |sh.g| ensures !sh.g[n].Unknown? && (sh.g[n].Constant? ==> sh.g[n].value == 0) {
      if n >= FIRST_PHI { assert PhiAt(f, f.insts[load].block, sh, n - FIRST_PHI); }
    }
  }

  lemma OrKeeps(a: R.Word, b: R.Word)
    ensures a != 0 ==> a | b != 0 && b | a != 0
  {
  }

  ghost predicate Holding(env: R.Env, n: nat) { n in env && env[n] != 0 }

  /** Behind the load and the OR there are only PHIs and constants. */
  lemma {:induction false} RestTail(f: D.Fn, load: nat, sh: Shadows, env: R.Env, b: nat, words: seq<R.Word>, n: nat)
    requires load < |f.insts| && Gathers(f, load, sh) && |words| == |sh.g| && FIRST_PHI <= n <= |words|
    ensures RestEnv(sh, env, b, words, n) == RestEnv(sh, env, b, words, FIRST_PHI)
  {
    if n > FIRST_PHI {
      RestTail(f, load, sh, env, b, words, n - 1);
      assert PhiAt(f, f.insts[load].block, sh, n - 1 - FIRST_PHI);
    }
  }

  /** A block that does not load passes on what it was entered with. */
  lemma OtherBlockKeeps(f: D.Fn, load: nat, sh: Shadows, env: R.Env, b: nat, words: seq<R.Word>)
    requires load < |f.insts| && Gathers(f, load, sh) && |words| == |sh.g| && b != f.insts[load].block
    ensures RestEnv(sh, env, b, words, |words|) == env
  {
    RestTail(f, load, sh, env, b, words, |words|);
    assert RestEnv(sh, env, b, words, 1) == env;
    assert RestEnv(sh, env, b, words, 2) == env;
  }

  /** The load's block adds what its load finds to what it was entered with. */
  lemma LoadBlockGathers(f: D.Fn, load: nat, sh: Shadows, env: R.Env, words: seq<R.Word>)
    requires load < |f.insts| && Gathers(f, load, sh) && |words| == |sh.g|
    requires words[1] != 0 || (Holding(env, FIRST_PHI + f.insts[load].block) && f.insts[load].block != 0)
    ensures Holding(RestEnv(sh, env, f.insts[load].block, words, |words|), OR)
  {
    var l := f.insts[load].block;
    assert PhiAt(f, l, sh, l);
    RestTail(f, load, sh, env, l, words, |words|);
    var e := env[1 := words[1]];
    assert RestEnv(sh, env, l, words, 1) == env;
    assert RestEnv(sh, env, l, words, 2) == e;
    assert RestEnv(sh, env, l, words, 3) == e[OR := WordOf(sh, e, OR, words)];
    var x := R.Operand(sh.g, e, OR, 0);
    assert R.Operand(sh.g, e, OR, 1) == words[1];
    OrKeeps(x, words[1]);
    OrKeeps(words[1], x);
  }

  /** Along an edge the PHI of the block takes over what the block before left. */
  lemma PhiTakesOver(f: D.Fn, load: nat, sh: Shadows, env: R.Env, a: nat, b: nat)
    requires load < |f.insts| && Gathers(f, load, sh) && D.Edge(f, a, b) && b != 0
    requires Holding(env, Out(f.insts[load].block, a)) && (a == f.insts[load].block || a != 0)
    ensures Holding(PhiEnv(sh, env, b, a), FIRST_PHI + b)
  {
    var l := f.insts[load].block;
    assert PhiAt(f, l, sh, a) && PhiAt(f, l, sh, b);
    PredsAre(f, b, |f.blocks|, a);
    var k := IndexOf(sh.from[FIRST_PHI + b], a);
    assert sh.g[FIRST_PHI + b].operands[k] == Out(l, a);
  }

  ghost function Words(size: nat, length: nat, i: nat): seq<seq<R.Word>> {
    seq(length, m requires 0 <= m => seq(size, n => if m == i then 1 else 0))
  }

  /** What makes a visit leave poison: its load finds some, or it is entered with some. */
  ghost predicate Enters(f: D.Fn, load: nat, env: R.Env, path: seq<nat>, m: nat, words: seq<R.Word>)
    requires load < |f.insts| && |words| > 1 && m < |path|
  {
    var l := f.insts[load].block;
    || (path[m] == l && words[1] != 0)
    || (&& m > 0 && D.Edge(f, path[m - 1], path[m]) && path[m] != 0
        && Holding(env, Out(l, path[m - 1])) && (path[m - 1] == l || path[m - 1] != 0))
  }

  lemma VisitGathers(f: D.Fn, load: nat, sh: Shadows, env: R.Env, path: seq<nat>, m: nat, words: seq<R.Word>)
    requires load < |f.insts| && Gathers(f, load, sh) && |words| == |sh.g| && m < |path|
    requires Enters(f, load, env, path, m, words)
    ensures Holding(Visit(sh, env, path, m, words), Out(f.insts[load].block, path[m]))
  {
    var b := path[m];
    var start := if m == 0 then env else PhiEnv(sh, env, b, path[m - 1]);
    if !(b == f.insts[load].block && words[1] != 0) { PhiTakesOver(f, load, sh, env, path[m - 1], b); }
    if b == f.insts[load].block {
      LoadBlockGathers(f, load, sh, start, words);
    } else {
      OtherBlockKeeps(f, load, sh, start, b, words);
    }
  }

  /** Once the load has found poison, every block hands it on. */
  lemma {:induction false} PoisonStays(f: D.Fn, load: nat, sh: Shadows, run: Run, i: nat, m: nat)
    requires EntryFirst(f) && load < |f.insts| && Gathers(f, load, sh) && ShadowsOk(f, sh) && IsRun(f, sh, run)
    requires i <= m < |run.walk.path| && run.walk.path[i] == f.insts[load].block && run.words[i][1] != 0
    ensures Holding(EnvAt(f, sh, run, m + 1), Out(f.insts[load].block, run.walk.path[m]))
    ensures run.walk.path[m] == f.insts[load].block || run.walk.path[m] != 0
  {
    var env := EnvAt(f, sh, run, m);
    if m > i {
      PoisonStays(f, load, sh, run, i, m - 1);
      assert D.Edge(f, run.walk.path[m - 1], run.walk.path[m]);
    }
    assert Enters(f, load, env, run.walk.path, m, run.words[m]);
    VisitGathers(f, load, sh, env, run.walk.path, m, run.words[m]);
  }

  /** Where re-entry is possible some function returns poison that no check has seen. */
  lemma ReentryLosesAReturn(f: D.Fn, an: D.Analyses, moved: map<nat, nat>, load: nat)
    returns (sh: Shadows, s: nat, run: Run)
    requires f.WellFormed() && D.AnalysesOk(f, an) && MovedOk(f, an, moved) && EntryFirst(f)
    requires load in moved && load < |f.insts| && moved[load] < |f.insts| && D.Reenters(f, load, moved[load])
    requires D.Reachable(f, f.insts[load].block) && CanReturn(f, f.insts[load].block)
    ensures Dropped(f, sh, s) && ReturnsPoison(f, sh, run, s) && !Reported(f, sh, moved, run)
  {
    sh := Gathering(f, load);
    GatheringGathers(f, load);
    s, run := GatheringLoses(f, moved, load, sh);
  }

  lemma GatheringLoses(f: D.Fn, moved: map<nat, nat>, load: nat, sh: Shadows) returns (s: nat, run: Run)
    requires EntryFirst(f) && load < |f.insts| && Gathers(f, load, sh)
    requires load in moved && moved[load] < |f.insts| && D.Reenters(f, load, moved[load])
    requires D.Reachable(f, f.insts[load].block) && CanReturn(f, f.insts[load].block)
    ensures Dropped(f, sh, s) && ReturnsPoison(f, sh, run, s) && !Reported(f, sh, moved, run)
  {
    var walk, i := WalkThatLoses(f, load, moved[load]);
    run := Run(walk, Words(|sh.g|, |walk.path|, i));
    s := Out(f.insts[load].block, D.Last(walk.path));
    OutInside(f, load, D.Last(walk.path));
    GatheringIsDropped(f, load, sh, s);
    WordsMakeARun(f, sh, walk, i);
    GatheringReturnsPoison(f, load, sh, run, i);
    NothingReported(f, load, sh, moved, run, i);
  }

  lemma OutInside(f: D.Fn, load: nat, b: nat)
    requires load < |f.insts| && b < |f.blocks|
    ensures Out(f.insts[load].block, b) < FIRST_PHI + |f.blocks|
  {
  }

  lemma WordsMakeARun(f: D.Fn, sh: Shadows, walk: D.Run, i: nat)
    requires f.WellFormed() && D.IsRun(f, walk) && i < |walk.path| && |sh.g| > 1
    ensures var run := Run(walk, Words(|sh.g|, |walk.path|, i)); IsRun(f, sh, run) && run.words[i][1] != 0
  {
  }

  lemma NothingReported(f: D.Fn, load: nat, sh: Shadows, moved: map<nat, nat>, run: Run, i: nat)
    requires load < |f.insts| && Gathers(f, load, sh) && i < |run.walk.path|
    requires run.words == Words(|sh.g|, |run.walk.path|, i)
    requires load in moved && !D.Tested(f, run.walk, load, moved[load], i)
    ensures !Reported(f, sh, moved, run)
  {
    OnlyOneFound(f, load, sh, run, i);
  }

  lemma GatheringReturnsPoison(f: D.Fn, load: nat, sh: Shadows, run: Run, i: nat)
    requires EntryFirst(f) && load < |f.insts| && Gathers(f, load, sh) && ShadowsOk(f, sh)
    requires IsRun(f, sh, run) && Returns(f, run) && i < |run.walk.path| && run.walk.path[i] == f.insts[load].block
    requires run.words[i][1] != 0
    ensures ReturnsPoison(f, sh, run, Out(f.insts[load].block, D.Last(run.walk.path)))
  {
    PoisonStays(f, load, sh, run, i, |run.walk.path| - 1);
    HoldingIsShown(f, load, sh, EnvAt(f, sh, run, |run.walk.path|), D.Last(run.walk.path));
  }

  lemma HoldingIsShown(f: D.Fn, load: nat, sh: Shadows, env: R.Env, b: nat)
    requires load < |f.insts| && Gathers(f, load, sh) && b < |f.blocks| && (b == f.insts[load].block || b != 0)
    requires Holding(env, Out(f.insts[load].block, b))
    ensures Shown(sh, env, Out(f.insts[load].block, b)) != 0
  {
    assert PhiAt(f, f.insts[load].block, sh, b);
  }

  lemma WalkThatLoses(f: D.Fn, load: nat, sink: nat) returns (walk: D.Run, i: nat)
    requires f.WellFormed() && load < |f.insts| && sink < |f.insts| && D.Reenters(f, load, sink)
    requires D.Reachable(f, f.insts[load].block) && CanReturn(f, f.insts[load].block)
    ensures D.IsRun(f, walk) && D.Passes(f, walk, i, load) && !D.Tested(f, walk, load, sink, i)
    ensures f.insts[walk.stop].op.Return? && D.Last(walk.path) < |f.blocks| && f.blocks[D.Last(walk.path)].succs == []
  {
    var l := f.insts[load].block;
    var p: seq<nat> :| D.EntryPath(f, l, p);
    var t: seq<nat> :| ReturnPath(f, l, t);
    assert f.BlockOk(D.Last(t));
    walk, i := D.ReentryLosesALoadOn(f, load, sink, p, t, f.blocks[D.Last(t)].end - 1);
  }

  lemma OnlyOneFound(f: D.Fn, load: nat, sh: Shadows, run: Run, i: nat)
    requires load < |f.insts| && Gathers(f, load, sh) && i < |run.walk.path|
    requires run.words == Words(|sh.g|, |run.walk.path|, i)
    ensures forall m: nat, n: nat :: FindsPoison(sh, run, m, n) ==> m == i && sh.load[n] == load
  {
    forall m: nat, n: nat | FindsPoison(sh, run, m, n) ensures m == i && n == 1 {
      OneLoad(f, load, sh, n);
    }
  }

  /** However a function computes what it returns, a dropped check costs no report. */
  ghost predicate DroppingIsSafe(f: D.Fn, moved: map<nat, nat>)
    requires f.WellFormed()
  {
    forall sh, s, run :: Dropped(f, sh, s) && ReturnsPoison(f, sh, run, s) ==> Reported(f, sh, moved, run)
  }

  lemma VisitedOnTheWay(f: D.Fn, sh: Shadows, run: Run, m: nat)
    requires f.WellFormed() && IsRun(f, sh, run) && Returns(f, run) && m < |run.walk.path|
    ensures D.Reachable(f, run.walk.path[m]) && CanReturn(f, run.walk.path[m])
  {
    var path := run.walk.path;
    D.PrefixReaches(f, path, m);
    D.TailIsPath(f, path, m);
    assert f.BlockOk(D.Last(path)) && f.insts[run.walk.stop].Terminator();
    assert ReturnPath(f, path[m], path[m..]);
  }

  /** Dropping return checks loses no report, whatever is returned, exactly when no deferred load
      on the way to a return can be executed again before its sink's block is met. */
  lemma DroppingIsSafeIffNoReentry(f: D.Fn, an: D.Analyses, moved: map<nat, nat>)
    requires f.WellFormed() && D.AnalysesOk(f, an) && MovedOk(f, an, moved) && EntryFirst(f)
    ensures DroppingIsSafe(f, moved) <==>
      forall load :: load in moved && D.Reachable(f, f.insts[load].block) && CanReturn(f, f.insts[load].block) ==>
        !D.Reenters(f, load, moved[load])
  {
    if DroppingIsSafe(f, moved) {
      forall load | load in moved && D.Reachable(f, f.insts[load].block) && CanReturn(f, f.insts[load].block)
        ensures !D.Reenters(f, load, moved[load])
      {
        if D.Reenters(f, load, moved[load]) { var sh, s, run := ReentryLosesAReturn(f, an, moved, load); }
      }
    } else {
      var sh, s, run :| Dropped(f, sh, s) && ReturnsPoison(f, sh, run, s) && !Reported(f, sh, moved, run);
      var m, n := PoisonWasFound(f, sh, run, s);
      LoadIsPassed(f, sh, run, m, n);
      VisitedOnTheWay(f, sh, run, m);
      var load := sh.load[n];
      if load in moved && !D.Reenters(f, load, moved[load]) { D.EveryLoadIsTested(f, an, load, moved[load], run.walk, m); }
    }
  }

  // The function of SinkDeferral, which returns what its load found the time before.

  ghost function LoopyShadows(): Shadows {
    Shadows([R.Constant(0), R.CheckedLoad, R.Transfer(R.Phi, [0, 1, 0])], [0, 1, 1], [0, 2, 0], [[], [], [0, 2, 3]])
  }

  /** Twice through the head, with poison the first time. */
  ghost function LoopyRun(): Run {
    Run(D.Run([0, 1, 2, 1, 3, 4], 7, seq(6, m => false)), seq(6, m => if m == 1 then [0, 1, 0] else [0, 0, 0]))
  }

  lemma LoopyShadowsOk()
    ensures D.Loopy().WellFormed() && ShadowsOk(D.Loopy(), LoopyShadows())
    ensures IsRun(D.Loopy(), LoopyShadows(), LoopyRun()) && Returns(D.Loopy(), LoopyRun())
  {
    D.LoopyWellFormed();
    D.LoopyReenters();
    var f, sh := D.Loopy(), LoopyShadows();
    assert D.Edge(f, 3, 1) && f.BlockOk(4) && f.InBlock(4, 7);
    forall a: nat ensures a in sh.from[2] <==> D.Edge(f, a, 1) { }
    forall n: nat | n < |sh.g| ensures ShadowOk(f, sh, n) { }
  }

  lemma OtherVisit(env: R.Env, m: nat)
    requires m in {0, 2, 4, 5}
    ensures Visit(LoopyShadows(), env, LoopyRun().walk.path, m, LoopyRun().words[m]) == env
  {
    var sh, path, words := LoopyShadows(), LoopyRun().walk.path, LoopyRun().words[m];
    var start := if m == 0 then env else PhiEnv(sh, env, path[m], path[m - 1]);
    assert start == env;
    assert RestEnv(sh, start, path[m], words, 1) == env;
    assert RestEnv(sh, start, path[m], words, 2) == env;
  }

  lemma HeadPhi(env: R.Env, prev: nat)
    requires prev in {0, 2} && (prev == 2 ==> 1 in env)
    ensures PhiEnv(LoopyShadows(), env, 1, prev) == env[2 := if prev == 0 then 0 else env[1]]
  {
    assert IndexOf(LoopyShadows().from[2], prev) == if prev == 0 then 0 else 1;
  }

  lemma HeadVisit(env: R.Env, m: nat)
    requires m in {1, 3} && (m == 3 ==> 1 in env)
    ensures Visit(LoopyShadows(), env, LoopyRun().walk.path, m, LoopyRun().words[m])
         == env[2 := if m == 1 then 0 else env[1]][1 := if m == 1 then 1 else 0]
  {
    var sh, words := LoopyShadows(), LoopyRun().words[m];
    var start := env[2 := if m == 1 then 0 else env[1]];
    HeadPhi(env, LoopyRun().walk.path[m - 1]);
    assert RestEnv(sh, start, 1, words, 1) == start;
    assert RestEnv(sh, start, 1, words, 2) == start[1 := words[1]];
  }

  /** The store is accepted as the load's sink and the return check is dropped, yet a run of the
      function returns poison that no check has seen. */
  lemma StaleValueIsReturned()
    ensures var f, moved := D.Loopy(), map[2 := 5];
      && f.WellFormed() && D.AnalysesOk(f, D.LoopyAnalyses()) && D.LoopsOk(f, D.LoopyAnalyses().loopOf)
      && MovedOk(f, D.LoopyAnalyses(), moved)
      && Dropped(f, LoopyShadows(), 2) && ReturnsPoison(f, LoopyShadows(), LoopyRun(), 2)
      && !Reported(f, LoopyShadows(), moved, LoopyRun())
  {
    D.LoopyAccepts();
    D.LoopyLoops();
    LoopyShadowsOk();
    LoopyDropped();
    LoopyReturns();
    LoopyUntested();
  }

  lemma LoopyDropped()
    ensures R.WellFormed(LoopyShadows().g) && !R.MayCarryUndef(LoopyShadows().g, 2, {}).0
  {
    R.SearchIsExact(LoopyShadows().g, 2);
  }

  lemma LoopyReturns()
    requires D.Loopy().WellFormed() && ShadowsOk(D.Loopy(), LoopyShadows()) && IsRun(D.Loopy(), LoopyShadows(), LoopyRun())
    ensures Shown(LoopyShadows(), EnvAt(D.Loopy(), LoopyShadows(), LoopyRun(), 6), 2) == 1
  {
    var f, sh, run := D.Loopy(), LoopyShadows(), LoopyRun();
    OtherVisit(EnvAt(f, sh, run, 0), 0);
    HeadVisit(EnvAt(f, sh, run, 1), 1);
    OtherVisit(EnvAt(f, sh, run, 2), 2);
    HeadVisit(EnvAt(f, sh, run, 3), 3);
    OtherVisit(EnvAt(f, sh, run, 4), 4);
    OtherVisit(EnvAt(f, sh, run, 5), 5);
  }

  lemma LoopyUntested()
    ensures !Reported(D.Loopy(), LoopyShadows(), map[2 := 5], LoopyRun())
  {
    var path := LoopyRun().walk.path;
    assert path[3] == 1;
    forall k: nat ensures !D.Sees(D.Loopy(), LoopyRun().walk, 2, 5, 1, k) { }
  }
}
