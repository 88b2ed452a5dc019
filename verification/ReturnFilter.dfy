/** Dropping return checks that cannot fire first (CompilerQEMUMemorySanitizer.cpp,
    returnShadowMayCarryUndef and filterPendingReturnChecks). Shadows form a graph that PHIs
    may make cyclic; the search walks it with one shared visited set. */
module ReturnFilter {
  import opened FiniteSets

  type Word = bv64

  datatype Opcode =
    | Phi
    | Select
    | Or | And | Xor
    | Copy                              // zext, bitcast, inttoptr, ptrtoint
    | Trunc(mask: Word)
    | SExt(sign: Word, extension: Word)
    | Shl | LShr
    | AShr(topBit: Word)

  datatype Node =
    | Constant(value: Word)
    | CheckedLoad                       // a shadow load that has its own check
    | Transfer(op: Opcode, operands: seq<nat>)
    | Unknown                           // anything the search does not recognise

  function Arity(op: Opcode): nat {
    match op
    case Phi => 0
    case Select => 3
    case Or => 2 case And => 2 case Xor => 2
    case Shl => 2 case LShr => 2 case AShr(_) => 2
    case Copy => 1 case Trunc(_) => 1 case SExt(_, _) => 1
  }

  ghost predicate WellFormed(g: seq<Node>) {
    forall n :: 0 <= n < |g| && g[n].Transfer? ==>
      && (g[n].op.Phi? || |g[n].operands| == Arity(g[n].op))
      && forall k :: 0 <= k < |g[n].operands| ==> g[n].operands[k] < |g|
  }

  // The search.

  ghost function Unseen(g: seq<Node>, seen: set<nat>): nat {
    |Below(|g|) - seen|
  }

  lemma UnseenShrinks(g: seq<Node>, a: set<nat>, b: set<nat>)
    requires a <= b
    ensures Unseen(g, b) <= Unseen(g, a)
    ensures forall s: nat :: s in b && s !in a && s < |g| ==> Unseen(g, b) < Unseen(g, a)
  {
    var all := Below(|g|);
    SubsetSize(all - b, all - a);
    forall s: nat | s in b && s !in a && s < |g| ensures Unseen(g, b) < Unseen(g, a) {
      SubsetSize(all - b, all - a - {s});
    }
  }

  /** `returnShadowMayCarryUndef`: the answer and the visited set it leaves behind. */
  function MayCarryUndef(g: seq<Node>, s: nat, seen: set<nat>): (r: (bool, set<nat>))
    requires WellFormed(g) && s < |g|
    ensures seen + {s} <= r.1
    decreases Unseen(g, seen), 0
  {
    if s in seen then (false, seen)
    else
      UnseenShrinks(g, seen, seen + {s});
      match g[s]
      case Constant(v) => (v != 0, seen + {s})
      case CheckedLoad => (false, seen + {s})
      case Unknown => (true, seen + {s})
      case Transfer(_, operands) => AnyMayCarryUndef(g, operands, seen + {s})
  }

  /** The operand loop, which stops at the first operand that may. */
  function AnyMayCarryUndef(g: seq<Node>, operands: seq<nat>, seen: set<nat>): (r: (bool, set<nat>))
    requires WellFormed(g) && forall k :: 0 <= k < |operands| ==> operands[k] < |g|
    ensures seen <= r.1
    decreases Unseen(g, seen), 1 + |operands|
  {
    if operands == [] then (false, seen)
    else
      var (bad, seen1) := MayCarryUndef(g, operands[0], seen);
      UnseenShrinks(g, seen, seen1);
      if bad then (true, seen1) else AnyMayCarryUndef(g, operands[1..], seen1)
  }

  // What a negative answer means.

  /** A node that cannot start a poison value, with operands inside `set`. */
  ghost predicate Harmless(g: seq<Node>, n: nat, inside: set<nat>)
    requires n < |g|
  {
    match g[n]
    case Constant(v) => v == 0
    case CheckedLoad => true
    case Unknown => false
    case Transfer(_, operands) => forall k :: 0 <= k < |operands| ==> operands[k] in inside
  }

  /** A negative answer leaves a visited set whose new nodes are harmless and closed. */
  lemma {:induction false} NegativeIsClosed(g: seq<Node>, s: nat, seen: set<nat>)
    requires WellFormed(g) && s < |g| && !MayCarryUndef(g, s, seen).0
    ensures var r := MayCarryUndef(g, s, seen).1;
      s in r && forall n: nat :: n in r && n !in seen ==> n < |g| && Harmless(g, n, r)
    decreases Unseen(g, seen), 0
  {
    if s !in seen {
      UnseenShrinks(g, seen, seen + {s});
      if g[s].Transfer? { NegativeAllClosed(g, g[s].operands, seen + {s}); }
    }
  }

  lemma {:induction false} NegativeAllClosed(g: seq<Node>, operands: seq<nat>, seen: set<nat>)
    requires WellFormed(g) && forall k :: 0 <= k < |operands| ==> operands[k] < |g|
    requires !AnyMayCarryUndef(g, operands, seen).0
    ensures var r := AnyMayCarryUndef(g, operands, seen).1;
      && (forall k :: 0 <= k < |operands| ==> operands[k] in r)
      && forall n: nat :: n in r && n !in seen ==> n < |g| && Harmless(g, n, r)
    decreases Unseen(g, seen), 1 + |operands|
  {
    if operands != [] {
      var (bad, seen1) := MayCarryUndef(g, operands[0], seen);
      NegativeIsClosed(g, operands[0], seen);
      UnseenShrinks(g, seen, seen1);
      NegativeAllClosed(g, operands[1..], seen1);
      var r := AnyMayCarryUndef(g, operands[1..], seen1).1;
      forall k | 0 <= k < |operands| ensures operands[k] in r {
        if k > 0 { assert operands[1..][k - 1] == operands[k]; }
      }
      forall n: nat | n in r && n !in seen ensures n < |g| && Harmless(g, n, r) {
        if n in seen1 { assert Harmless(g, n, seen1); }
      }
    }
  }

  /** A path of operands from s to a poison constant or an unknown node. */
  ghost predicate BadPath(g: seq<Node>, s: nat, path: seq<nat>) {
    && path != [] && path[0] == s
    && (forall i :: 0 <= i < |path| ==> path[i] < |g|)
    && (forall i :: 0 <= i < |path| - 1 ==> g[path[i]].Transfer? && path[i + 1] in g[path[i]].operands)
    && (g[path[|path| - 1]].Unknown? || (g[path[|path| - 1]].Constant? && g[path[|path| - 1]].value != 0))
  }

  lemma {:induction false} PositiveHasPath(g: seq<Node>, s: nat, seen: set<nat>) returns (path: seq<nat>)
    requires WellFormed(g) && s < |g| && MayCarryUndef(g, s, seen).0
    ensures BadPath(g, s, path)
    decreases Unseen(g, seen), 0
  {
    UnseenShrinks(g, seen, seen + {s});
    path := [s];
    if g[s].Transfer? {
      var tail := PositiveAnyHasPath(g, g[s].operands, seen + {s});
      path := [s] + tail;
    }
  }

  lemma {:induction false} PositiveAnyHasPath(g: seq<Node>, operands: seq<nat>, seen: set<nat>) returns (path: seq<nat>)
    requires WellFormed(g) && forall k :: 0 <= k < |operands| ==> operands[k] < |g|
    requires AnyMayCarryUndef(g, operands, seen).0
    ensures path != [] && path[0] in operands && BadPath(g, path[0], path)
    decreases Unseen(g, seen), 1 + |operands|
  {
    var (bad, seen1) := MayCarryUndef(g, operands[0], seen);
    if bad {
      path := PositiveHasPath(g, operands[0], seen);
    } else {
      UnseenShrinks(g, seen, seen1);
      path := PositiveAnyHasPath(g, operands[1..], seen1);
    }
  }

  lemma {:induction false} ClosedHasNoBadPath(g: seq<Node>, s: nat, inside: set<nat>, path: seq<nat>)
    requires WellFormed(g) && s in inside && BadPath(g, s, path)
    requires forall n: nat :: n in inside ==> n < |g| && Harmless(g, n, inside)
    ensures false
    decreases |path|
  {
    assert Harmless(g, s, inside);
    if |path| > 1 {
      assert path[1] in g[path[0]].operands;
      ClosedHasNoBadPath(g, path[1], inside, path[1..]);
    }
  }

  /** The search is exact on every graph, cyclic or not: it answers true just when some poison
      constant or unknown node can be reached through transfers. */
  lemma SearchIsExact(g: seq<Node>, s: nat)
    requires WellFormed(g) && s < |g|
    ensures MayCarryUndef(g, s, {}).0 <==> exists path :: BadPath(g, s, path)
  {
    if MayCarryUndef(g, s, {}).0 {
      var path := PositiveHasPath(g, s, {});
    } else {
      NegativeIsClosed(g, s, {});
      forall path | BadPath(g, s, path) ensures false {
        ClosedHasNoBadPath(g, s, MayCarryUndef(g, s, {}).1, path);
      }
    }
  }

  // Runs.

  /** The values nodes hold at run time; a node gets one each time its instruction executes. */
  type Env = map<nat, Word>

  predicate Available(g: seq<Node>, env: Env, n: nat) {
    n < |g| && (g[n].Constant? || n in env)
  }

  function Value(g: seq<Node>, env: Env, n: nat): Word
    requires Available(g, env, n)
  {
    if g[n].Constant? then g[n].value else env[n]
  }

  /** The operators, with shift amounts past the width giving zero. */
  function Eval(op: Opcode, a: Word, b: Word, c: Word): Word {
    match op
    case Phi => a
    case Select => if a != 0 then b else c
    case Or => a | b
    case And => a & b
    case Xor => a ^ b
    case Copy => a
    case Trunc(mask) => a & mask
    case SExt(sign, extension) => if a & sign != 0 then a | extension else a
    case Shl => if b < 64 then a << b else 0
    case LShr => if b < 64 then a >> b else 0
    case AShr(top) => if a & top != 0 then !((!a) >> (if b < 64 then b else 63)) else if b < 64 then a >> b else 0
  }

  lemma ZeroStaysZero(op: Opcode)
    ensures Eval(op, 0, 0, 0) == 0
  {
  }

  /** One executed instruction: a load with the shadow it read, an unknown instruction with its
      result, or a transfer; a PHI takes the operand of the edge it was entered by. */
  datatype Event =
    | LoadShadow(node: nat, value: Word)
    | Produce(node: nat, value: Word)
    | Compute(node: nat, edge: nat)

  ghost predicate CanHappen(g: seq<Node>, env: Env, e: Event)
    requires WellFormed(g)
  {
    e.node < |g| &&
    match e
    case LoadShadow(n, _) => g[n].CheckedLoad?
    case Produce(n, _) => g[n].Unknown?
    case Compute(n, edge) =>
      && g[n].Transfer?
      && (if g[n].op.Phi? then edge < |g[n].operands| && Available(g, env, g[n].operands[edge])
          else forall k :: 0 <= k < |g[n].operands| ==> Available(g, env, g[n].operands[k]))
  }

  ghost function Operand(g: seq<Node>, env: Env, n: nat, k: nat): Word
    requires n < |g| && g[n].Transfer?
  {
    if k < |g[n].operands| && Available(g, env, g[n].operands[k]) then Value(g, env, g[n].operands[k]) else 0
  }

  ghost function Next(g: seq<Node>, env: Env, e: Event): Env
    requires WellFormed(g) && CanHappen(g, env, e)
  {
    match e
    case LoadShadow(n, v) => env[n := v]
    case Produce(n, v) => env[n := v]
    case Compute(n, edge) =>
      env[n := if g[n].op.Phi? then Operand(g, env, n, edge)
               else Eval(g[n].op, Operand(g, env, n, 0), Operand(g, env, n, 1), Operand(g, env, n, 2))]
  }

  ghost predicate IsRun(g: seq<Node>, envs: seq<Env>, events: seq<Event>)
    requires WellFormed(g)
  {
    && |envs| == |events| + 1 && envs[0] == map[]
    && forall i :: 0 <= i < |events| ==>
         CanHappen(g, envs[i], events[i]) && envs[i + 1] == Next(g, envs[i], events[i])
  }

  /** Some load found poison among the first t events. */
  ghost predicate LoadFoundPoison(events: seq<Event>, t: nat) {
    exists i :: 0 <= i < t && i < |events| && events[i].LoadShadow? && events[i].value != 0
  }

  ghost predicate AllClean(g: seq<Node>, env: Env, inside: set<nat>) {
    forall n: nat :: n in inside && n in env ==> env[n] == 0
  }

  lemma CleanStep(g: seq<Node>, env: Env, e: Event, inside: set<nat>)
    requires WellFormed(g) && CanHappen(g, env, e) && AllClean(g, env, inside)
    requires forall n: nat :: n in inside ==> n < |g| && Harmless(g, n, inside)
    requires e.LoadShadow? ==> e.value == 0
    ensures AllClean(g, Next(g, env, e), inside)
  {
    if e.node in inside {
      assert Harmless(g, e.node, inside);
      if e.Compute? {
        forall k: nat ensures Operand(g, env, e.node, k) == 0 {
          if k < |g[e.node].operands| { assert Harmless(g, g[e.node].operands[k], inside); }
        }
        ZeroStaysZero(g[e.node].op);
      }
    }
  }

  lemma {:induction false} CleanUntilLoadFinds(g: seq<Node>, envs: seq<Env>, events: seq<Event>, inside: set<nat>, t: nat)
    requires WellFormed(g) && IsRun(g, envs, events) && t < |envs|
    requires forall n: nat :: n in inside ==> n < |g| && Harmless(g, n, inside)
    requires !LoadFoundPoison(events, t)
    ensures AllClean(g, envs[t], inside)
  {
    if t > 0 {
      CleanUntilLoadFinds(g, envs, events, inside, t - 1);
      CleanStep(g, envs[t - 1], events[t - 1], inside);
    }
  }

  /** Where a return check is dropped, a poisoned return shadow means that some load found poison.
      Whether that load's own check has reported it depends on where the check went, see
      ReturnDeferral. */
  lemma DroppedCheckCarriesLoads(g: seq<Node>, s: nat, envs: seq<Env>, events: seq<Event>, t: nat)
    requires WellFormed(g) && s < |g| && IsRun(g, envs, events) && t < |envs|
    requires !MayCarryUndef(g, s, {}).0
    requires Available(g, envs[t], s) && Value(g, envs[t], s) != 0
    ensures LoadFoundPoison(events, t)
  {
    var inside := MayCarryUndef(g, s, {}).1;
    NegativeIsClosed(g, s, {});
    assert Harmless(g, s, inside);
    if !LoadFoundPoison(events, t) {
      CleanUntilLoadFinds(g, envs, events, inside, t);
    }
  }

  /** A return and the shadow of its value. */
  datatype Pending = Pending(shadow: nat, site: nat)

  function Kept(g: seq<Node>, pending: seq<Pending>): seq<Pending>
    requires WellFormed(g) && forall i :: 0 <= i < |pending| ==> pending[i].shadow < |g|
  {
    if pending == [] then []
    else
      var last := pending[|pending| - 1];
      Kept(g, pending[..|pending| - 1]) + (if MayCarryUndef(g, last.shadow, {}).0 then [last] else [])
  }

  /** A pending check survives exactly when its shadow can reach a poison source. */
  lemma {:induction false} KeptExactly(g: seq<Node>, pending: seq<Pending>, p: Pending)
    requires WellFormed(g) && forall i :: 0 <= i < |pending| ==> pending[i].shadow < |g|
    ensures p in Kept(g, pending) <==> p in pending && exists path :: BadPath(g, p.shadow, path)
  {
    if pending != [] {
      var rest, last := pending[..|pending| - 1], pending[|pending| - 1];
      KeptExactly(g, rest, p);
      SearchIsExact(g, last.shadow);
      assert pending == rest + [last];
    }
  }

  method FilterPendingReturnChecks(g: seq<Node>, pending: seq<Pending>) returns (kept: seq<Pending>)
    requires WellFormed(g) && forall i :: 0 <= i < |pending| ==> pending[i].shadow < |g|
    ensures kept == Kept(g, pending)
  {
    kept := [];
    var i := 0;
    while i < |pending|
      invariant i <= |pending|
      invariant kept == Kept(g, pending[..i])
    {
      assert pending[..i + 1][..i] == pending[..i];
      if MayCarryUndef(g, pending[i].shadow, {}).0 { kept := kept + [pending[i]]; }
      i := i + 1;
    }
    assert pending[..i] == pending;
  }
}
