/** Allocator statistics (sanitizer_allocator_stats.h): per-thread counters on a circular doubly
    linked list whose head is the global counters. Counters are 64-bit words and wrap around. */
module StatsRing {

  const WORD: nat := 0x1_0000_0000_0000_0000
  const HALF: nat := 0x8000_0000_0000_0000
  const COUNT: nat := 2              // allocated, mapped

  function Wrap(x: int): (r: nat)
    ensures r < WORD
  {
    x % WORD
  }

  /** Wrapping takes away some whole number of words. */
  lemma Wraps(x: int) returns (q: int)
    ensures Wrap(x) == x + q * WORD
  {
    q := -(x / WORD);
  }

  lemma SameWrap(x: int, y: int, q: int)
    requires x == y + q * WORD
    ensures Wrap(x) == Wrap(y)
  {
  }

  // The list as a value: its nodes in order, the global one first, each with its counters.

  type Counters = s: seq<nat> | |s| == COUNT && forall i :: 0 <= i < COUNT ==> s[i] < WORD witness [0, 0]

  datatype Node<T> = Node(id: T, stats: Counters)

  ghost predicate RingOk<T>(r: seq<Node<T>>) {
    r != [] && forall i, j :: 0 <= i < j < |r| ==> r[i].id != r[j].id
  }

  /** The sum of one counter over the list, before wrapping. */
  function Raw<T>(r: seq<Node<T>>, w: nat): nat
    requires w < COUNT
  {
    if r == [] then 0 else Raw(r[..|r| - 1], w) + r[|r| - 1].stats[w]
  }

  /** What the reader's loop adds up in a word. */
  function Total<T>(r: seq<Node<T>>, w: nat): nat
    requires w < COUNT
  {
    Wrap(Raw(r, w))
  }

  function Plus(c: Counters, w: nat, v: int): Counters
    requires w < COUNT
  {
    c[w := Wrap(c[w] + v)]
  }

  /** What the global counters get from a node that leaves. */
  function Merge(c: Counters, d: Counters): Counters { [Wrap(c[0] + d[0]), Wrap(c[1] + d[1])] }

  function Registered<T>(r: seq<Node<T>>, n: Node<T>): seq<Node<T>>
    requires r != []
  {
    [r[0], n] + r[1..]
  }

  function Unregistered<T>(r: seq<Node<T>>, k: nat): seq<Node<T>>
    requires 0 < k < |r|
  {
    [r[0].(stats := Merge(r[0].stats, r[k].stats))] + r[1..k] + r[k + 1..]
  }

  function Changed<T>(r: seq<Node<T>>, k: nat, w: nat, v: int): seq<Node<T>>
    requires k < |r| && w < COUNT
  {
    r[k := r[k].(stats := Plus(r[k].stats, w, v))]
  }

  /** What a reader is told: a total that reads as negative is reported as zero. */
  function Reported(total: nat): nat { if total < HALF then total else 0 }

  // Totals.

  lemma {:induction false} RawConcat<T>(a: seq<Node<T>>, b: seq<Node<T>>, w: nat)
    requires w < COUNT
    ensures Raw(a + b, w) == Raw(a, w) + Raw(b, w)
  {
    if b == [] {
      assert a + b == a;
    } else {
      assert (a + b)[..|a + b| - 1] == a + b[..|b| - 1];
      RawConcat(a, b[..|b| - 1], w);
    }
  }

  lemma RawOne<T>(n: Node<T>, w: nat)
    requires w < COUNT
    ensures Raw([n], w) == n.stats[w]
  {
  }

  /** The sum over a list cut at one node. */
  lemma RawAround<T>(r: seq<Node<T>>, k: nat, w: nat)
    requires k < |r| && w < COUNT
    ensures Raw(r, w) == Raw(r[..k], w) + r[k].stats[w] + Raw(r[k + 1..], w)
  {
    assert r == r[..k] + ([r[k]] + r[k + 1..]);
    RawConcat(r[..k], [r[k]] + r[k + 1..], w);
    RawConcat([r[k]], r[k + 1..], w);
    RawOne(r[k], w);
  }

  lemma ChangedRaw<T>(r: seq<Node<T>>, k: nat, w: nat, v: int, x: nat) returns (q: int)
    requires k < |r| && w < COUNT && x < COUNT
    ensures Raw(Changed(r, k, w, v), x) == Raw(r, x) + (if x == w then v else 0) + q * WORD
  {
    var s := Changed(r, k, w, v);
    assert s[..k] == r[..k] && s[k + 1..] == r[k + 1..];
    RawAround(r, k, x);
    RawAround(s, k, x);
    q := 0;
    if x == w { q := Wraps(r[k].stats[w] + v); }
  }

  lemma RegisteredRaw<T>(r: seq<Node<T>>, n: Node<T>, x: nat)
    requires r != [] && x < COUNT
    ensures Raw(Registered(r, n), x) == Raw(r, x) + n.stats[x]
  {
    var s := Registered(r, n);
    RawAround(s, 1, x);
    RawAround(r, 0, x);
    assert s[..1] == [r[0]] && s[2..] == r[1..] && r[..0] == [];
    RawOne(r[0], x);
  }

  lemma RawSplit<T>(r: seq<Node<T>>, k: nat, x: nat)
    requires 0 < k < |r| && x < COUNT
    ensures Raw(r, x) == r[0].stats[x] + Raw(r[1..k], x) + r[k].stats[x] + Raw(r[k + 1..], x)
  {
    RawAround(r, k, x);
    assert r[..k] == [r[0]] + r[1..k];
    RawConcat([r[0]], r[1..k], x);
    RawOne(r[0], x);
  }

  lemma RawOfThree<T>(n: Node<T>, a: seq<Node<T>>, b: seq<Node<T>>, x: nat)
    requires x < COUNT
    ensures Raw([n] + a + b, x) == n.stats[x] + Raw(a, x) + Raw(b, x)
  {
    RawConcat([n] + a, b, x);
    RawConcat([n], a, x);
    RawOne(n, x);
  }

  lemma UnregisteredRaw<T>(r: seq<Node<T>>, k: nat, x: nat) returns (q: int)
    requires 0 < k < |r| && x < COUNT
    ensures Raw(Unregistered(r, k), x) == Raw(r, x) + q * WORD
  {
    RawSplit(r, k, x);
    RawOfThree(r[0].(stats := Merge(r[0].stats, r[k].stats)), r[1..k], r[k + 1..], x);
    q := Wraps(r[0].stats[x] + r[k].stats[x]);
  }

  /** Leaving the list moves a node's counters to the global ones: no total changes. */
  lemma UnregisterKeepsTotals<T>(r: seq<Node<T>>, k: nat, x: nat)
    requires 0 < k < |r| && x < COUNT
    ensures Total(Unregistered(r, k), x) == Total(r, x)
  {
    var q := UnregisteredRaw(r, k, x);
    SameWrap(Raw(Unregistered(r, k), x), Raw(r, x), q);
  }

  // Whole histories.

  datatype Op<T> =
    | Register(node: T)              // a node just initialised
    | Unregister(node: T)
    | Add(node: T, which: nat, amount: nat)
    | Sub(node: T, which: nat, amount: nat)

  function Find<T(==)>(r: seq<Node<T>>, id: T): (k: nat)
    ensures k <= |r| && (k < |r| ==> r[k].id == id) && (k == |r| ==> forall i :: 0 <= i < |r| ==> r[i].id != id)
  {
    if r == [] then 0 else if r[0].id == id then 0 else Find(r[1..], id) + 1
  }

  ghost predicate Allowed<T>(r: seq<Node<T>>, op: Op<T>) {
    match op
    case Register(n) => Find(r, n) == |r|
    case Unregister(n) => 0 < Find(r, n) < |r|
    case Add(n, w, _) => Find(r, n) < |r| && w < COUNT
    case Sub(n, w, _) => Find(r, n) < |r| && w < COUNT
  }

  ghost function Apply<T>(r: seq<Node<T>>, op: Op<T>): seq<Node<T>>
    requires RingOk(r) && Allowed(r, op)
  {
    match op
    case Register(n) => Registered(r, Node(n, [0, 0]))
    case Unregister(n) => Unregistered(r, Find(r, n))
    case Add(n, w, v) => Changed(r, Find(r, n), w, v)
    case Sub(n, w, v) => Changed(r, Find(r, n), w, 0 - v)
  }

  /** All Adds of a counter minus all Subs, over all nodes that ever were. */
  function Net<T>(ops: seq<Op<T>>, w: nat): int {
    if ops == [] then 0
    else
      Net(ops[..|ops| - 1], w) + NetOf(ops[|ops| - 1], w)
  }

  ghost predicate IsRun<T(!new)>(rs: seq<seq<Node<T>>>, ops: seq<Op<T>>) {
    && |rs| == |ops| + 1 && |rs[0]| == 1 && rs[0][0].stats == [0, 0]
    && forall t :: 0 <= t < |ops| ==> RingOk(rs[t]) && Allowed(rs[t], ops[t]) && rs[t + 1] == Apply(rs[t], ops[t])
  }

  lemma UnregisteredIds<T(!new)>(r: seq<Node<T>>, k: nat, i: nat)
    requires 0 < k < |r| && i < |r| - 1
    ensures |Unregistered(r, k)| == |r| - 1 && Unregistered(r, k)[i].id == r[if i < k then i else i + 1].id
  {
  }

  lemma ApplyKeeps<T(!new)>(r: seq<Node<T>>, op: Op<T>)
    requires RingOk(r) && Allowed(r, op)
    ensures RingOk(Apply(r, op)) && Apply(r, op)[0].id == r[0].id
  {
    if op.Unregister? {
      var k, s := Find(r, op.node), Apply(r, op);
      forall i, j | 0 <= i < j < |s| ensures s[i].id != s[j].id {
        UnregisteredIds(r, k, i);
        UnregisteredIds(r, k, j);
      }
    }
  }

  function NetOf<T>(op: Op<T>, w: nat): int {
    match op
    case Add(_, which, v) => if which == w then v else 0
    case Sub(_, which, v) => if which == w then 0 - v else 0
    case _ => 0
  }

  lemma ApplyRaw<T(!new)>(r: seq<Node<T>>, op: Op<T>, w: nat) returns (q: int)
    requires RingOk(r) && Allowed(r, op) && w < COUNT
    ensures Raw(Apply(r, op), w) == Raw(r, w) + NetOf(op, w) + q * WORD
  {
    if op.Add? {
      q := ChangedRaw(r, Find(r, op.node), op.which, op.amount, w);
    } else if op.Sub? {
      q := ChangedRaw(r, Find(r, op.node), op.which, 0 - op.amount, w);
    } else {
      q := MembershipRaw(r, op, w);
    }
  }

  lemma MembershipRaw<T(!new)>(r: seq<Node<T>>, op: Op<T>, w: nat) returns (q: int)
    requires RingOk(r) && Allowed(r, op) && w < COUNT && (op.Register? || op.Unregister?)
    ensures Raw(Apply(r, op), w) == Raw(r, w) + q * WORD
  {
    if op.Register? {
      RegisteredRaw(r, Node(op.node, [0, 0]), w);
      q := 0;
    } else {
      q := UnregisteredRaw(r, Find(r, op.node), w);
    }
  }

  ghost predicate Accounts<T>(r: seq<Node<T>>, w: nat, net: int, q: int)
    requires w < COUNT
  {
    RingOk(r) && Raw(r, w) == net + q * WORD
  }

  lemma AccountsOn<T(!new)>(r: seq<Node<T>>, op: Op<T>, w: nat, net: int, q: int) returns (q1: int)
    requires w < COUNT && Accounts(r, w, net, q) && Allowed(r, op)
    ensures Accounts(Apply(r, op), w, net + NetOf(op, w), q1)
  {
    ApplyKeeps(r, op);
    var d := ApplyRaw(r, op, w);
    q1 := q + d;
  }

  lemma {:induction false} RawIsNet<T(!new)>(rs: seq<seq<Node<T>>>, ops: seq<Op<T>>, n: nat, w: nat) returns (q: int)
    requires IsRun(rs, ops) && n < |rs| && w < COUNT
    ensures Accounts(rs[n], w, Net(ops[..n], w), q)
  {
    if n == 0 {
      RawOne(rs[0][0], w);
      assert rs[0] == [rs[0][0]];
      q := 0;
    } else {
      var q0 := RawIsNet(rs, ops, n - 1, w);
      assert ops[..n][..n - 1] == ops[..n - 1];
      q := AccountsOn(rs[n - 1], ops[n - 1], w, Net(ops[..n - 1], w), q0);
    }
  }

  /** After any history what a reader is told is the exact net amount, whichever threads came and
      went; a net that dropped below zero is told as zero. */
  lemma ReportIsNet<T(!new)>(rs: seq<seq<Node<T>>>, ops: seq<Op<T>>, n: nat, w: nat)
    requires IsRun(rs, ops) && n < |rs| && w < COUNT
    ensures 0 <= Net(ops[..n], w) < HALF ==> Reported(Total(rs[n], w)) == Net(ops[..n], w)
    ensures 0 - HALF <= Net(ops[..n], w) < 0 ==> Reported(Total(rs[n], w)) == 0
  {
    var q := RawIsNet(rs, ops, n, w);
    ReportedNet(Raw(rs[n], w), Net(ops[..n], w), q);
  }

  lemma ReportedNet(raw: nat, net: int, q: int)
    requires raw == net + q * WORD
    ensures 0 <= net < HALF ==> Reported(Wrap(raw)) == net
    ensures 0 - HALF <= net < 0 ==> Reported(Wrap(raw)) == 0
  {
  }

  // Who is on the list, and whose counter moves.

  ghost predicate OnList<T(!new)>(r: seq<Node<T>>, x: T) { exists i :: 0 <= i < |r| && r[i].id == x }

  /** Registering puts exactly its node on the list, unregistering takes exactly its own off, and
      counting changes nobody's place. */
  lemma MembersAfter<T(!new)>(r: seq<Node<T>>, op: Op<T>, x: T)
    requires RingOk(r) && Allowed(r, op)
    ensures OnList(Apply(r, op), x) <==> if x == op.node then !op.Unregister? else OnList(r, x)
  {
    var s, k := Apply(r, op), Find(r, op.node);
    match op
    case Register(n) =>
      assert s[1].id == n && s[0] == r[0] && forall i :: 1 <= i < |r| ==> s[i + 1] == r[i];
    case Unregister(n) =>
      forall i: nat | i < |s| ensures s[i].id == r[if i < k then i else i + 1].id { UnregisteredIds(r, k, i); }
      if i :| 0 <= i < |r| && r[i].id == x && x != n { assert s[if i < k then i else i - 1].id == x; }
    case _ =>
      assert |s| == |r| && forall i :: 0 <= i < |r| ==> s[i].id == r[i].id;
      assert r[k].id == op.node;
  }

  ghost predicate HasStats<T(!new)>(r: seq<Node<T>>, x: T, c: Counters) {
    exists i :: 0 <= i < |r| && r[i].id == x && r[i].stats == c
  }

  /** An operation leaves the counters of every node alone but its own, and the head's if a node
      leaves; a node starts at zero. */
  lemma OthersKeepCounters<T(!new)>(r: seq<Node<T>>, op: Op<T>, x: T, c: Counters)
    requires RingOk(r) && Allowed(r, op) && x != op.node && (op.Unregister? ==> x != r[0].id)
    ensures HasStats(Apply(r, op), x, c) <==> HasStats(r, x, c)
    ensures op.Register? ==> HasStats(Apply(r, op), op.node, [0, 0])
  {
    var s, k := Apply(r, op), Find(r, op.node);
    match op
    case Register(n) =>
      assert s[1] == Node(n, [0, 0]) && s[0] == r[0] && forall i :: 1 <= i < |r| ==> s[i + 1] == r[i];
    case Unregister(n) =>
      assert forall i :: 0 < i < |s| ==> s[i] == r[if i < k then i else i + 1];
      if i :| 0 <= i < |r| && r[i].id == x && r[i].stats == c { assert s[if i < k then i else i - 1] == r[i]; }
    case _ =>
      assert forall i :: 0 <= i < |r| && i != k ==> s[i] == r[i];
  }

  // The linked list.

  class AllocatorStats {
    var next: AllocatorStats?
    var prev: AllocatorStats?
    var stats: Counters

    constructor Init()
      ensures next == null && prev == null && stats == [0, 0]
    {
      next, prev := null, null;
      stats := [0, 0];
    }

    method Add(i: nat, v: nat)
      requires i < COUNT
      modifies this`stats
      ensures stats == Plus(old(stats), i, v)
    {
      stats := stats[i := (stats[i] + v) % WORD];
    }

    method Sub(i: nat, v: nat)
      requires i < COUNT
      modifies this`stats
      ensures stats == Plus(old(stats), i, 0 - v)
    {
      stats := stats[i := (stats[i] - v) % WORD];
    }
  }

  function Succ(i: nat, n: nat): nat requires i < n { if i == n - 1 then 0 else i + 1 }

  function Pred(i: nat, n: nat): nat requires i < n { if i == 0 then n - 1 else i - 1 }

  ghost predicate Linked(ring: seq<AllocatorStats>)
    reads ring
  {
    && (forall i {:trigger ring[i].next} :: 0 <= i < |ring| ==> ring[i].next == ring[Succ(i, |ring|)])
    && (forall i {:trigger ring[i].prev} :: 0 <= i < |ring| ==> ring[i].prev == ring[Pred(i, |ring|)])
  }

  /** The links once s stands between the head and what followed it. */
  lemma LinkedAfterInsert(r: seq<AllocatorStats>, s: AllocatorStats)
    requires r != [] && s !in r && s.next == r[Succ(0, |r|)] && s.prev == r[0] && r[0].next == s
    requires forall i {:trigger r[i].next} :: 0 < i < |r| ==> r[i].next == r[Succ(i, |r|)]
    requires forall i {:trigger r[i].prev} :: 0 <= i < |r| ==> r[i].prev == if i == Succ(0, |r|) then s else r[Pred(i, |r|)]
    ensures Linked([r[0], s] + r[1..])
  {
  }

  /** The links once the neighbours of node k have been joined. */
  lemma LinkedAfterRemove(r: seq<AllocatorStats>, k: nat)
    requires 0 < k < |r|
    requires forall i {:trigger r[i].next} :: 0 <= i < |r| && i != k ==> r[i].next == if i == k - 1 then r[Succ(k, |r|)] else r[Succ(i, |r|)]
    requires forall i {:trigger r[i].prev} :: 0 <= i < |r| && i != k ==> r[i].prev == if i == Succ(k, |r|) then r[k - 1] else r[Pred(i, |r|)]
    ensures Linked(r[..k] + r[k + 1..])
  {
  }

  ghost predicate Distinct(r: seq<AllocatorStats>) { forall i, j :: 0 <= i < j < |r| ==> r[i] != r[j] }

  lemma DistinctAfterInsert(r: seq<AllocatorStats>, s: AllocatorStats)
    requires r != [] && s !in r && Distinct(r)
    ensures Distinct([r[0], s] + r[1..])
  {
  }

  lemma DistinctAfterRemove(r: seq<AllocatorStats>, k: nat)
    requires k < |r| && Distinct(r)
    ensures Distinct(r[..k] + r[k + 1..])
  {
  }

  class AllocatorGlobalStats {
    const hub: AllocatorStats
    ghost var ring: seq<AllocatorStats>

    /** The nodes form a ring; before the first registration the hub has no links. */
    ghost predicate Valid() reads this, ring {
      && ring != [] && ring[0] == hub
      && Distinct(ring)
      && (if hub.next == null then |ring| == 1 else Linked(ring))
    }

    ghost function Value(): (v: seq<Node<AllocatorStats>>)
      reads this, ring
      ensures |v| == |ring|
    {
      seq(|ring|, i requires 0 <= i < |ring| reads this, ring => Node(ring[i], ring[i].stats))
    }

    constructor Init()
      ensures Valid() && fresh(hub) && Value() == [Node(hub, [0, 0])]
    {
      hub := new AllocatorStats.Init();
      new;
      ring := [hub];
    }

    method LazyInit()
      requires Valid()
      modifies hub`next, hub`prev
      ensures Valid() && Linked(ring) && Value() == old(Value())
    {
      if hub.next == null { hub.next, hub.prev := hub, hub; }
    }

    /** The pointer changes of a registration. */
    method Link(s: AllocatorStats)
      requires Valid() && s !in ring
      modifies this, ring, s
      ensures Valid() && ring == [hub, s] + old(ring)[1..] && s.stats == old(s.stats)
      ensures forall x :: x in old(ring) ==> x.stats == old(x.stats)
    {
      LazyInit();
      ghost var r := ring;
      var first := hub.next;
      assert first == r[Succ(0, |r|)];
      label Before:
      PutBehindHub(s, first);
      forall i {:trigger r[i].next} | 0 < i < |r| ensures r[i].next == r[Succ(i, |r|)] {
        assert r[i] != hub && r[i] != s && r[i].next == old@Before(r[i].next);
      }
      forall i {:trigger r[i].prev} | 0 <= i < |r| ensures r[i].prev == if i == Succ(0, |r|) then s else r[Pred(i, |r|)] {
        if i != Succ(0, |r|) { assert r[i] != first && r[i] != s && r[i].prev == old@Before(r[i].prev); }
      }
      LinkedAfterInsert(r, s);
      DistinctAfterInsert(r, s);
      ring := [hub, s] + ring[1..];
    }

    /** The four stores. */
    method PutBehindHub(s: AllocatorStats, first: AllocatorStats)
      requires s != hub && s != first
      modifies s`next, s`prev, hub`next, first`prev
      ensures s.next == first && s.prev == hub && first.prev == s && hub.next == s
    {
      s.next := first;
      s.prev := hub;
      first.prev := s;
      hub.next := s;
    }

    method Register(s: AllocatorStats)
      requires Valid() && s !in ring
      modifies this, ring, s
      ensures Valid() && ring == [hub, s] + old(ring)[1..]
      ensures Value() == Registered(old(Value()), Node(s, old(s.stats)))
    {
      ghost var v, c := Value(), s.stats;
      Link(s);
      forall i | 0 <= i < |ring| ensures Value()[i] == Registered(v, Node(s, c))[i] {
        if i > 1 { assert ring[i] == v[i - 1].id; }
      }
    }

    /** The pointer changes of an unregistration. */
    method Unlink(s: AllocatorStats, ghost k: nat)
      requires Valid() && 0 < k < |ring| && ring[k] == s
      modifies this, ring
      ensures Valid() && ring == old(ring)[..k] + old(ring)[k + 1..]
      ensures forall x :: x in old(ring) ==> x.stats == old(x.stats)
    {
      ghost var r := ring;
      var before, after := s.prev, s.next;
      assert before == r[k - 1] && after == r[Succ(k, |r|)];
      label Before:
      Join(before, after);
      forall i {:trigger r[i].next} | 0 <= i < |r| && i != k
        ensures r[i].next == if i == k - 1 then r[Succ(k, |r|)] else r[Succ(i, |r|)]
      {
        if i != k - 1 { assert r[i] != before && r[i].next == old@Before(r[i].next); }
      }
      forall i {:trigger r[i].prev} | 0 <= i < |r| && i != k
        ensures r[i].prev == if i == Succ(k, |r|) then r[k - 1] else r[Pred(i, |r|)]
      {
        if i != Succ(k, |r|) { assert r[i] != after && r[i].prev == old@Before(r[i].prev); }
      }
      LinkedAfterRemove(r, k);
      DistinctAfterRemove(r, k);
      ring := ring[..k] + ring[k + 1..];
    }

    /** The two stores. */
    method Join(before: AllocatorStats, after: AllocatorStats)
      modifies before`next, after`prev
      ensures before.next == after && after.prev == before
    {
      before.next := after;
      after.prev := before;
    }

    /** `Unregister`: the node leaves, its counters stay with the global ones. */
    method Unregister(s: AllocatorStats, ghost k: nat)
      requires Valid() && 0 < k < |ring| && ring[k] == s
      modifies this, ring
      ensures Valid() && ring == old(ring)[..k] + old(ring)[k + 1..]
      ensures Value() == Unregistered(old(Value()), k)
    {
      ghost var v := Value();
      Unlink(s, k);
      hub.Add(0, s.stats[0]);
      hub.Add(1, s.stats[1]);
      assert hub.stats == Merge(v[0].stats, v[k].stats);
      forall i | 0 <= i < |ring| ensures Value()[i] == Unregistered(v, k)[i] {
        if i > 0 { assert ring[i] == v[if i < k then i else i + 1].id; }
      }
    }

    /** One walk around the ring. */
    method SumUp() returns (s: seq<nat>)
      requires Valid()
      ensures |s| == COUNT && forall w :: 0 <= w < COUNT ==> s[w] == Total(Value(), w)
    {
      s := [0, 0];
      var stats: AllocatorStats? := hub;
      ghost var k := 0;
      ghost var v := Value();
      while stats != null
        invariant k <= |ring| && |s| == COUNT
        invariant if stats == null then k == |ring| else k < |ring| && stats == ring[k]
        invariant forall w :: 0 <= w < COUNT ==> s[w] == Total(v[..k], w)
        decreases |ring| - k
      {
        SumOne(v, k, s);
        s := [(s[0] + stats.stats[0]) % WORD, (s[1] + stats.stats[1]) % WORD];
        stats := stats.next;
        k := k + 1;
        if stats == hub { break; }
      }
      assert k == |ring| && v[..k] == v;
    }

    /** `Get`: negative totals are told as zero. */
    method Get() returns (s: seq<nat>)
      requires Valid()
      ensures |s| == COUNT && forall w :: 0 <= w < COUNT ==> s[w] == Reported(Total(Value(), w))
    {
      s := SumUp();
      s := [if s[0] < HALF then s[0] else 0, if s[1] < HALF then s[1] else 0];
    }
  }

  lemma SumOne<T>(v: seq<Node<T>>, k: nat, s: seq<nat>)
    requires k < |v| && |s| == COUNT && forall w :: 0 <= w < COUNT ==> s[w] == Total(v[..k], w)
    ensures forall w :: 0 <= w < COUNT ==> Total(v[..k + 1], w) == (s[w] + v[k].stats[w]) % WORD
  {
    assert v[..k + 1][..k] == v[..k];
    forall w | 0 <= w < COUNT ensures Total(v[..k + 1], w) == (s[w] + v[k].stats[w]) % WORD {
      var q := Wraps(Raw(v[..k], w));
      SameWrap(s[w] + v[k].stats[w], Raw(v[..k + 1], w), q);
    }
  }
}
