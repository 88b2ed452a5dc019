/** The concurrent address hash map (sanitizer_addrhashmap.h), one bucket at a time: handles are
    acquired and released in interleaved steps. Embedded cells are read without a lock, so every
    store to one is its own step; the add array is only touched under the bucket's lock. */
module AddrHashMap {
  import opened Wrappers
  import A = Arith

  type Val = int

  const CELLS: nat := 3              // embedded cells of a bucket
  const INIT_BYTES: nat := 64        // first size of an add array
  const HEADER: nat := 16            // its two counters

  /** Address 0 marks a free cell. */
  datatype Cell = Cell(addr: nat, val: Val)

  /** The add array: `slots` is the allocation, the first `size` of them are in use. */
  datatype Add = Add(slots: seq<Cell>, size: nat)

  datatype Bucket = Bucket(cells: seq<Cell>, add: Option<Add>)

  datatype Loc = Embed(i: nat) | Slot(j: nat)

  function Size(b: Bucket): nat { if b.add.Some? then b.add.value.size else 0 }

  /** A place that holds a key or may hold one. */
  predicate Live(b: Bucket, p: Loc) {
    match p
    case Embed(i) => i < |b.cells|
    case Slot(j) => b.add.Some? && j < b.add.value.size && j < |b.add.value.slots|
  }

  function At(b: Bucket, p: Loc): Cell
    requires Live(b, p)
  {
    match p case Embed(i) => b.cells[i] case Slot(j) => b.add.value.slots[j]
  }

  function Put(b: Bucket, p: Loc, c: Cell): Bucket
    requires Live(b, p)
  {
    match p
    case Embed(i) => b.(cells := b.cells[i := c])
    case Slot(j) => b.(add := Some(b.add.value.(slots := b.add.value.slots[j := c])))
  }

  // Growing the add array.

  const EMPTY := Cell(0, 0)

  function InitCap(cell: nat): nat
    requires 0 < cell <= INIT_BYTES - HEADER
  {
    A.Quot(INIT_BYTES - (HEADER + cell), cell) + 1
  }

  function Bytes(cap: nat, cell: nat): nat { HEADER + A.Product(cap, cell) }

  /** The allocation doubles; its capacity is what fits behind the header. */
  function GrownCap(cap: nat, cell: nat): (c: nat)
    requires 0 < cell && 0 < cap
  {
    A.ProductMono(1, cap, cell);
    A.ProductOne(cell);
    A.Quot(2 * Bytes(cap, cell) - (HEADER + cell), cell) + 1
  }

  /** The first array holds at least one cell and stays inside its allocation. */
  lemma FirstCapacityFits(cell: nat)
    requires 0 < cell <= INIT_BYTES - HEADER
    ensures 0 < InitCap(cell) && Bytes(InitCap(cell), cell) <= INIT_BYTES
  {
    A.QuotRem(INIT_BYTES - (HEADER + cell), cell);
    A.ProductAdd(InitCap(cell) - 1, 1, cell);
    A.ProductOne(cell);
  }

  /** A grown array has more cells than before and stays inside twice the old allocation. */
  lemma GrownCapacityFits(cap: nat, cell: nat)
    requires 0 < cell && 0 < cap
    ensures cap < GrownCap(cap, cell) && Bytes(GrownCap(cap, cell), cell) <= 2 * Bytes(cap, cell)
  {
    A.ProductMono(1, cap, cell);
    A.ProductOne(cell);
    var n, q := 2 * Bytes(cap, cell) - (HEADER + cell), GrownCap(cap, cell) - 1;
    A.QuotRem(n, cell);
    A.ProductAdd(q, 1, cell);
    if q < cap { A.ProductMono(q + 1, cap, cell); }
  }

  function Zeros(n: nat): seq<Cell> { seq(n, k => EMPTY) }

  /** Room for one more slot at the end. */
  function WithRoom(add: Option<Add>, cell: nat): (a: Add)
    requires 0 < cell <= INIT_BYTES - HEADER
    requires add.Some? ==> add.value.size <= |add.value.slots| && 0 < |add.value.slots|
    ensures a.size == (if add.Some? then add.value.size else 0) && a.size < |a.slots|
    ensures add.Some? ==> |add.value.slots| <= |a.slots| && a.slots[..|add.value.slots|] == add.value.slots
    ensures add.Some? && add.value.size < |add.value.slots| ==> a.slots == add.value.slots
    ensures forall j :: (if add.Some? then |add.value.slots| else 0) <= j < |a.slots| ==> a.slots[j] == EMPTY
  {
    if add.None? then
      FirstCapacityFits(cell);
      Add(Zeros(InitCap(cell)), 0)
    else if add.value.size < |add.value.slots| then add.value
    else
      var cap := |add.value.slots|;
      GrownCapacityFits(cap, cell);
      Add(add.value.slots + Zeros(GrownCap(cap, cell) - cap), add.value.size)
  }

  // What a bucket looks like while its lock is held for writing.

  datatype Mode =
    | Quiet
    | Hole(p: Loc)        // p is free: reserved for an insertion, or just emptied
    | Flight(i: nat)      // cell i is free and the slot past the end is on its way there
    | Leftover            // the slot past the end has been copied but not cleared

  ghost predicate Distinct(b: Bucket) {
    forall p, q :: Live(b, p) && Live(b, q) && p != q && At(b, p).addr != 0 ==> At(b, p).addr != At(b, q).addr
  }

  ghost predicate HasKey(b: Bucket, k: nat) {
    exists p :: Live(b, p) && At(b, p).addr == k
  }

  ghost predicate BucketOk(b: Bucket, m: Mode) {
    && |b.cells| == CELLS
    && (b.add.Some? ==> b.add.value.size <= |b.add.value.slots| && 0 < |b.add.value.slots|)
    && Distinct(b)
    && (forall j :: 0 <= j < Size(b) ==> b.add.value.slots[j].addr != 0 || m == Hole(Slot(j)))
    && (b.add.Some? ==> forall j :: Size(b) <= j < |b.add.value.slots| ==>
          b.add.value.slots[j].addr == 0 || ((m.Flight? || m.Leftover?) && j == Size(b)))
    && (Size(b) > 0 ==> forall i :: 0 <= i < CELLS ==> b.cells[i].addr != 0 || m == Hole(Embed(i)) || m == Flight(i))
    && (m.Hole? ==> Live(b, m.p) && At(b, m.p).addr == 0)
    && (m.Flight? ==> m.i < CELLS && b.cells[m.i].addr == 0)
    && (m.Flight? || m.Leftover? ==> b.add.Some? && b.add.value.size < |b.add.value.slots|)
    && (m.Flight? ==> Past(b).addr != 0 && !HasKey(b, Past(b).addr))
  }

  /** The slot just past the ones in use. */
  function Past(b: Bucket): Cell
    requires b.add.Some? && b.add.value.size < |b.add.value.slots|
  {
    b.add.value.slots[b.add.value.size]
  }

  /** The finite map a bucket stands for; a slot in flight still counts. */
  ghost predicate Maps(b: Bucket, m: Mode, k: nat, v: Val) {
    && k != 0
    && ((exists p :: Live(b, p) && At(b, p) == Cell(k, v))
        || (m.Flight? && b.add.Some? && b.add.value.size < |b.add.value.slots| && Past(b) == Cell(k, v)))
  }

  // The stores of the map, one at a time, and what each does to a bucket.

  function SetAddr(b: Bucket, p: Loc, k: nat): Bucket
    requires Live(b, p)
  {
    Put(b, p, At(b, p).(addr := k))
  }

  function SetVal(b: Bucket, p: Loc, v: Val): Bucket
    requires Live(b, p)
  {
    Put(b, p, At(b, p).(val := v))
  }

  lemma PutPoint(b: Bucket, p: Loc, c: Cell, q: Loc)
    requires Live(b, p)
    ensures Live(Put(b, p, c), q) <==> Live(b, q)
    ensures Live(b, q) ==> At(Put(b, p, c), q) == if q == p then c else At(b, q)
  {
  }

  ghost predicate SameMap(b: Bucket, m: Mode, b1: Bucket, m1: Mode) {
    forall k, v :: Maps(b1, m1, k, v) <==> Maps(b, m, k, v)
  }

  /** The maps of b and of b1 differ in the key k only. */
  ghost predicate SameBut(b: Bucket, m: Mode, b1: Bucket, m1: Mode, k: nat) {
    forall k1, v :: k1 != k ==> (Maps(b1, m1, k1, v) <==> Maps(b, m, k1, v))
  }

  /** Publishing an insertion. */
  lemma FillHole(b: Bucket, p: Loc, k: nat)
    requires BucketOk(b, Hole(p)) && k != 0 && !HasKey(b, k)
    ensures BucketOk(SetAddr(b, p, k), Quiet) && SameBut(b, Hole(p), SetAddr(b, p, k), Quiet, k)
    ensures forall v :: Maps(SetAddr(b, p, k), Quiet, k, v) <==> v == At(b, p).val
  {
    var b1 := SetAddr(b, p, k);
    forall q ensures Live(b1, q) <==> Live(b, q) { PutPoint(b, p, Cell(k, At(b, p).val), q); }
    forall q | Live(b, q) ensures At(b1, q) == if q == p then Cell(k, At(b, p).val) else At(b, q) {
      PutPoint(b, p, Cell(k, At(b, p).val), q);
    }
    forall k1, v | k1 != k ensures Maps(b1, Quiet, k1, v) <==> Maps(b, Hole(p), k1, v) {
      if q :| Live(b, q) && At(b, q) == Cell(k1, v) { assert At(b1, q) == Cell(k1, v) || k1 == 0; }
    }
    forall v ensures Maps(b1, Quiet, k, v) <==> v == At(b, p).val {
      assert Live(b1, p) && At(b1, p) == Cell(k, At(b, p).val);
    }
  }

  /** The first store of a removal. */
  lemma MakeHole(b: Bucket, p: Loc, k: nat)
    requires BucketOk(b, Quiet) && Live(b, p) && At(b, p).addr == k && k != 0
    ensures BucketOk(SetAddr(b, p, 0), Hole(p)) && SameBut(b, Quiet, SetAddr(b, p, 0), Hole(p), k)
    ensures !HasKey(SetAddr(b, p, 0), k) && forall v :: !Maps(SetAddr(b, p, 0), Hole(p), k, v)
  {
    var b1 := SetAddr(b, p, 0);
    forall q ensures Live(b1, q) <==> Live(b, q) { PutPoint(b, p, Cell(0, At(b, p).val), q); }
    forall q | Live(b, q) ensures At(b1, q) == if q == p then Cell(0, At(b, p).val) else At(b, q) {
      PutPoint(b, p, Cell(0, At(b, p).val), q);
    }
    forall k1, v | k1 != k ensures Maps(b1, Hole(p), k1, v) <==> Maps(b, Quiet, k1, v) {
      if q :| Live(b, q) && At(b, q) == Cell(k1, v) { assert At(b1, q) == Cell(k1, v); }
    }
  }

  /** Reserving a free embedded cell. */
  lemma ReserveCell(b: Bucket, i: nat)
    requires BucketOk(b, Quiet) && i < CELLS && b.cells[i].addr == 0
    ensures BucketOk(b, Hole(Embed(i))) && SameMap(b, Quiet, b, Hole(Embed(i)))
  {
  }

  /** A new slot behind the others. */
  function Extend(b: Bucket, cell: nat): Bucket
    requires 0 < cell <= INIT_BYTES - HEADER
    requires b.add.Some? ==> b.add.value.size <= |b.add.value.slots| && 0 < |b.add.value.slots|
  {
    var a := WithRoom(b.add, cell);
    b.(add := Some(a.(size := a.size + 1)))
  }

  /** Reserving a slot; it is free, as the code checks. */
  lemma ReserveSlot(b: Bucket, cell: nat)
    requires 0 < cell <= INIT_BYTES - HEADER && BucketOk(b, Quiet)
    requires forall i :: 0 <= i < CELLS ==> b.cells[i].addr != 0
    ensures var b1, p := Extend(b, cell), Slot(Size(b));
      BucketOk(b1, Hole(p)) && SameMap(b, Quiet, b1, Hole(p)) && forall k :: k != 0 ==> (HasKey(b1, k) <==> HasKey(b, k))
  {
    var b1, p, n := Extend(b, cell), Slot(Size(b)), Size(b);
    assert forall j :: 0 <= j < n ==> b1.add.value.slots[j] == b.add.value.slots[j] by {
      if b.add.Some? { assert b1.add.value.slots[..|b.add.value.slots|] == b.add.value.slots; }
    }
    assert forall j :: n <= j < |b1.add.value.slots| ==> b1.add.value.slots[j].addr == 0 by {
      if b.add.Some? { assert b1.add.value.slots[..|b.add.value.slots|] == b.add.value.slots; }
    }
    forall q ensures Live(b1, q) <==> Live(b, q) || q == p {}
    forall q | Live(b, q) ensures At(b1, q) == At(b, q) {}
    assert At(b1, p).addr == 0;
    forall k, v ensures Maps(b1, Hole(p), k, v) <==> Maps(b, Quiet, k, v) {
      if q :| Live(b, q) && At(b, q) == Cell(k, v) { assert At(b1, q) == Cell(k, v); }
    }
    forall k | k != 0 ensures HasKey(b1, k) <==> HasKey(b, k) {
      if q :| Live(b, q) && At(b, q).addr == k { assert At(b1, q).addr == k; }
    }
  }

  /** Taking the last slot off the add array, to move it into the emptied cell i. */
  function Shrink(b: Bucket): Bucket
    requires Size(b) > 0
  {
    b.(add := Some(b.add.value.(size := b.add.value.size - 1)))
  }

  lemma ShrinkKeeps(b: Bucket, i: nat)
    requires BucketOk(b, Hole(Embed(i))) && Size(b) > 0
    ensures BucketOk(Shrink(b), Flight(i)) && SameMap(b, Hole(Embed(i)), Shrink(b), Flight(i))
  {
    var b1, last := Shrink(b), Slot(Size(b) - 1);
    assert At(b, last) == Past(b1);
    forall q ensures Live(b1, q) <==> Live(b, q) && q != last {}
    forall q | Live(b1, q) ensures At(b1, q) == At(b, q) {}
    forall k, v ensures Maps(b1, Flight(i), k, v) <==> Maps(b, Hole(Embed(i)), k, v) {
      if q :| Live(b, q) && At(b, q) == Cell(k, v) {
        if q != last { assert Live(b1, q) && At(b1, q) == Cell(k, v); }
      }
      if q :| Live(b1, q) && At(b1, q) == Cell(k, v) { assert Live(b, q) && At(b, q) == Cell(k, v); }
    }
  }

  lemma CopyValKeeps(b: Bucket, i: nat, v: Val)
    requires BucketOk(b, Flight(i))
    ensures BucketOk(SetVal(b, Embed(i), v), Flight(i)) && SameMap(b, Flight(i), SetVal(b, Embed(i), v), Flight(i))
  {
    var b1 := SetVal(b, Embed(i), v);
    forall q ensures Live(b1, q) <==> Live(b, q) { PutPoint(b, Embed(i), Cell(0, v), q); }
    forall q | Live(b, q) ensures At(b1, q) == if q == Embed(i) then Cell(0, v) else At(b, q) {
      PutPoint(b, Embed(i), Cell(0, v), q);
    }
    forall k, w ensures Maps(b1, Flight(i), k, w) <==> Maps(b, Flight(i), k, w) {
      if q :| Live(b, q) && At(b, q) == Cell(k, w) { assert k == 0 || At(b1, q) == Cell(k, w); }
      if q :| Live(b1, q) && At(b1, q) == Cell(k, w) { assert k == 0 || At(b, q) == Cell(k, w); }
    }
  }

  /** The moved key is published in its new cell after its value is there. */
  lemma PublishKeeps(b: Bucket, i: nat)
    requires BucketOk(b, Flight(i)) && b.cells[i].val == Past(b).val
    ensures var b1 := SetAddr(b, Embed(i), Past(b).addr); BucketOk(b1, Leftover) && SameMap(b, Flight(i), b1, Leftover)
  {
    var c, b1 := Past(b), SetAddr(b, Embed(i), Past(b).addr);
    forall q ensures Live(b1, q) <==> Live(b, q) { PutPoint(b, Embed(i), c, q); }
    forall q | Live(b, q) ensures At(b1, q) == if q == Embed(i) then c else At(b, q) { PutPoint(b, Embed(i), c, q); }
    assert forall q :: Live(b, q) ==> At(b, q).addr != c.addr;
    forall k, v ensures Maps(b1, Leftover, k, v) <==> Maps(b, Flight(i), k, v) {
      if q :| Live(b, q) && At(b, q) == Cell(k, v) { assert k == 0 || At(b1, q) == Cell(k, v); }
      if q :| Live(b1, q) && At(b1, q) == Cell(k, v) { assert q == Embed(i) || At(b, q) == Cell(k, v); }
      assert Live(b1, Embed(i)) && At(b1, Embed(i)) == c;
    }
  }

  /** Freeing the slot past the end. */
  function ClearPast(b: Bucket): Bucket
    requires b.add.Some? && b.add.value.size < |b.add.value.slots|
  {
    var n := b.add.value.size;
    b.(add := Some(b.add.value.(slots := b.add.value.slots[n := Past(b).(addr := 0)])))
  }

  lemma ClearPastKeeps(b: Bucket)
    requires BucketOk(b, Leftover)
    ensures BucketOk(ClearPast(b), Quiet) && SameMap(b, Leftover, ClearPast(b), Quiet)
  {
    var b1 := ClearPast(b);
    forall q ensures Live(b1, q) <==> Live(b, q) {}
    forall q | Live(b, q) ensures At(b1, q) == At(b, q) {}
    forall k, v ensures Maps(b1, Quiet, k, v) <==> Maps(b, Leftover, k, v) {
      if q :| Live(b, q) && At(b, q) == Cell(k, v) { assert At(b1, q) == Cell(k, v); }
    }
  }

  /** With no slot in use an emptied cell needs no refill. */
  lemma NothingToMove(b: Bucket, i: nat)
    requires BucketOk(b, Hole(Embed(i))) && Size(b) == 0
    ensures BucketOk(b, Quiet) && SameMap(b, Hole(Embed(i)), b, Quiet)
  {
  }

  /** The last slot goes into the emptied slot j, which may be the last one itself. */
  function Compact(b: Bucket, j: nat): Bucket
    requires Live(b, Slot(j)) && b.add.value.size <= |b.add.value.slots|
  {
    var last, slots := b.add.value.size - 1, b.add.value.slots;
    var moved := if j == last then slots else slots[j := slots[last]][last := slots[last].(addr := 0)];
    b.(add := Some(Add(moved, last)))
  }

  lemma CompactKeeps(b: Bucket, j: nat)
    requires BucketOk(b, Hole(Slot(j)))
    ensures BucketOk(Compact(b, j), Quiet) && SameMap(b, Hole(Slot(j)), Compact(b, j), Quiet)
  {
    var b1, last := Compact(b, j), Slot(Size(b) - 1);
    forall q ensures Live(b1, q) <==> Live(b, q) && q != last {}
    forall q | Live(b1, q) ensures At(b1, q) == At(b, if q == Slot(j) then last else q) {}
    forall k, v ensures Maps(b1, Quiet, k, v) <==> Maps(b, Hole(Slot(j)), k, v) {
      if q :| Live(b, q) && At(b, q) == Cell(k, v) {
        if k != 0 {
          var q1 := if q == last then Slot(j) else q;
          assert Live(b1, q1) && At(b1, q1) == Cell(k, v);
        }
      }
      if q :| Live(b1, q) && At(b1, q) == Cell(k, v) {
        var q1 := if q == Slot(j) then last else q;
        assert Live(b, q1) && At(b, q1) == Cell(k, v);
      }
    }
  }

  /** An exclusive holder may write the value of its cell. */
  lemma SetValKeeps(b: Bucket, m: Mode, p: Loc, v: Val)
    requires BucketOk(b, m) && Live(b, p) && (m == Quiet || m == Hole(p))
    ensures BucketOk(SetVal(b, p, v), m) && SameBut(b, m, SetVal(b, p, v), m, At(b, p).addr)
    ensures At(SetVal(b, p, v), p) == Cell(At(b, p).addr, v)
    ensures forall k :: HasKey(SetVal(b, p, v), k) <==> HasKey(b, k)
  {
    var b1, c := SetVal(b, p, v), Cell(At(b, p).addr, v);
    forall q ensures Live(b1, q) <==> Live(b, q) { PutPoint(b, p, c, q); }
    forall q | Live(b, q) ensures At(b1, q) == if q == p then c else At(b, q) { PutPoint(b, p, c, q); }
    forall k1, w | k1 != At(b, p).addr ensures Maps(b1, m, k1, w) <==> Maps(b, m, k1, w) {
      if q :| Live(b, q) && At(b, q) == Cell(k1, w) { assert At(b1, q) == Cell(k1, w); }
    }
    forall k ensures HasKey(b1, k) <==> HasKey(b, k) {
      if q :| Live(b, q) && At(b, q).addr == k { assert At(b1, q).addr == k; }
      if q :| Live(b1, q) && At(b1, q).addr == k { assert At(b, q).addr == k; }
    }
  }

  // Handles and the lock.

  datatype Phase =
    | Scan(i: nat)             // reading embedded cell i without a lock
    | WantRead | ScanAdd(j: nat)
    | WantWrite | Recheck
    | HasCell(i: nat)          // acquired: an embedded cell, no lock
    | HasSlot(j: nat)          // acquired: a slot, read lock kept
    | Creating(p: Loc)         // acquired: a free place, write lock kept
    | Removing(p: Loc)         // acquired: the key's place, write lock kept
    | HasNone                  // acquired: null, no lock
    | Cleared(p: Loc) | Shrunk(i: nat) | Copied(i: nat) | Moved | Unlocking
    | Closed

  datatype Handle = Handle(key: nat, remove: bool, create: bool, phase: Phase)

  datatype Lock = Free | Writing(owner: nat) | Reading(readers: set<nat>)

  datatype State = State(b: Bucket, lock: Lock, hs: map<nat, Handle>)

  predicate KeepsWrite(ph: Phase) {
    ph.Recheck? || ph.Creating? || ph.Removing? || ph.Cleared? || ph.Shrunk? || ph.Copied? || ph.Moved? || ph.Unlocking?
  }

  predicate KeepsRead(ph: Phase) { ph.ScanAdd? || ph.HasSlot? }

  /** The lock is exactly what the phases of the handles say. */
  ghost predicate LockOk(lock: Lock, hs: map<nat, Handle>) {
    && (forall h :: h in hs ==> (KeepsWrite(hs[h].phase) <==> lock == Writing(h)))
    && (forall h :: h in hs ==> (KeepsRead(hs[h].phase) <==> lock.Reading? && h in lock.readers))
    && (lock.Writing? ==> lock.owner in hs)
    && (lock.Reading? ==> lock.readers != {} && lock.readers <= hs.Keys)
  }

  function ReadLocked(lock: Lock, h: nat): Lock
    requires !lock.Writing?
  {
    Reading((if lock.Reading? then lock.readers else {}) + {h})
  }

  function ReadUnlocked(lock: Lock, h: nat): Lock
    requires lock.Reading?
  {
    if lock.readers == {h} then Free else Reading(lock.readers - {h})
  }

  ghost function ModeOf(s: State): Mode {
    if s.lock.Writing? && s.lock.owner in s.hs then
      match s.hs[s.lock.owner].phase
      case Creating(p) => Hole(p)
      case Cleared(p) => Hole(p)
      case Shrunk(i) => Flight(i)
      case Copied(i) => Flight(i)
      case Moved => Leftover
      case _ => Quiet
    else Quiet
  }

  // Steps.

  datatype Action = Open(h: nat, key: nat, remove: bool, create: bool) | Do(h: nat) | WriteVal(h: nat, v: Val)

  ghost predicate Enabled(s: State, a: Action) {
    match a
    case Open(h, key, _, _) => h !in s.hs && key != 0
    case Do(h) => h in s.hs && (s.hs[h].phase.WantRead? ==> !s.lock.Writing?)
               && (s.hs[h].phase.WantWrite? ==> s.lock.Free?) && !s.hs[h].phase.Closed?
    case WriteVal(h, _) => h in s.hs && (s.hs[h].phase.Creating? || s.hs[h].phase.Removing?)
  }

  function CellWith(cells: seq<Cell>, k: nat): (i: nat)
    ensures i <= |cells| && (i < |cells| ==> cells[i].addr == k) && forall x :: 0 <= x < i ==> cells[x].addr != k
  {
    if cells == [] then 0 else if cells[0].addr == k then 0 else CellWith(cells[1..], k) + 1
  }

  function To(s: State, h: nat, ph: Phase): State
    requires h in s.hs
  {
    s.(hs := s.hs[h := s.hs[h].(phase := ph)])
  }

  ghost predicate Inv(s: State) {
    LockOk(s.lock, s.hs) && BucketOk(s.b, ModeOf(s)) && forall h :: h in s.hs ==> HandleOk(s.b, s.hs[h])
  }

  ghost predicate HandleOk(b: Bucket, hd: Handle) {
    && hd.key != 0
    && match hd.phase
       case Scan(i) => i <= CELLS && !hd.remove
       case WantRead => b.add.Some? && !hd.remove
       case ScanAdd(_) => b.add.Some? && !hd.remove
       case HasCell(i) => i < CELLS && !hd.remove
       case HasSlot(j) => Live(b, Slot(j)) && b.add.value.slots[j].addr == hd.key && !hd.remove
       case Creating(_) => !HasKey(b, hd.key) && !hd.remove && hd.create
       case Removing(p) => Live(b, p) && At(b, p).addr == hd.key && hd.remove
       case Cleared(_) => hd.remove && !HasKey(b, hd.key)
       case Shrunk(_) => hd.remove
       case Copied(i) => hd.remove && i < |b.cells| && b.add.Some? && b.add.value.size < |b.add.value.slots|
                      && b.cells[i].val == Past(b).val
       case Moved => hd.remove
       case HasNone => hd.remove || !hd.create
       case _ => true
  }

  /** `acquire` behind `locked:`, up to its return or its next attempt; it runs under the write
      lock, and nothing it writes is read without the lock except that an add array exists. */
  ghost function Locked(s: State, h: nat, cell: nat): State
    requires Inv(s) && h in s.hs && s.hs[h].phase.Recheck? && 0 < cell <= INIT_BYTES - HEADER
  {
    var hd, b := s.hs[h], s.b;
    var i := CellWith(b.cells, hd.key);
    var j := if b.add.Some? then CellWith(b.add.value.slots[..b.add.value.size], hd.key) else 0;
    if i < |b.cells| then
      if hd.remove then To(s, h, Removing(Embed(i))) else To(s.(lock := Free), h, Scan(0))
    else if j < Size(b) then
      if hd.remove then To(s, h, Removing(Slot(j))) else To(s.(lock := Free), h, Scan(0))
    else if hd.remove || !hd.create then To(s.(lock := Free), h, HasNone)
    else
      var free := CellWith(b.cells, 0);
      if free < |b.cells| then To(s, h, Creating(Embed(free)))
      else To(s.(b := Extend(b, cell)), h, Creating(Slot(Size(b))))
  }

  /** One step of a handle: a load, a store, a lock operation, or the locked search. */
  ghost function Advance(s: State, h: nat, cell: nat): State
    requires Inv(s) && Enabled(s, Do(h)) && 0 < cell <= INIT_BYTES - HEADER
  {
    var hd, b := s.hs[h], s.b;
    match hd.phase
    case Scan(i) =>
      if i == CELLS then To(s, h, if b.add.Some? then WantRead else WantWrite)
      else if b.cells[i].addr == hd.key then To(s, h, HasCell(i))
      else To(s, h, Scan(i + 1))
    case WantRead => To(s.(lock := ReadLocked(s.lock, h)), h, ScanAdd(0))
    case ScanAdd(j) =>
      if j >= Size(b) then To(s.(lock := ReadUnlocked(s.lock, h)), h, WantWrite)
      else if b.add.value.slots[j].addr == hd.key then To(s, h, HasSlot(j))
      else To(s, h, ScanAdd(j + 1))
    case WantWrite => To(s.(lock := Writing(h)), h, Recheck)
    case Recheck => Locked(s, h, cell)
    case HasCell(_) => To(s, h, Closed)
    case HasSlot(_) => To(s.(lock := ReadUnlocked(s.lock, h)), h, Closed)
    case HasNone => To(s, h, Closed)
    case Creating(p) => To(s.(b := SetAddr(b, p, hd.key)), h, Unlocking)
    case Removing(p) => To(s.(b := SetAddr(b, p, 0)), h, Cleared(p))
    case Cleared(p) =>
      if p.Slot? then To(s.(b := Compact(b, p.j)), h, Unlocking)
      else if Size(b) > 0 then To(s.(b := Shrink(b)), h, Shrunk(p.i))
      else To(s, h, Unlocking)
    case Shrunk(i) => To(s.(b := SetVal(b, Embed(i), Past(b).val)), h, Copied(i))
    case Copied(i) => To(s.(b := SetAddr(b, Embed(i), Past(b).addr)), h, Moved)
    case Moved => To(s.(b := ClearPast(b)), h, Unlocking)
    case Unlocking => To(s.(lock := Free), h, Closed)
    case Closed => s
  }

  ghost function Step(s: State, a: Action, cell: nat): State
    requires Inv(s) && Enabled(s, a) && 0 < cell <= INIT_BYTES - HEADER
  {
    match a
    case Open(h, key, remove, create) =>
      s.(hs := s.hs[h := Handle(key, remove, create, if remove then WantWrite else Scan(0))])
    case Do(h) => Advance(s, h, cell)
    case WriteVal(h, v) =>
      s.(b := SetVal(s.b, s.hs[h].phase.p, v))
  }

  // Every step keeps the invariant.

  ghost predicate LockStep(s: State, h: nat, ph: Phase, lock: Lock)
    requires h in s.hs
  {
    var was := s.hs[h].phase;
    || (lock == s.lock && KeepsWrite(ph) == KeepsWrite(was) && KeepsRead(ph) == KeepsRead(was))
    || (s.lock == Free && lock == Writing(h) && KeepsWrite(ph))
    || (s.lock == Writing(h) && lock == Free && !KeepsWrite(ph) && !KeepsRead(ph))
    || (!s.lock.Writing? && lock == ReadLocked(s.lock, h) && KeepsRead(ph))
    || (KeepsRead(was) && s.lock.Reading? && lock == ReadUnlocked(s.lock, h) && !KeepsWrite(ph) && !KeepsRead(ph))
  }

  lemma LockStays(s: State, h: nat, ph: Phase, lock: Lock)
    requires LockOk(s.lock, s.hs) && h in s.hs && LockStep(s, h, ph, lock)
    ensures LockOk(lock, s.hs[h := s.hs[h].(phase := ph)])
  {
  }

  lemma OthersStay(s: State, h: nat, x: nat, b: Bucket)
    requires Inv(s) && h in s.hs && x in s.hs && x != h
    requires b == s.b || (s.lock == Writing(h) && (s.b.add.Some? ==> b.add.Some?))
    ensures HandleOk(b, s.hs[x])
  {
  }

  lemma Assemble(s: State, h: nat, ph: Phase, b: Bucket, lock: Lock)
    requires Inv(s) && h in s.hs && LockStep(s, h, ph, lock)
    requires b == s.b || (s.lock == Writing(h) && (s.b.add.Some? ==> b.add.Some?))
    requires HandleOk(b, s.hs[h].(phase := ph))
    requires BucketOk(b, ModeOf(State(b, lock, s.hs[h := s.hs[h].(phase := ph)])))
    ensures Inv(State(b, lock, s.hs[h := s.hs[h].(phase := ph)]))
  {
    LockStays(s, h, ph, lock);
    forall x | x in s.hs && x != h ensures HandleOk(b, s.hs[x]) { OthersStay(s, h, x, b); }
  }

  ghost predicate InMap(s: State, k: nat) { exists v :: Maps(s.b, ModeOf(s), k, v) }

  ghost predicate SameState(s: State, t: State) { SameMap(s.b, ModeOf(s), t.b, ModeOf(t)) }

  /** What the step does to the map: the publishing store of a creation inserts the key with
      the value written so far, the first store of a removal removes it, and nothing else,
      not even moving a slot into an emptied cell, changes it. */
  ghost predicate MapStep(s: State, h: nat, t: State)
    requires h in s.hs
  {
    var k := s.hs[h].key;
    match s.hs[h].phase
    case Creating(p) =>
      && !InMap(s, k) && SameBut(s.b, ModeOf(s), t.b, ModeOf(t), k)
      && Live(s.b, p) && forall v :: Maps(t.b, ModeOf(t), k, v) <==> v == At(s.b, p).val
    case Removing(_) => InMap(s, k) && !InMap(t, k) && SameBut(s.b, ModeOf(s), t.b, ModeOf(t), k)
    case _ => SameState(s, t)
  }

  lemma WriterMode(s: State, h: nat)
    requires Inv(s) && h in s.hs && KeepsWrite(s.hs[h].phase)
    ensures s.lock == Writing(h)
    ensures s.hs[h].phase.Creating? || s.hs[h].phase.Cleared? ==> ModeOf(s) == Hole(s.hs[h].phase.p)
    ensures s.hs[h].phase.Shrunk? || s.hs[h].phase.Copied? ==> ModeOf(s) == Flight(s.hs[h].phase.i)
    ensures s.hs[h].phase.Moved? ==> ModeOf(s) == Leftover
    ensures s.hs[h].phase.Recheck? || s.hs[h].phase.Removing? || s.hs[h].phase.Unlocking? ==> ModeOf(s) == Quiet
  {
  }

  lemma AbsentFromMap(b: Bucket, m: Mode, k: nat)
    requires !HasKey(b, k) && !m.Flight?
    ensures forall v :: !Maps(b, m, k, v)
  {
  }

  lemma ModeStays(s: State, h: nat, ph: Phase, lock: Lock)
    requires LockOk(s.lock, s.hs) && h in s.hs && LockStep(s, h, ph, lock) && !KeepsWrite(s.hs[h].phase)
    requires KeepsWrite(ph) ==> ph.Recheck?
    ensures ModeOf(State(s.b, lock, s.hs[h := s.hs[h].(phase := ph)])) == ModeOf(s)
  {
  }

  lemma ReaderPieces(s: State, h: nat, cell: nat)
    requires Inv(s) && Enabled(s, Do(h)) && !KeepsWrite(s.hs[h].phase) && 0 < cell <= INIT_BYTES - HEADER
    ensures var t := Advance(s, h, cell);
      && h in t.hs && t.b == s.b && t == State(s.b, t.lock, s.hs[h := s.hs[h].(phase := t.hs[h].phase)])
      && HandleOk(s.b, s.hs[h].(phase := t.hs[h].phase)) && (KeepsWrite(t.hs[h].phase) ==> t.hs[h].phase.Recheck?)
      && LockStep(s, h, t.hs[h].phase, t.lock)
  {
    assert HandleOk(s.b, s.hs[h]);
  }

  /** Steps outside the write lock touch neither the bucket nor its mode. */
  lemma ReaderStep(s: State, h: nat, cell: nat)
    requires Inv(s) && Enabled(s, Do(h)) && !KeepsWrite(s.hs[h].phase) && 0 < cell <= INIT_BYTES - HEADER
    ensures var t := Advance(s, h, cell); Inv(t) && SameState(s, t) && t.b == s.b
  {
    var t := Advance(s, h, cell);
    ReaderPieces(s, h, cell);
    ModeStays(s, h, t.hs[h].phase, t.lock);
    Assemble(s, h, t.hs[h].phase, s.b, t.lock);
  }

  /** The locked search finds no place for the key just when the key is not there. */
  lemma LockedSearch(b: Bucket, k: nat)
    requires BucketOk(b, Quiet)
    requires CellWith(b.cells, k) == |b.cells|
    requires (if b.add.Some? then CellWith(b.add.value.slots[..b.add.value.size], k) else 0) >= Size(b)
    ensures !HasKey(b, k) && forall v :: !Maps(b, Quiet, k, v)
  {
  }

  /** The search ends, or starts over, without a change to the bucket. */
  lemma LockedFinds(s: State, h: nat, ph: Phase, lock: Lock)
    requires Inv(s) && h in s.hs && s.hs[h].phase.Recheck? && LockStep(s, h, ph, lock)
    requires HandleOk(s.b, s.hs[h].(phase := ph)) && (ph.Removing? || !KeepsWrite(ph))
    ensures var t := State(s.b, lock, s.hs[h := s.hs[h].(phase := ph)]); Inv(t) && SameState(s, t)
  {
  }

  /** The search creates the key: a free embedded cell first, a slot otherwise. */
  lemma LockedCreates(s: State, h: nat, cell: nat)
    requires Inv(s) && h in s.hs && s.hs[h].phase.Recheck? && 0 < cell <= INIT_BYTES - HEADER
    requires !HasKey(s.b, s.hs[h].key) && !s.hs[h].remove && s.hs[h].create
    ensures var free := CellWith(s.b.cells, 0);
      var t := if free < |s.b.cells| then To(s, h, Creating(Embed(free)))
               else To(s.(b := Extend(s.b, cell)), h, Creating(Slot(Size(s.b))));
      Inv(t) && SameState(s, t)
  {
    WriterMode(s, h);
    assert HandleOk(s.b, s.hs[h]);
    var free := CellWith(s.b.cells, 0);
    if free < |s.b.cells| {
      ReserveCell(s.b, free);
      Assemble(s, h, Creating(Embed(free)), s.b, s.lock);
    } else {
      ReserveSlot(s.b, cell);
      Assemble(s, h, Creating(Slot(Size(s.b))), Extend(s.b, cell), s.lock);
    }
  }

  lemma LockedHit(s: State, h: nat, p: Loc)
    requires Inv(s) && h in s.hs && s.hs[h].phase.Recheck? && Live(s.b, p) && At(s.b, p).addr == s.hs[h].key
    ensures var t := if s.hs[h].remove then To(s, h, Removing(p)) else To(s.(lock := Free), h, Scan(0));
      Inv(t) && SameState(s, t)
  {
    WriterMode(s, h);
    assert HandleOk(s.b, s.hs[h]);
    if s.hs[h].remove { LockedFinds(s, h, Removing(p), s.lock); } else { LockedFinds(s, h, Scan(0), Free); }
  }

  lemma LockedMiss(s: State, h: nat)
    requires Inv(s) && h in s.hs && s.hs[h].phase.Recheck? && (s.hs[h].remove || !s.hs[h].create)
    ensures var t := To(s.(lock := Free), h, HasNone); Inv(t) && SameState(s, t)
  {
  }

  lemma LockedStep(s: State, h: nat, cell: nat)
    requires Inv(s) && h in s.hs && s.hs[h].phase.Recheck? && 0 < cell <= INIT_BYTES - HEADER
    ensures var t := Locked(s, h, cell); Inv(t) && SameState(s, t)
    ensures var ph := Locked(s, h, cell).hs[h].phase; ph.HasNone? || ph.Creating? ==> !InMap(s, s.hs[h].key)
  {
    WriterMode(s, h);
    var hd, b := s.hs[h], s.b;
    var i := CellWith(b.cells, hd.key);
    var j := if b.add.Some? then CellWith(b.add.value.slots[..b.add.value.size], hd.key) else 0;
    if i < |b.cells| {
      LockedHit(s, h, Embed(i));
    } else if j < Size(b) {
      LockedHit(s, h, Slot(j));
    } else {
      LockedSearch(b, hd.key);
      if hd.remove || !hd.create { LockedMiss(s, h); } else { LockedCreates(s, h, cell); }
    }
  }

  lemma PublishStep(s: State, h: nat, cell: nat)
    requires Inv(s) && h in s.hs && s.hs[h].phase.Creating? && 0 < cell <= INIT_BYTES - HEADER
    ensures var t := Advance(s, h, cell); Inv(t) && MapStep(s, h, t)
  {
    WriterMode(s, h);
    var hd, t := s.hs[h], Advance(s, h, cell);
    assert HandleOk(s.b, hd);
    AbsentFromMap(s.b, Hole(hd.phase.p), hd.key);
    FillHole(s.b, hd.phase.p, hd.key);
    Assemble(s, h, Unlocking, t.b, t.lock);
  }

  lemma RemoveStep(s: State, h: nat, cell: nat)
    requires Inv(s) && h in s.hs && s.hs[h].phase.Removing? && 0 < cell <= INIT_BYTES - HEADER
    ensures var t := Advance(s, h, cell); Inv(t) && MapStep(s, h, t)
  {
    WriterMode(s, h);
    var hd, t := s.hs[h], Advance(s, h, cell);
    var p := hd.phase.p;
    assert HandleOk(s.b, hd);
    assert Maps(s.b, Quiet, hd.key, At(s.b, p).val) by { assert At(s.b, p) == Cell(hd.key, At(s.b, p).val); }
    MakeHole(s.b, p, hd.key);
    Assemble(s, h, Cleared(p), t.b, t.lock);
  }

  /** A step of the handle that has the write lock. */
  lemma WriterStep(s: State, h: nat, ph: Phase, b: Bucket, lock: Lock, m: Mode)
    requires Inv(s) && h in s.hs && s.lock == Writing(h) && LockStep(s, h, ph, lock)
    requires (s.b.add.Some? ==> b.add.Some?) && HandleOk(b, s.hs[h].(phase := ph))
    requires m == ModeOf(State(b, lock, s.hs[h := s.hs[h].(phase := ph)]))
    requires BucketOk(b, m) && SameMap(s.b, ModeOf(s), b, m)
    ensures var t := State(b, lock, s.hs[h := s.hs[h].(phase := ph)]); Inv(t) && SameState(s, t)
  {
    Assemble(s, h, ph, b, lock);
  }

  lemma CompactStep(s: State, h: nat, j: nat)
    requires Inv(s) && h in s.hs && s.hs[h].phase == Cleared(Slot(j))
    ensures Live(s.b, Slot(j)) && s.b.add.value.size <= |s.b.add.value.slots|
    ensures var t := To(s.(b := Compact(s.b, j)), h, Unlocking); Inv(t) && SameState(s, t)
  {
    WriterMode(s, h);
    assert HandleOk(s.b, s.hs[h]);
    CompactKeeps(s.b, j);
    WriterStep(s, h, Unlocking, Compact(s.b, j), s.lock, Quiet);
  }

  lemma ShrinkStep(s: State, h: nat, i: nat)
    requires Inv(s) && h in s.hs && s.hs[h].phase == Cleared(Embed(i))
    ensures var t := if Size(s.b) > 0 then To(s.(b := Shrink(s.b)), h, Shrunk(i)) else To(s, h, Unlocking);
      Inv(t) && SameState(s, t)
  {
    WriterMode(s, h);
    assert HandleOk(s.b, s.hs[h]);
    if Size(s.b) > 0 {
      ShrinkKeeps(s.b, i);
      WriterStep(s, h, Shrunk(i), Shrink(s.b), s.lock, Flight(i));
    } else {
      NothingToMove(s.b, i);
      WriterStep(s, h, Unlocking, s.b, s.lock, Quiet);
    }
  }

  lemma ClearedStep(s: State, h: nat, cell: nat)
    requires Inv(s) && h in s.hs && s.hs[h].phase.Cleared? && 0 < cell <= INIT_BYTES - HEADER
    ensures var t := Advance(s, h, cell); Inv(t) && SameState(s, t)
  {
    match s.hs[h].phase.p
    case Slot(j) => CompactStep(s, h, j);
    case Embed(i) => ShrinkStep(s, h, i);
  }

  lemma CopyValStep(s: State, h: nat, i: nat, cell: nat)
    requires Inv(s) && h in s.hs && s.hs[h].phase == Shrunk(i) && 0 < cell <= INIT_BYTES - HEADER
    ensures var t := Advance(s, h, cell); Inv(t) && SameState(s, t)
  {
    WriterMode(s, h);
    assert HandleOk(s.b, s.hs[h]);
    CopyValKeeps(s.b, i, Past(s.b).val);
    WriterStep(s, h, Copied(i), SetVal(s.b, Embed(i), Past(s.b).val), s.lock, Flight(i));
  }

  lemma PublishMovedStep(s: State, h: nat, i: nat, cell: nat)
    requires Inv(s) && h in s.hs && s.hs[h].phase == Copied(i) && 0 < cell <= INIT_BYTES - HEADER
    ensures var t := Advance(s, h, cell); Inv(t) && SameState(s, t)
  {
    WriterMode(s, h);
    assert HandleOk(s.b, s.hs[h]);
    PublishKeeps(s.b, i);
    WriterStep(s, h, Moved, SetAddr(s.b, Embed(i), Past(s.b).addr), s.lock, Leftover);
  }

  lemma LastStores(s: State, h: nat, cell: nat)
    requires Inv(s) && h in s.hs && 0 < cell <= INIT_BYTES - HEADER
    requires s.hs[h].phase.Moved? || s.hs[h].phase.Unlocking?
    ensures var t := Advance(s, h, cell); Inv(t) && SameState(s, t)
  {
    WriterMode(s, h);
    assert HandleOk(s.b, s.hs[h]);
    if s.hs[h].phase.Moved? {
      ClearPastKeeps(s.b);
      WriterStep(s, h, Unlocking, ClearPast(s.b), s.lock, Quiet);
    } else {
      WriterStep(s, h, Closed, s.b, Free, Quiet);
    }
  }

  /** Every step of a handle keeps the bucket in order and the lock with the handles that keep
      it, and changes the map only where its publishing or removing store does. */
  lemma HandleStepKeeps(s: State, h: nat, cell: nat)
    requires Inv(s) && Enabled(s, Do(h)) && 0 < cell <= INIT_BYTES - HEADER
    ensures var t := Advance(s, h, cell); Inv(t) && MapStep(s, h, t)
  {
    match s.hs[h].phase
    case Recheck => LockedStep(s, h, cell);
    case Creating(_) => PublishStep(s, h, cell);
    case Removing(_) => RemoveStep(s, h, cell);
    case Cleared(_) => ClearedStep(s, h, cell);
    case Shrunk(i) => CopyValStep(s, h, i, cell);
    case Copied(i) => PublishMovedStep(s, h, i, cell);
    case Moved => LastStores(s, h, cell);
    case Unlocking => LastStores(s, h, cell);
    case _ => ReaderStep(s, h, cell);
  }

  lemma WriteValKeeps(s: State, h: nat, v: Val, cell: nat)
    requires Inv(s) && Enabled(s, WriteVal(h, v)) && 0 < cell <= INIT_BYTES - HEADER
    ensures var t := Step(s, WriteVal(h, v), cell); Inv(t) && SameBut(s.b, ModeOf(s), t.b, ModeOf(t), s.hs[h].key)
  {
    WriterMode(s, h);
    var t, p := Step(s, WriteVal(h, v), cell), s.hs[h].phase.p;
    assert HandleOk(s.b, s.hs[h]);
    SetValKeeps(s.b, ModeOf(s), p, v);
    assert ModeOf(t) == ModeOf(s);
    assert t.hs == s.hs[h := s.hs[h].(phase := s.hs[h].phase)];
    Assemble(s, h, s.hs[h].phase, t.b, t.lock);
    forall k, w | k != s.hs[h].key ensures Maps(t.b, ModeOf(t), k, w) <==> Maps(s.b, ModeOf(s), k, w) {
      assert k != At(s.b, p).addr || k == 0;
    }
  }

  lemma OpenKeeps(s: State, a: Action, cell: nat)
    requires Inv(s) && Enabled(s, a) && a.Open? && 0 < cell <= INIT_BYTES - HEADER
    ensures Inv(Step(s, a, cell)) && SameState(s, Step(s, a, cell))
  {
    assert ModeOf(Step(s, a, cell)) == ModeOf(s);
  }

  lemma StepKeepsInv(s: State, a: Action, cell: nat)
    requires Inv(s) && Enabled(s, a) && 0 < cell <= INIT_BYTES - HEADER
    ensures Inv(Step(s, a, cell))
  {
    match a
    case Open(_, _, _, _) => OpenKeeps(s, a, cell);
    case Do(h) => HandleStepKeeps(s, h, cell);
    case WriteVal(h, v) => WriteValKeeps(s, h, v, cell);
  }

  // Runs.

  /** A zeroed bucket that nobody has opened. */
  const INITIAL := State(Bucket(Zeros(CELLS), None), Free, map[])

  /** Steps are defined where the invariant holds, which is everywhere in a run, see InvAlways. */
  ghost predicate Next(s: State, a: Action, cell: nat, t: State) {
    0 < cell <= INIT_BYTES - HEADER && (Inv(s) ==> Enabled(s, a) && t == Step(s, a, cell))
  }

  ghost predicate IsRun(states: seq<State>, acts: seq<Action>, cell: nat) {
    && |states| == |acts| + 1 && states[0] == INITIAL
    && forall t :: 0 <= t < |acts| ==> Next(states[t], acts[t], cell, states[t + 1])
  }

  lemma EmptyIsInv()
    ensures Inv(INITIAL)
  {
  }

  /** Every state of every run is in order. */
  lemma {:induction false} InvAlways(states: seq<State>, acts: seq<Action>, cell: nat, n: nat)
    requires IsRun(states, acts, cell) && n < |states|
    ensures Inv(states[n])
  {
    if n == 0 {
      EmptyIsInv();
    } else {
      InvAlways(states, acts, cell, n - 1);
      assert Next(states[n - 1], acts[n - 1], cell, states[n]);
      StepKeepsInv(states[n - 1], acts[n - 1], cell);
    }
  }

  lemma TheStep(states: seq<State>, acts: seq<Action>, cell: nat, n: nat)
    requires IsRun(states, acts, cell) && n < |acts|
    ensures 0 < cell <= INIT_BYTES - HEADER && Inv(states[n]) && Enabled(states[n], acts[n])
    ensures states[n + 1] == Step(states[n], acts[n], cell) && Inv(states[n + 1])
  {
    InvAlways(states, acts, cell, n);
    assert Next(states[n], acts[n], cell, states[n + 1]);
    StepKeepsInv(states[n], acts[n], cell);
  }

  /** Whenever nobody has the write lock no key is there twice, and the add array is used only
      when the embedded cells are full. */
  lemma QuietBucket(states: seq<State>, acts: seq<Action>, cell: nat, n: nat)
    requires IsRun(states, acts, cell) && n < |states| && !states[n].lock.Writing?
    ensures var b := states[n].b;
      && (forall k, v, w :: Maps(b, Quiet, k, v) && Maps(b, Quiet, k, w) ==> v == w)
      && |b.cells| == CELLS && (b.add.Some? ==> Size(b) <= |b.add.value.slots|)
      && (Size(b) > 0 ==> forall i :: 0 <= i < CELLS ==> b.cells[i].addr != 0)
      && forall j :: 0 <= j < Size(b) ==> b.add.value.slots[j].addr != 0
  {
    InvAlways(states, acts, cell, n);
    assert ModeOf(states[n]) == Quiet && BucketOk(states[n].b, Quiet);
  }

  ghost predicate Acquiring(ph: Phase) {
    ph.Scan? || ph.WantRead? || ph.ScanAdd? || ph.WantWrite? || ph.Recheck?
  }

  /** What one step of acquiring may come to. */
  ghost predicate AcquireResult(s: State, h: nat, t: State)
    requires h in s.hs && h in t.hs
  {
    var k, ph := s.hs[h].key, t.hs[h].phase;
    && (Acquiring(ph) || ph.HasNone? || ph.Creating? || ph.HasCell? || ph.HasSlot? || ph.Removing?)
    && (ph.HasNone? || ph.Creating? ==> !InMap(s, k))
    && (ph.HasCell? ==> ph.i < |t.b.cells| && t.b.cells[ph.i].addr == k)
    && (ph.HasSlot? ==> Live(t.b, Slot(ph.j)) && At(t.b, Slot(ph.j)).addr == k)
    && (ph.Removing? ==> Live(t.b, ph.p) && At(t.b, ph.p).addr == k)
  }

  /** A null result or a creation is decided only while the key is not in the map, and a find
      returns a place that holds the key. */
  lemma AcquireStep(s: State, h: nat, cell: nat)
    requires Inv(s) && Enabled(s, Do(h)) && Acquiring(s.hs[h].phase) && 0 < cell <= INIT_BYTES - HEADER
    ensures h in Advance(s, h, cell).hs && Advance(s, h, cell).hs[h].key == s.hs[h].key
    ensures AcquireResult(s, h, Advance(s, h, cell))
  {
    if s.hs[h].phase.Recheck? { LockedAcquire(s, h, cell); } else { ReaderPieces(s, h, cell); }
  }

  lemma LockedAcquire(s: State, h: nat, cell: nat)
    requires Inv(s) && h in s.hs && s.hs[h].phase.Recheck? && 0 < cell <= INIT_BYTES - HEADER
    ensures AcquireResult(s, h, Locked(s, h, cell))
  {
    LockedStep(s, h, cell);
  }

  /** Nobody else touches a handle. */
  lemma OthersKeepPhase(s: State, a: Action, h: nat, cell: nat)
    requires Inv(s) && Enabled(s, a) && h in s.hs && 0 < cell <= INIT_BYTES - HEADER
    requires a != Do(h)
    ensures h in Step(s, a, cell).hs && Step(s, a, cell).hs[h] == s.hs[h]
  {
  }

  /** The action is the first store of a removal of k by a handle other than h. */
  ghost predicate RemovesKey(s: State, a: Action, k: nat) {
    a.Do? && a.h in s.hs && s.hs[a.h].phase.Removing? && s.hs[a.h].key == k
  }

  /** An embedded cell keeps its key unless that very key is removed. */
  lemma CellKeepsKey(s: State, a: Action, i: nat, k: nat, cell: nat)
    requires Inv(s) && Enabled(s, a) && 0 < cell <= INIT_BYTES - HEADER
    requires i < CELLS && k != 0 && s.b.cells[i].addr == k && !RemovesKey(s, a, k)
    ensures Step(s, a, cell).b.cells[i].addr == k
  {
    if a.Do? {
      assert HandleOk(s.b, s.hs[a.h]);
      if KeepsWrite(s.hs[a.h].phase) {
        WriterMode(s, a.h);
        if s.hs[a.h].phase.Recheck? { LockedStep(s, a.h, cell); }
      } else {
        ReaderStep(s, a.h, cell);
      }
    } else if a.WriteVal? {
      assert HandleOk(s.b, s.hs[a.h]);
      PutPoint(s.b, s.hs[a.h].phase.p, At(s.b, s.hs[a.h].phase.p).(val := a.v), Embed(i));
    }
  }

  /** The place an open handle stands for. */
  ghost predicate StandsFor(s: State, h: nat)
    requires h in s.hs
  {
    var k := s.hs[h].key;
    match s.hs[h].phase
    case HasCell(i) => i < |s.b.cells| && s.b.cells[i].addr == k
    case HasSlot(j) => Live(s.b, Slot(j)) && At(s.b, Slot(j)).addr == k
    case Removing(p) => Live(s.b, p) && At(s.b, p).addr == k
    case Creating(p) => Live(s.b, p) && At(s.b, p).addr == 0
    case _ => true
  }

  lemma PlaceStays(s: State, a: Action, cell: nat, h: nat)
    requires Inv(s) && Enabled(s, a) && 0 < cell <= INIT_BYTES - HEADER && h in s.hs
    requires StandsFor(s, h) && a != Do(h) && !RemovesKey(s, a, s.hs[h].key)
    ensures h in Step(s, a, cell).hs && Step(s, a, cell).hs[h] == s.hs[h] && StandsFor(Step(s, a, cell), h)
  {
    assert HandleOk(s.b, s.hs[h]);
    StepKeepsInv(s, a, cell);
    OthersKeepPhase(s, a, h, cell);
    var t := Step(s, a, cell);
    assert HandleOk(t.b, t.hs[h]);
    if s.hs[h].phase.HasCell? { CellKeepsKey(s, a, s.hs[h].phase.i, s.hs[h].key, cell); }
    if s.hs[h].phase.Creating? { WriterMode(t, h); }
  }

  /** The handle is still acquiring, or has acquired a place that holds its key. */
  ghost predicate Finding(s: State, h: nat, k: nat) {
    && h in s.hs && s.hs[h].key == k && StandsFor(s, h)
    && (Acquiring(s.hs[h].phase) || s.hs[h].phase.HasCell? || s.hs[h].phase.HasSlot? || s.hs[h].phase.Removing?)
  }

  lemma FindingStep(s: State, a: Action, h: nat, k: nat, cell: nat)
    requires Inv(s) && Enabled(s, a) && 0 < cell <= INIT_BYTES - HEADER && Finding(s, h, k)
    requires InMap(s, k) && InMap(Step(s, a, cell), k)
    requires a == Do(h) ==> Acquiring(s.hs[h].phase)
    ensures Finding(Step(s, a, cell), h, k)
  {
    if a == Do(h) {
      AcquireStep(s, h, cell);
    } else {
      if RemovesKey(s, a, k) { HandleStepKeeps(s, a.h, cell); }
      PlaceStays(s, a, cell, h);
    }
  }

  /** `acquire` of a key that is in the map during the whole call neither comes back empty nor
      creates the key a second time, and the place it comes back with holds the key, however other
      handles' steps, removals with their moves included, come in between. The call begins at
      state a. */
  lemma {:induction false} PresentKeyIsFound(states: seq<State>, acts: seq<Action>, cell: nat, h: nat, a: nat, n: nat)
    requires IsRun(states, acts, cell) && a <= n < |states|
    requires h in states[a].hs && Acquiring(states[a].hs[h].phase)
    requires forall t :: a <= t <= n ==> InMap(states[t], states[a].hs[h].key)
    requires forall t :: a <= t < n && acts[t] == Do(h) ==> h in states[t].hs && Acquiring(states[t].hs[h].phase)
    ensures Finding(states[n], h, states[a].hs[h].key)
  {
    if n > a {
      PresentKeyIsFound(states, acts, cell, h, a, n - 1);
      TheStep(states, acts, cell, n - 1);
      FindingStep(states[n - 1], acts[n - 1], h, states[a].hs[h].key, cell);
    }
  }

  /** From acquisition until its release a handle's cell holds the handle's key (or is free, for
      one being created), so `release` passes its check, if nobody else removes that key. */
  lemma {:induction false} OpenHandleKeepsItsCell(states: seq<State>, acts: seq<Action>, cell: nat, h: nat, a: nat, n: nat)
    requires IsRun(states, acts, cell) && a <= n < |states|
    requires h in states[a].hs && StandsFor(states[a], h)
    requires forall t :: a <= t < n ==> acts[t] != Do(h)
    requires forall t :: a <= t < n ==> !RemovesKey(states[t], acts[t], states[a].hs[h].key)
    ensures h in states[n].hs && states[n].hs[h] == states[a].hs[h] && StandsFor(states[n], h)
  {
    if n > a {
      OpenHandleKeepsItsCell(states, acts, cell, h, a, n - 1);
      TheStep(states, acts, cell, n - 1);
      PlaceStays(states[n - 1], acts[n - 1], cell, h);
    }
  }

  /** The decision under the write lock, taken on the map alone: a key that is there is handed to a
      remover and sends everyone else back to the lock-free search; one that is not there is created
      for who asked for that, in an embedded cell if one is free, and answered with null otherwise. */
  ghost predicate Decision(s: State, h: nat, t: State)
    requires h in s.hs && h in t.hs
  {
    var hd, ph := s.hs[h], t.hs[h].phase;
    && SameState(s, t) && t.hs == s.hs[h := hd.(phase := ph)]
    && if InMap(s, hd.key) then
         && t.b == s.b
         && (if hd.remove then ph.Removing? && t.lock == s.lock && Live(t.b, ph.p) && At(t.b, ph.p).addr == hd.key
             else ph == Scan(0) && t.lock == Free)
       else if hd.create && !hd.remove then
         && ph.Creating? && t.lock == s.lock && Live(t.b, ph.p) && At(t.b, ph.p).addr == 0
         && (ph.p.Embed? <==> exists i :: 0 <= i < |s.b.cells| && s.b.cells[i].addr == 0)
         && t.b.cells == s.b.cells && Size(t.b) == Size(s.b) + (if ph.p.Slot? then 1 else 0)
       else ph.HasNone? && t.lock == Free && t.b == s.b
  }

  lemma FoundIsInMap(s: State, p: Loc, k: nat)
    requires Live(s.b, p) && At(s.b, p).addr == k && k != 0
    ensures InMap(s, k)
  {
    assert At(s.b, p) == Cell(k, At(s.b, p).val);
    assert Maps(s.b, ModeOf(s), k, At(s.b, p).val);
  }

  lemma HitDecides(s: State, h: nat, p: Loc)
    requires Inv(s) && h in s.hs && s.hs[h].phase.Recheck? && Live(s.b, p) && At(s.b, p).addr == s.hs[h].key
    ensures var t := if s.hs[h].remove then To(s, h, Removing(p)) else To(s.(lock := Free), h, Scan(0));
      Decision(s, h, t)
  {
    assert HandleOk(s.b, s.hs[h]);
    FoundIsInMap(s, p, s.hs[h].key);
    LockedHit(s, h, p);
  }

  lemma MissDecides(s: State, h: nat)
    requires Inv(s) && h in s.hs && s.hs[h].phase.Recheck? && (s.hs[h].remove || !s.hs[h].create) && !InMap(s, s.hs[h].key)
    ensures Decision(s, h, To(s.(lock := Free), h, HasNone))
  {
    LockedMiss(s, h);
  }

  lemma CreateDecides(s: State, h: nat, cell: nat)
    requires Inv(s) && h in s.hs && s.hs[h].phase.Recheck? && 0 < cell <= INIT_BYTES - HEADER
    requires !HasKey(s.b, s.hs[h].key) && !InMap(s, s.hs[h].key) && !s.hs[h].remove && s.hs[h].create
    ensures var free := CellWith(s.b.cells, 0);
      var t := if free < |s.b.cells| then To(s, h, Creating(Embed(free)))
               else To(s.(b := Extend(s.b, cell)), h, Creating(Slot(Size(s.b))));
      Decision(s, h, t)
  {
    LockedCreates(s, h, cell);
    var free := CellWith(s.b.cells, 0);
    var t := if free < |s.b.cells| then To(s, h, Creating(Embed(free)))
             else To(s.(b := Extend(s.b, cell)), h, Creating(Slot(Size(s.b))));
    WriterMode(t, h);
  }

  /** That decision is the one the two searches take. */
  lemma RecheckDecides(s: State, h: nat, cell: nat)
    requires Inv(s) && h in s.hs && s.hs[h].phase.Recheck? && 0 < cell <= INIT_BYTES - HEADER
    ensures h in Advance(s, h, cell).hs && Decision(s, h, Advance(s, h, cell))
  {
    var k, b := s.hs[h].key, s.b;
    var i := CellWith(b.cells, k);
    var j := if b.add.Some? then CellWith(b.add.value.slots[..b.add.value.size], k) else 0;
    if i < |b.cells| {
      HitDecides(s, h, Embed(i));
    } else if j < Size(b) {
      HitDecides(s, h, Slot(j));
    } else {
      WriterMode(s, h);
      LockedSearch(b, k);
      if s.hs[h].remove || !s.hs[h].create { MissDecides(s, h); } else { CreateDecides(s, h, cell); }
    }
  }

  // Every call is served.

  ghost predicate Decided(ph: Phase) {
    ph.HasNone? || ph.HasCell? || ph.HasSlot? || ph.Cleared? || ph.Shrunk? || ph.Copied? || ph.Moved? || ph.Unlocking? || ph.Closed?
  }

  /** What the call of h comes to in the step from s to t: it creates its key, removes it, finds it,
      or finds it absent with no wish to create it. */
  ghost predicate Serves(s: State, h: nat, t: State) {
    && h in s.hs && h in t.hs
    && var hd, ph := s.hs[h], t.hs[h].phase;
    || (hd.create && !hd.remove && !InMap(s, hd.key) && InMap(t, hd.key))
    || (hd.remove && InMap(s, hd.key) && !InMap(t, hd.key))
    || (!hd.remove && (ph.HasCell? || ph.HasSlot?) && StandsFor(t, h))
    || ((hd.remove || !hd.create) && !InMap(s, hd.key) && ph.HasNone?)
  }

  lemma ServingStep(s: State, h: nat, cell: nat)
    requires Inv(s) && Enabled(s, Do(h)) && 0 < cell <= INIT_BYTES - HEADER
    requires !Decided(s.hs[h].phase)
    ensures h in Advance(s, h, cell).hs && Advance(s, h, cell).hs[h].key == s.hs[h].key
    ensures Decided(Advance(s, h, cell).hs[h].phase) ==> Serves(s, h, Advance(s, h, cell))
  {
    match s.hs[h].phase
    case Recheck => RecheckDecides(s, h, cell);
    case Creating(p) =>
      HandleStepKeeps(s, h, cell);
      assert HandleOk(s.b, s.hs[h]);
      var t := Advance(s, h, cell);
      assert Maps(t.b, ModeOf(t), s.hs[h].key, At(s.b, p).val);
    case Removing(_) =>
      HandleStepKeeps(s, h, cell);
      assert HandleOk(s.b, s.hs[h]);
    case _ => ScanServes(s, h, cell);
  }

  lemma ScanServes(s: State, h: nat, cell: nat)
    requires Inv(s) && Enabled(s, Do(h)) && 0 < cell <= INIT_BYTES - HEADER
    requires Acquiring(s.hs[h].phase) && !s.hs[h].phase.Recheck?
    ensures h in Advance(s, h, cell).hs && Advance(s, h, cell).hs[h].key == s.hs[h].key
    ensures Decided(Advance(s, h, cell).hs[h].phase) ==> Serves(s, h, Advance(s, h, cell))
  {
    AcquireStep(s, h, cell);
    assert HandleOk(s.b, s.hs[h]);
  }

  /** A decided handle is one that this very step served, or it was decided before. */
  lemma DecidedOnce(s: State, a: Action, h: nat, cell: nat)
    requires Inv(s) && Enabled(s, a) && 0 < cell <= INIT_BYTES - HEADER
    requires h in Step(s, a, cell).hs && Decided(Step(s, a, cell).hs[h].phase)
    ensures (a == Do(h) && Serves(s, h, Step(s, a, cell))) || (h in s.hs && Decided(s.hs[h].phase))
  {
    if a == Do(h) {
      if !Decided(s.hs[h].phase) { ServingStep(s, h, cell); }
    } else if h in s.hs {
      OthersKeepPhase(s, a, h, cell);
    }
  }

  ghost predicate ServedBefore(states: seq<State>, acts: seq<Action>, h: nat, n: nat)
    requires |states| == |acts| + 1 && n < |states|
  {
    exists t :: 0 <= t < n && acts[t] == Do(h) && Serves(states[t], h, states[t + 1])
  }

  /** In every run a call that has returned was served in one of its own steps, at a moment when
      the map was as its answer says. A caller that asked for creation, and not for removal, got the
      key, found or created; one that asked for removal removed it or found it absent. */
  lemma {:induction false} ReturnedCallWasServed(states: seq<State>, acts: seq<Action>, cell: nat, h: nat, n: nat)
    requires IsRun(states, acts, cell) && n < |states|
    requires h in states[n].hs && Decided(states[n].hs[h].phase)
    ensures ServedBefore(states, acts, h, n)
  {
    if n > 0 {
      TheStep(states, acts, cell, n - 1);
      DecidedOnce(states[n - 1], acts[n - 1], h, cell);
      if !(acts[n - 1] == Do(h) && Serves(states[n - 1], h, states[n])) {
        ReturnedCallWasServed(states, acts, cell, h, n - 1);
      }
    }
  }

  // A call that runs alone.

  /** Nobody else has the lock. */
  ghost predicate Alone(s: State, h: nat) { s.lock.Free? || s.lock == Writing(h) || s.lock == Reading({h}) }

  /** The scan has not passed the key yet. */
  ghost predicate Ahead(b: Bucket, k: nat, ph: Phase) {
    exists p :: Live(b, p) && At(b, p).addr == k &&
      match ph
      case Scan(i) => p.Slot? || p.i >= i
      case WantRead => p.Slot?
      case ScanAdd(j) => p.Slot? && p.j >= j
      case _ => false
  }

  /** A scan that has passed its key has to start over. */
  ghost predicate StartsOver(b: Bucket, hd: Handle) {
    Acquiring(hd.phase) && !hd.remove && HasKey(b, hd.key) && !Ahead(b, hd.key, hd.phase)
  }

  function StepsAhead(n: nat, ph: Phase): nat {
    match ph
    case Scan(i) => 11 + n + if i < CELLS then CELLS - i else 0
    case WantRead => 10 + n
    case ScanAdd(j) => 9 + if j < n then n - j else 0
    case WantWrite => 8
    case Recheck => 7
    case Removing(_) => 6
    case Cleared(_) => 5
    case Shrunk(_) => 4
    case Copied(_) => 3
    case Moved => 2
    case Creating(_) => 2
    case Closed => 0
    case _ => 1
  }

  ghost function Rank(b: Bucket, hd: Handle): nat {
    StepsAhead(Size(b), hd.phase) + if StartsOver(b, hd) then 12 + Size(b) + CELLS else 0
  }

  lemma AloneIsEnabled(s: State, h: nat)
    requires Inv(s) && h in s.hs && Alone(s, h) && !s.hs[h].phase.Closed?
    ensures Enabled(s, Do(h))
  {
  }

  /** What the call leaves behind: whether its key is in the map. */
  ghost predicate Will(s: State, h: nat)
    requires h in s.hs
  {
    var hd := s.hs[h];
    if hd.phase.Creating? then true
    else if hd.phase.Removing? then false
    else if Acquiring(hd.phase) then !hd.remove && (InMap(s, hd.key) || hd.create)
    else InMap(s, hd.key)
  }

  /** One step of a handle alone: the lock stays its own or free, it comes nearer to its end, and
      the outlook does not change. */
  ghost predicate SoloStep(s: State, h: nat, t: State)
    requires h in s.hs
  {
    && Inv(t) && Alone(t, h) && h in t.hs && t.hs == s.hs[h := s.hs[h].(phase := t.hs[h].phase)]
    && Rank(t.b, t.hs[h]) < Rank(s.b, s.hs[h])
    && Will(t, h) == Will(s, h) && SameBut(s.b, ModeOf(s), t.b, ModeOf(t), s.hs[h].key)
  }

  lemma ScanPasses(b: Bucket, hd: Handle, ph: Phase)
    requires Acquiring(hd.phase) && !hd.phase.Recheck? && Acquiring(ph) && |b.cells| == CELLS
    requires match hd.phase
      case Scan(i) =>
        if i == CELLS then ph == (if b.add.Some? then WantRead else WantWrite)
        else i < CELLS && b.cells[i].addr != hd.key && ph == Scan(i + 1)
      case WantRead => ph == ScanAdd(0)
      case ScanAdd(j) =>
        if j >= Size(b) then ph == WantWrite
        else b.add.value.size <= |b.add.value.slots| && b.add.value.slots[j].addr != hd.key && ph == ScanAdd(j + 1)
      case _ => ph == Recheck
    ensures Rank(b, hd.(phase := ph)) < Rank(b, hd)
  {
    if Ahead(b, hd.key, hd.phase) {
      var p :| Live(b, p) && At(b, p).addr == hd.key &&
        match hd.phase
        case Scan(i) => p.Slot? || p.i >= i
        case WantRead => p.Slot?
        case ScanAdd(j) => p.Slot? && p.j >= j
        case _ => false;
      assert Ahead(b, hd.key, ph);
    }
  }

  lemma SoloScan(s: State, h: nat, cell: nat)
    requires Inv(s) && Enabled(s, Do(h)) && Alone(s, h) && 0 < cell <= INIT_BYTES - HEADER
    requires Acquiring(s.hs[h].phase) && !s.hs[h].phase.Recheck?
    ensures SoloStep(s, h, Advance(s, h, cell))
  {
    var t, hd := Advance(s, h, cell), s.hs[h];
    ReaderStep(s, h, cell);
    ReaderPieces(s, h, cell);
    assert HandleOk(s.b, hd);
    AcquireStep(s, h, cell);
    var ph := t.hs[h].phase;
    if ph.HasCell? {
      FoundIsInMap(s, Embed(ph.i), hd.key);
    } else if ph.HasSlot? {
      FoundIsInMap(s, Slot(ph.j), hd.key);
    } else {
      ScanPasses(s.b, hd, ph);
    }
  }

  lemma SoloRecheck(s: State, h: nat, cell: nat)
    requires Inv(s) && Enabled(s, Do(h)) && Alone(s, h) && 0 < cell <= INIT_BYTES - HEADER
    requires s.hs[h].phase.Recheck?
    ensures SoloStep(s, h, Advance(s, h, cell))
  {
    var t, hd := Advance(s, h, cell), s.hs[h];
    HandleStepKeeps(s, h, cell);
    RecheckDecides(s, h, cell);
    WriterMode(s, h);
    assert HandleOk(s.b, hd);
    if InMap(s, hd.key) && !hd.remove {
      var v :| Maps(s.b, Quiet, hd.key, v);
      var p :| Live(s.b, p) && At(s.b, p) == Cell(hd.key, v);
      assert At(s.b, p).addr == hd.key;
      assert Ahead(s.b, hd.key, Scan(0)) && !Ahead(s.b, hd.key, Recheck);
      assert StartsOver(s.b, hd) && !StartsOver(s.b, hd.(phase := Scan(0)));
    }
  }

  lemma ReleaseShape(s: State, h: nat, cell: nat)
    requires Inv(s) && Enabled(s, Do(h)) && Alone(s, h) && 0 < cell <= INIT_BYTES - HEADER
    requires !Acquiring(s.hs[h].phase)
    ensures var t := Advance(s, h, cell);
      && h in t.hs && Alone(t, h) && t.hs == s.hs[h := s.hs[h].(phase := t.hs[h].phase)]
  {
    assert HandleOk(s.b, s.hs[h]);
    if KeepsWrite(s.hs[h].phase) { WriterMode(s, h); }
  }

  lemma ReleaseAdvances(s: State, h: nat, cell: nat)
    requires Inv(s) && Enabled(s, Do(h)) && 0 < cell <= INIT_BYTES - HEADER && !Acquiring(s.hs[h].phase)
    ensures h in Advance(s, h, cell).hs
    ensures var ph := Advance(s, h, cell).hs[h].phase;
      && !Acquiring(ph) && !ph.Creating? && !ph.Removing?
      && forall m, n :: StepsAhead(m, ph) < StepsAhead(n, s.hs[h].phase)
  {
  }

  lemma ReleaseOutcome(s: State, h: nat, t: State)
    requires Inv(s) && h in s.hs && MapStep(s, h, t) && !Acquiring(s.hs[h].phase)
    ensures SameBut(s.b, ModeOf(s), t.b, ModeOf(t), s.hs[h].key) && (InMap(t, s.hs[h].key) <==> Will(s, h))
  {
    if s.hs[h].phase.Creating? {
      assert Maps(t.b, ModeOf(t), s.hs[h].key, At(s.b, s.hs[h].phase.p).val);
    }
  }

  lemma SoloRelease(s: State, h: nat, cell: nat)
    requires Inv(s) && Enabled(s, Do(h)) && Alone(s, h) && 0 < cell <= INIT_BYTES - HEADER
    requires !Acquiring(s.hs[h].phase)
    ensures SoloStep(s, h, Advance(s, h, cell))
  {
    HandleStepKeeps(s, h, cell);
    ReleaseShape(s, h, cell);
    ReleaseAdvances(s, h, cell);
    ReleaseOutcome(s, h, Advance(s, h, cell));
  }

  lemma StepAlone(s: State, h: nat, cell: nat)
    requires Inv(s) && h in s.hs && Alone(s, h) && !s.hs[h].phase.Closed? && 0 < cell <= INIT_BYTES - HEADER
    ensures Enabled(s, Do(h)) && SoloStep(s, h, Advance(s, h, cell))
  {
    AloneIsEnabled(s, h);
    if s.hs[h].phase.Recheck? {
      SoloRecheck(s, h, cell);
    } else if Acquiring(s.hs[h].phase) {
      SoloScan(s, h, cell);
    } else {
      SoloRelease(s, h, cell);
    }
  }

  /** The rest of the call of h, when nobody else takes a step: it always comes to an end. */
  ghost function Finish(s: State, h: nat, cell: nat): State
    requires Inv(s) && h in s.hs && Alone(s, h) && 0 < cell <= INIT_BYTES - HEADER
    decreases if h in s.hs then Rank(s.b, s.hs[h]) else 0
  {
    if s.hs[h].phase.Closed? then s
    else
      StepAlone(s, h, cell);
      Finish(Advance(s, h, cell), h, cell)
  }

  /** The end of that call: it is closed, the lock is free, its key is in the map exactly if it will
      be, and every other key and handle is as it was. */
  ghost predicate Ends(s: State, h: nat, t: State)
    requires h in s.hs
  {
    && t.hs == s.hs[h := s.hs[h].(phase := Closed)] && t.lock == Free
    && (InMap(t, s.hs[h].key) <==> Will(s, h))
    && SameBut(s.b, ModeOf(s), t.b, ModeOf(t), s.hs[h].key)
  }

  lemma EndsLater(s: State, h: nat, s1: State, t: State)
    requires h in s.hs && SoloStep(s, h, s1) && Ends(s1, h, t)
    ensures Ends(s, h, t)
  {
  }

  lemma EndsNow(s: State, h: nat)
    requires Inv(s) && h in s.hs && Alone(s, h) && s.hs[h].phase.Closed?
    ensures Ends(s, h, s)
  {
    assert s.hs == s.hs[h := s.hs[h].(phase := Closed)];
  }

  lemma {:induction false} FinishEnds(s: State, h: nat, cell: nat)
    requires Inv(s) && h in s.hs && Alone(s, h) && 0 < cell <= INIT_BYTES - HEADER
    ensures Inv(Finish(s, h, cell)) && Ends(s, h, Finish(s, h, cell))
    decreases if h in s.hs then Rank(s.b, s.hs[h]) else 0
  {
    if s.hs[h].phase.Closed? {
      EndsNow(s, h);
    } else {
      StepAlone(s, h, cell);
      FinishEnds(Advance(s, h, cell), h, cell);
      EndsLater(s, h, Advance(s, h, cell), Finish(s, h, cell));
    }
  }

  /** A call on a bucket whose lock nobody else has ends with the lock free, whatever other calls
      left halfway without it. Wherever in acquiring it stands, it leaves its key in the map exactly
      when it was not to remove it and either found it or was to create it, and it leaves every
      other key, and every other handle, as it was. */
  lemma CallAlone(s: State, h: nat, cell: nat)
    requires Inv(s) && h in s.hs && Acquiring(s.hs[h].phase) && Alone(s, h) && 0 < cell <= INIT_BYTES - HEADER
    ensures var t := Finish(s, h, cell);
      && t.hs == s.hs[h := s.hs[h].(phase := Closed)] && t.lock == Free
      && (InMap(t, s.hs[h].key) <==> !s.hs[h].remove && (InMap(s, s.hs[h].key) || s.hs[h].create))
      && forall k, v :: k != s.hs[h].key ==> (Maps(t.b, Quiet, k, v) <==> Maps(s.b, ModeOf(s), k, v))
  {
    FinishEnds(s, h, cell);
  }

  ghost predicate Owns(lock: Lock, h: nat) { lock == Writing(h) || (lock.Reading? && h in lock.readers) }

  /** A call waits for nobody but those who have the lock: a reader for the writer, a writer for
      anybody. */
  lemma WaitsForOwners(s: State, h: nat)
    requires Inv(s) && h in s.hs && !s.hs[h].phase.Closed? && !Enabled(s, Do(h))
    ensures (s.hs[h].phase.WantRead? && s.lock.Writing?) || (s.hs[h].phase.WantWrite? && s.lock != Free)
    ensures !Owns(s.lock, h)
  {
  }

  /** And whoever has it can go on: in no reachable state are all unfinished calls stuck. */
  lemma NoDeadlock(s: State, h: nat) returns (x: nat)
    requires Inv(s) && h in s.hs && !s.hs[h].phase.Closed?
    ensures x in s.hs && !s.hs[x].phase.Closed? && Enabled(s, Do(x))
  {
    x := h;
    if !Enabled(s, Do(h)) {
      WaitsForOwners(s, h);
      if s.lock.Writing? {
        x := s.lock.owner;
      } else {
        x :| x in s.lock.readers;
        assert KeepsRead(s.hs[x].phase);
      }
    }
  }

  /** A step gives or takes the lock of nobody but its own handle; what acquiring kept is just
      what the handle's phase says, and a released handle has none. */
  lemma LockFollowsHandle(s: State, a: Action, cell: nat, x: nat)
    requires Inv(s) && Enabled(s, a) && 0 < cell <= INIT_BYTES - HEADER && x in s.hs
    ensures Owns(s.lock, x) <==> KeepsWrite(s.hs[x].phase) || KeepsRead(s.hs[x].phase)
    ensures s.hs[x].phase.Closed? || s.hs[x].phase.HasCell? || s.hs[x].phase.HasNone? ==> !Owns(s.lock, x)
    ensures a != Do(x) ==> (Owns(Step(s, a, cell).lock, x) <==> Owns(s.lock, x))
  {
    StepKeepsInv(s, a, cell);
    if a != Do(x) {
      OthersKeepPhase(s, a, x, cell);
      assert LockOk(Step(s, a, cell).lock, Step(s, a, cell).hs);
    }
  }

  /** The step that ends a release gives back the lock and nothing else. */
  lemma ReleaseUndoesAcquire(s: State, h: nat, cell: nat)
    requires Inv(s) && Enabled(s, Do(h)) && 0 < cell <= INIT_BYTES - HEADER
    requires Advance(s, h, cell).hs[h].phase.Closed?
    ensures var t := Advance(s, h, cell);
      t.b == s.b && !Owns(t.lock, h) && forall x :: x != h ==> (Owns(t.lock, x) <==> Owns(s.lock, x))
  {
    HandleStepKeeps(s, h, cell);
    assert HandleOk(s.b, s.hs[h]);
    if KeepsWrite(s.hs[h].phase) { WriterMode(s, h); }
  }

  // The lock-free path.

  /** The phase needs no lock and has not passed cell i. */
  ghost predicate LockFree(ph: Phase, i: nat) { (ph.Scan? && ph.i <= i) || ph.HasCell? || ph.Closed? }

  lemma LockFreeStep(s: State, a: Action, h: nat, i: nat, cell: nat)
    requires Inv(s) && Enabled(s, a) && 0 < cell <= INIT_BYTES - HEADER && h in s.hs && i < CELLS
    requires s.b.cells[i].addr == s.hs[h].key && LockFree(s.hs[h].phase, i)
    ensures h in Step(s, a, cell).hs && Step(s, a, cell).hs[h].key == s.hs[h].key
    ensures LockFree(Step(s, a, cell).hs[h].phase, i)
  {
    if a != Do(h) { OthersKeepPhase(s, a, h, cell); }
  }

  /** The handle of key k is on that path, and nothing holds it up. */
  ghost predicate OnLockFreePath(s: State, h: nat, k: nat, i: nat) {
    && h in s.hs && s.hs[h].key == k && LockFree(s.hs[h].phase, i)
    && (!s.hs[h].phase.Closed? ==> Enabled(s, Do(h)))
  }

  lemma StaysOnPath(s: State, a: Action, h: nat, k: nat, i: nat, cell: nat)
    requires Inv(s) && Enabled(s, a) && 0 < cell <= INIT_BYTES - HEADER && i < CELLS
    requires OnLockFreePath(s, h, k, i) && s.b.cells[i].addr == k
    ensures OnLockFreePath(Step(s, a, cell), h, k, i)
  {
    LockFreeStep(s, a, h, i, cell);
  }

  lemma OpensOnPath(s: State, h: nat, k: nat, create: bool, i: nat, cell: nat)
    requires Inv(s) && Enabled(s, Open(h, k, false, create)) && 0 < cell <= INIT_BYTES - HEADER
    ensures OnLockFreePath(Step(s, Open(h, k, false, create), cell), h, k, i)
  {
  }

  /** A call that is not to remove its key and finds it in an embedded cell neither takes the lock nor
      ever waits for it, as long as the key stays in that cell. */
  lemma {:induction false} EmbeddedKeyNeedsNoLock(states: seq<State>, acts: seq<Action>, cell: nat, h: nat, k: nat,
                                                  create: bool, i: nat, a: nat, n: nat)
    requires IsRun(states, acts, cell) && a < n < |states| && acts[a] == Open(h, k, false, create) && i < CELLS
    requires forall t :: a < t < n ==> i < |states[t].b.cells| && states[t].b.cells[i].addr == k
    ensures OnLockFreePath(states[n], h, k, i)
    decreases n
  {
    TheStep(states, acts, cell, n - 1);
    if n == a + 1 {
      OpensOnPath(states[a], h, k, create, i, cell);
    } else {
      EmbeddedKeyNeedsNoLock(states, acts, cell, h, k, create, i, a, n - 1);
      StaysOnPath(states[n - 1], acts[n - 1], h, k, i, cell);
    }
  }

  // Visiting every element.

  /** While the lock is held for reading nothing in the bucket moves, and no removal or creation
      is halfway. */
  lemma ReadersFreezeTheBucket(s: State, a: Action, cell: nat)
    requires Inv(s) && Enabled(s, a) && 0 < cell <= INIT_BYTES - HEADER && s.lock.Reading?
    ensures Step(s, a, cell).b == s.b && ModeOf(s) == Quiet
  {
  }

  function Entries(cells: seq<Cell>): seq<Cell> {
    if cells == [] then []
    else Entries(cells[..|cells| - 1]) + (if cells[|cells| - 1].addr != 0 then [cells[|cells| - 1]] else [])
  }

  lemma {:induction false} EntriesMember(cells: seq<Cell>, c: Cell)
    ensures c in Entries(cells) <==> c in cells && c.addr != 0
  {
    if cells != [] {
      EntriesMember(cells[..|cells| - 1], c);
      assert cells == cells[..|cells| - 1] + [cells[|cells| - 1]];
    }
  }

  /** `ForEach` on one bucket: what the callback sees, in order. */
  method ForEach(b: Bucket) returns (seen: seq<Cell>)
    requires BucketOk(b, Quiet)
    ensures forall k, v :: Cell(k, v) in seen <==> Maps(b, Quiet, k, v)
    ensures |seen| == |Entries(b.cells)| + |if b.add.Some? then Entries(b.add.value.slots[..Size(b)]) else []|
  {
    seen := [];
    for i := 0 to |b.cells|
      invariant seen == Entries(b.cells[..i])
    {
      assert b.cells[..i + 1][..i] == b.cells[..i];
      if b.cells[i].addr != 0 { seen := seen + [b.cells[i]]; }
    }
    assert b.cells[..|b.cells|] == b.cells;
    if b.add.Some? {
      var slots := b.add.value.slots;
      for j := 0 to b.add.value.size
        invariant seen == Entries(b.cells) + Entries(slots[..j])
      {
        assert slots[..j + 1][..j] == slots[..j];
        if slots[j].addr != 0 { seen := seen + [slots[j]]; }
      }
    }
    forall k, v ensures Cell(k, v) in seen <==> Maps(b, Quiet, k, v) { EntriesAreTheMap(b, k, v); }
  }

  lemma EntriesAreTheMap(b: Bucket, k: nat, v: Val)
    requires BucketOk(b, Quiet)
    ensures Maps(b, Quiet, k, v) <==>
      (Cell(k, v) in Entries(b.cells) || (b.add.Some? && Cell(k, v) in Entries(b.add.value.slots[..Size(b)])))
  {
    EntriesMember(b.cells, Cell(k, v));
    if b.add.Some? { EntriesMember(b.add.value.slots[..Size(b)], Cell(k, v)); }
    if p :| Live(b, p) && At(b, p) == Cell(k, v) {
      if p.Slot? { assert b.add.value.slots[..Size(b)][p.j] == Cell(k, v); }
    }
    if Cell(k, v) in b.cells && k != 0 {
      var i :| 0 <= i < |b.cells| && b.cells[i] == Cell(k, v);
      assert Live(b, Embed(i)) && At(b, Embed(i)) == Cell(k, v);
    }
    if b.add.Some? && Cell(k, v) in b.add.value.slots[..Size(b)] && k != 0 {
      var j :| 0 <= j < Size(b) && b.add.value.slots[..Size(b)][j] == Cell(k, v);
      assert Live(b, Slot(j)) && At(b, Slot(j)) == Cell(k, v);
    }
  }
}
