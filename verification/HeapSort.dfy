/** The runtime's `Sort` (sanitizer_common.h): heap sort with sift-up insertion and
    sift-down extraction, ascending by a key. */
module HeapSort {

  function Swap<T>(s: seq<T>, i: nat, j: nat): seq<T>
    requires i < |s| && j < |s|
  {
    s[i := s[j]][j := s[i]]
  }

  lemma SwapPermutes<T>(s: seq<T>, i: nat, j: nat)
    requires i < |s| && j < |s|
    ensures multiset(Swap(s, i, j)) == multiset(s)
  {
  }

  function Parent(k: nat): nat
    requires k > 0
  {
    (k - 1) / 2
  }

  /** Heap order between k and its parent. */
  ghost predicate Ordered<T>(s: seq<T>, key: T -> nat, k: nat)
    requires 0 < k < |s|
  {
    key(s[k]) <= key(s[Parent(k)])
  }

  /** A max-heap on the first n elements, except possibly between `hole` and its parent. */
  ghost predicate HeapAbove<T>(s: seq<T>, key: T -> nat, n: nat, hole: nat)
    requires n <= |s|
  {
    && (forall k :: 0 < k < n && k != hole ==> Ordered(s, key, k))
    && (hole > 0 ==> forall k :: 0 < k < n && Parent(k) == hole ==> key(s[k]) <= key(s[Parent(hole)]))
  }

  /** A max-heap on the first n elements, except possibly between `hole` and its children. */
  ghost predicate HeapBelow<T>(s: seq<T>, key: T -> nat, n: nat, hole: nat)
    requires n <= |s|
  {
    && (forall k :: 0 < k < n && Parent(k) != hole ==> Ordered(s, key, k))
    && (hole > 0 ==> forall k :: 0 < k < n && Parent(k) == hole ==> key(s[k]) <= key(s[Parent(hole)]))
  }

  ghost predicate Heap<T>(s: seq<T>, key: T -> nat, n: nat)
    requires n <= |s|
  {
    forall k :: 0 < k < n ==> Ordered(s, key, k)
  }

  lemma {:induction false} RootIsLargest<T>(s: seq<T>, key: T -> nat, n: nat, k: nat)
    requires n <= |s| && Heap(s, key, n) && k < n
    ensures key(s[k]) <= key(s[0])
    decreases k
  {
    if k > 0 {
      RootIsLargest(s, key, n, Parent(k));
      assert Ordered(s, key, k);
    }
  }

  lemma SiftUpStep<T>(s: seq<T>, key: T -> nat, n: nat, j: nat)
    requires n <= |s| && 0 < j < n && HeapAbove(s, key, n, j) && !Ordered(s, key, j)
    ensures HeapAbove(Swap(s, Parent(j), j), key, n, Parent(j))
  {
    var p, t := Parent(j), Swap(s, Parent(j), j);
    forall k | 0 < k < n && k != p ensures Ordered(t, key, k) {
      assert k != j ==> Ordered(s, key, k);
    }
    if p > 0 {
      assert Ordered(s, key, p);
      forall k | 0 < k < n && Parent(k) == p ensures key(t[k]) <= key(t[Parent(p)]) {
        assert k != j ==> Ordered(s, key, k);
      }
    }
  }

  method SiftUp<T>(v: seq<T>, key: T -> nat, i: nat) returns (s: seq<T>)
    requires i < |v| && Heap(v, key, i)
    ensures |s| == |v| && multiset(s) == multiset(v) && Heap(s, key, i + 1)
    ensures s[i + 1..] == v[i + 1..]
  {
    s := v;
    var j: nat := i;
    while j > 0
      invariant j <= i && |s| == |v| && multiset(s) == multiset(v)
      invariant HeapAbove(s, key, i + 1, j)
      invariant s[i + 1..] == v[i + 1..]
    {
      var p := Parent(j);
      if key(s[p]) >= key(s[j]) {
        assert Ordered(s, key, j);
        break;
      }
      SiftUpStep(s, key, i + 1, j);
      SwapPermutes(s, p, j);
      s := Swap(s, p, j);
      j := p;
    }
  }

  /** The larger child of j inside the heap, or j if neither is larger. */
  function MaxChild<T>(s: seq<T>, key: T -> nat, n: nat, j: nat): (m: nat)
    requires j < n <= |s|
    ensures m < n && (m == j || (m > j && Parent(m) == j && key(s[j]) < key(s[m])))
    ensures forall k :: 0 < k < n && Parent(k) == j ==> key(s[k]) <= key(s[m])
  {
    var left, right := 2 * j + 1, 2 * j + 2;
    var m := if left < n && key(s[j]) < key(s[left]) then left else j;
    if right < n && key(s[m]) < key(s[right]) then right else m
  }

  lemma SiftDownStep<T>(s: seq<T>, key: T -> nat, n: nat, j: nat)
    requires n <= |s| && j < n && HeapBelow(s, key, n, j)
    ensures var m := MaxChild(s, key, n, j);
      if m == j then Heap(s, key, n) else HeapBelow(Swap(s, j, m), key, n, m)
  {
    var m := MaxChild(s, key, n, j);
    if m == j {
      forall k | 0 < k < n ensures Ordered(s, key, k) { }
    } else {
      var t := Swap(s, j, m);
      forall k | 0 < k < n && Parent(k) != m ensures Ordered(t, key, k) {
        assert Parent(k) != j ==> Ordered(s, key, k);
      }
      forall k | 0 < k < n && Parent(k) == m ensures key(t[k]) <= key(t[j]) {
        assert Ordered(s, key, k);
      }
    }
  }

  method SiftDown<T>(v: seq<T>, key: T -> nat, n: nat) returns (s: seq<T>)
    requires 0 < n <= |v| && HeapBelow(v, key, n, 0)
    ensures |s| == |v| && Heap(s, key, n) && s[n..] == v[n..]
    ensures multiset(s) == multiset(v) && multiset(s[..n]) == multiset(v[..n])
  {
    s := v;
    var j := 0;
    while j < n
      invariant j < n && |s| == |v| && HeapBelow(s, key, n, j)
      invariant multiset(s) == multiset(v) && multiset(s[..n]) == multiset(v[..n])
      invariant s[n..] == v[n..]
      decreases n - j
    {
      var m := MaxChild(s, key, n, j);
      SiftDownStep(s, key, n, j);
      if m == j { break; }
      SwapPermutes(s, j, m);
      SwapPermutes(s[..n], j, m);
      assert Swap(s, j, m)[..n] == Swap(s[..n], j, m);
      s := Swap(s, j, m);
      j := m;
    }
  }

  ghost predicate SortedFrom<T>(s: seq<T>, key: T -> nat, from: nat) {
    forall a, b :: from <= a < b < |s| ==> key(s[a]) <= key(s[b])
  }

  /** Everything before `at` is at most everything from it on. */
  ghost predicate Splits<T>(s: seq<T>, key: T -> nat, at: nat) {
    forall a, b :: 0 <= a < at <= b < |s| ==> key(s[a]) <= key(s[b])
  }

  /** Moving the root of the heap behind it extends the sorted tail. */
  lemma ExtractStep<T>(s: seq<T>, key: T -> nat, i: nat)
    requires 0 < i < |s| && Heap(s, key, i + 1) && SortedFrom(s, key, i + 1) && Splits(s, key, i + 1)
    ensures var t := Swap(s, 0, i); HeapBelow(t, key, i, 0) && SortedFrom(t, key, i) && Splits(t, key, i)
  {
    var t := Swap(s, 0, i);
    forall k | 0 < k < i && Parent(k) != 0 ensures Ordered(t, key, k) {
      assert Ordered(s, key, k);
    }
    forall a | 0 <= a < i ensures key(t[a]) <= key(t[i]) {
      RootIsLargest(s, key, i + 1, a);
      RootIsLargest(s, key, i + 1, i);
    }
  }

  /** Permuting the front keeps what was known about the tail. */
  lemma FrontPermuted<T>(s: seq<T>, t: seq<T>, key: T -> nat, i: nat)
    requires i <= |s| == |t| && s[i..] == t[i..] && multiset(s[..i]) == multiset(t[..i])
    requires SortedFrom(s, key, i) && Splits(s, key, i)
    ensures SortedFrom(t, key, i) && Splits(t, key, i)
  {
    forall b | i <= b < |t| ensures t[b] == s[b] {
      assert t[i..][b - i] == s[i..][b - i];
    }
    forall a, b | 0 <= a < i <= b < |t| ensures key(t[a]) <= key(t[b]) {
      assert t[..i][a] in multiset(s[..i]);
      var a0 :| 0 <= a0 < i && s[..i][a0] == t[..i][a];
    }
  }

  method Sort<T>(v: seq<T>, key: T -> nat) returns (s: seq<T>)
    ensures |s| == |v| && multiset(s) == multiset(v)
    ensures SortedFrom(s, key, 0)
  {
    s := v;
    if |v| < 2 { return; }
    var i: nat := 1;
    while i < |v|
      invariant 1 <= i <= |v| == |s| && multiset(s) == multiset(v) && Heap(s, key, i)
    {
      s := SiftUp(s, key, i);
      i := i + 1;
    }
    i := |v| - 1;
    while i > 0
      invariant i < |v| == |s| && multiset(s) == multiset(v)
      invariant Heap(s, key, i + 1) && SortedFrom(s, key, i + 1) && Splits(s, key, i + 1)
    {
      ExtractStep(s, key, i);
      SwapPermutes(s, 0, i);
      var t := Swap(s, 0, i);
      s := SiftDown(t, key, i);
      FrontPermuted(t, s, key, i);
      i := i - 1;
    }
  }
}
