/** Finite sets of numbers, as work-list algorithms use them to end. */
module FiniteSets {

  ghost function Below(k: nat): (s: set<nat>)
    ensures forall n: nat :: n in s <==> n < k
  {
    if k == 0 then {} else Below(k - 1) + {k - 1}
  }

  lemma SubsetSize<T>(a: set<T>, b: set<T>)
    requires a <= b
    ensures |a| <= |b| && (|a| == |b| <==> a == b)
  {
    assert b == a + (b - a);
  }

  /** What is not visited yet gets smaller with every new visit. */
  lemma SmallerRest(all: set<nat>, a: set<nat>, b: set<nat>)
    requires a <= b
    ensures |all - b| <= |all - a|
    ensures a != b && b <= all ==> |all - b| < |all - a|
  {
    SubsetSize(all - b, all - a);
    if a != b && b <= all {
      var x :| x in b && x !in a;
      assert x in all - a && x !in all - b;
    }
  }
}
