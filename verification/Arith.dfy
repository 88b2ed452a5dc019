/** Integer arithmetic the runtime does with shifts and masks. Every mask in the
    modelled code is `2^k - 1` or its complement, so a shift is a division or a
    multiplication by `Pow2`, and a mask is a remainder. */
module Arith {

  function Pow2(n: nat): (p: nat)
    ensures p > 0
  {
    if n == 0 then 1 else 2 * Pow2(n - 1)
  }

  function Min(a: nat, b: nat): nat {
    if a < b then a else b
  }

  function Max(a: nat, b: nat): nat {
    if a < b then b else a
  }

  /** Subtraction that stops at zero. */
  function Monus(a: nat, b: nat): nat {
    if a < b then 0 else a - b
  }

  // Products and quotients by symbolic sizes. Defined by repeated addition and subtraction
  // so that proofs about the allocators stay linear; they are `*`, `/` and `%`, see ProductIsMul,
  // QuotIsDiv and RemIsMod.

  function Product(a: nat, b: nat): nat {
    if a == 0 then 0 else Product(a - 1, b) + b
  }

  function Quot(n: nat, d: nat): nat
    requires d > 0
  {
    if n < d then 0 else 1 + Quot(n - d, d)
  }

  function Rem(n: nat, d: nat): (r: nat)
    requires d > 0
    ensures r < d && r <= n
  {
    if n < d then n else Rem(n - d, d)
  }

  function CeilDiv(n: nat, d: nat): nat
    requires d > 0
  {
    Quot(n + d - 1, d)
  }

  /** `RoundUpTo` of sanitizer_common: the least multiple of `d` not below `n`. */
  function RoundUp(n: nat, d: nat): nat
    requires d > 0
  {
    Product(CeilDiv(n, d), d)
  }

  function RoundDown(n: nat, d: nat): nat
    requires d > 0
  {
    n - Rem(n, d)
  }

  /** `MostSignificantSetBitIndex`. */
  function Msb(n: nat): (k: nat)
    requires n > 0
    ensures Pow2(k) <= n < Pow2(k + 1)
  {
    if n == 1 then 0 else 1 + Msb(n / 2)
  }

  /** `x << k`. */
  function Shl(x: nat, k: nat): nat
    decreases k
  {
    if k == 0 then x else Shl(2 * x, k - 1)
  }

  /** `x >> k`. */
  function Shr(x: nat, k: nat): nat
    decreases k
  {
    if k == 0 then x else Shr(x / 2, k - 1)
  }

  /** `x & ((1 << k) - 1)`. */
  function Low(x: nat, k: nat): nat
    decreases k
  {
    if k == 0 then 0 else x % 2 + 2 * Low(x / 2, k - 1)
  }

  lemma {:induction false} ShlIsProduct(x: nat, k: nat)
    ensures Shl(x, k) == Product(x, Pow2(k))
    decreases k
  {
    if k > 0 {
      ShlIsProduct(2 * x, k - 1);
      ProductAdd(x, x, Pow2(k - 1));
      ProductAddRight(x, Pow2(k - 1), Pow2(k - 1));
    } else {
      ProductOne(x);
    }
  }

  lemma {:induction false} ShlAdd(x: nat, y: nat, k: nat)
    ensures Shl(x + y, k) == Shl(x, k) + Shl(y, k)
    decreases k
  {
    if k > 0 { ShlAdd(2 * x, 2 * y, k - 1); }
  }

  lemma {:induction false} ShlMono(x: nat, y: nat, k: nat)
    requires x <= y
    ensures Shl(x, k) + (y - x) <= Shl(y, k)
    decreases k
  {
    if k > 0 { ShlMono(2 * x, 2 * y, k - 1); }
  }

  lemma ShlCancel(x: nat, y: nat, k: nat)
    requires Shl(x, k) < Shl(y, k)
    ensures x < y
  {
    if y <= x { ShlMono(y, x, k); }
  }

  lemma {:induction false} ShlPow(m: nat, k: nat)
    ensures Shl(Pow2(m), k) == Pow2(m + k)
    decreases k
  {
    if k > 0 { ShlPow(m + 1, k - 1); }
  }

  lemma {:induction false} ShlShl(x: nat, j: nat, k: nat)
    ensures Shl(Shl(x, j), k) == Shl(x, j + k)
    decreases j
  {
    if j > 0 { ShlShl(2 * x, j - 1, k); }
  }

  /** A number splits into its high part and its low k bits... */
  lemma {:induction false} HighLow(x: nat, k: nat)
    ensures x == Shl(Shr(x, k), k) + Low(x, k) && Low(x, k) < Pow2(k)
    decreases k
  {
    if k > 0 {
      HighLow(x / 2, k - 1);
      ShlAdd(Shr(x / 2, k - 1), Shr(x / 2, k - 1), k - 1);
    }
  }

  /** ...in exactly one way. */
  lemma {:induction false} HighLowUnique(q: nat, r: nat, k: nat)
    requires r < Pow2(k)
    ensures Shr(Shl(q, k) + r, k) == q && Low(Shl(q, k) + r, k) == r
    decreases k
  {
    if k > 0 {
      HighLowUnique(q, r / 2, k - 1);
      ShlAdd(q, q, k - 1);
    }
  }

  lemma {:induction false} ShrShr(x: nat, j: nat, k: nat)
    ensures Shr(Shr(x, j), k) == Shr(x, j + k)
    decreases j
  {
    if j > 0 { ShrShr(x / 2, j - 1, k); }
  }

  /** The bits from j up to k of a number do not depend on its bits from k up. */
  lemma {:induction false} LowShrLow(x: nat, j: nat, k: nat, b: nat)
    requires j + b <= k
    ensures Low(Shr(Low(x, k), j), b) == Low(Shr(x, j), b)
    decreases k
  {
    if j > 0 {
      LowShrLow(x / 2, j - 1, k - 1, b);
    } else if b > 0 {
      LowShrLow(x / 2, 0, k - 1, b - 1);
    }
  }

  lemma ShrIs(x: nat, k: nat, q: nat)
    requires Shl(q, k) <= x < Shl(q, k) + Pow2(k)
    ensures Shr(x, k) == q && Low(x, k) == x - Shl(q, k)
  {
    HighLowUnique(q, x - Shl(q, k), k);
  }

  lemma ShrPow(m: nat, k: nat)
    requires k <= m
    ensures Shr(Pow2(m), k) == Pow2(m - k)
  {
  }

  lemma ShlZero(k: nat)
    ensures Shl(0, k) == 0
  {
  }

  lemma ShrIsQuot(x: nat, k: nat)
    ensures Shr(x, k) == Quot(x, Pow2(k)) && Low(x, k) == Rem(x, Pow2(k))
  {
    HighLow(x, k);
    ShlIsProduct(Shr(x, k), k);
    QuotIs(x, Pow2(k), Shr(x, k));
  }

  lemma {:induction false} ProductIsMul(a: nat, b: nat)
    ensures Product(a, b) == a * b
  {
    if a > 0 {
      ProductIsMul(a - 1, b);
      assert a * b == (a - 1) * b + b;
    }
  }

  lemma {:induction false} ProductAdd(a: nat, b: nat, c: nat)
    ensures Product(a + b, c) == Product(a, c) + Product(b, c)
    decreases b
  {
    if b > 0 { ProductAdd(a, b - 1, c); }
  }

  lemma {:induction false} ProductAddRight(a: nat, b: nat, c: nat)
    ensures Product(a, b + c) == Product(a, b) + Product(a, c)
  {
    if a > 0 { ProductAddRight(a - 1, b, c); }
  }

  lemma {:induction false} ProductComm(a: nat, b: nat)
    ensures Product(a, b) == Product(b, a)
    decreases a
  {
    if a > 0 {
      ProductComm(a - 1, b);
      ProductAddRight(b, a - 1, 1);
      ProductOne(b);
    } else {
      ProductZero(b);
    }
  }

  lemma {:induction false} ProductOne(a: nat)
    ensures Product(a, 1) == a
  {
    if a > 0 { ProductOne(a - 1); }
  }

  lemma {:induction false} ProductZero(a: nat)
    ensures Product(a, 0) == 0
  {
    if a > 0 { ProductZero(a - 1); }
  }

  lemma {:induction false} ProductAssoc(a: nat, b: nat, c: nat)
    ensures Product(Product(a, b), c) == Product(a, Product(b, c))
    decreases a
  {
    if a > 0 {
      ProductAssoc(a - 1, b, c);
      ProductAdd(Product(a - 1, b), b, c);
    }
  }

  lemma {:induction false} ProductMono(a: nat, b: nat, c: nat)
    requires a <= b
    ensures Product(a, c) <= Product(b, c)
    ensures a < b ==> Product(a, c) + c <= Product(b, c)
    decreases b
  {
    if a < b { ProductMono(a, b - 1, c); }
  }

  lemma {:induction false} ProductMonoRight(a: nat, b: nat, c: nat)
    requires b <= c
    ensures Product(a, b) <= Product(a, c)
  {
    if a > 0 { ProductMonoRight(a - 1, b, c); }
  }

  lemma {:induction false} QuotRem(n: nat, d: nat)
    requires d > 0
    ensures n == Product(Quot(n, d), d) + Rem(n, d)
  {
    if n >= d { QuotRem(n - d, d); }
  }

  lemma MultipleApart(d: nat, k: int)
    ensures (k >= 1 ==> d * k >= d) && (k <= -1 ==> d * k + d <= 0)
  {
  }

  /** Quotient and remainder are unique. */
  lemma DivisionIs(n: nat, d: nat, q: nat, r: nat)
    requires r < d && n == q * d + r
    ensures n / d == q && n % d == r
  {
    var k := n / d - q;
    assert d * k == r - n % d;
    MultipleApart(d, k);
  }

  lemma QuotIsDiv(n: nat, d: nat)
    requires d > 0
    ensures Quot(n, d) == n / d
  {
    QuotRem(n, d);
    ProductIsMul(Quot(n, d), d);
    DivisionIs(n, d, Quot(n, d), Rem(n, d));
  }

  lemma RemIsMod(n: nat, d: nat)
    requires d > 0
    ensures Rem(n, d) == n % d
  {
    QuotRem(n, d);
    ProductIsMul(Quot(n, d), d);
    DivisionIs(n, d, Quot(n, d), Rem(n, d));
  }

  lemma {:induction false} QuotIs(n: nat, d: nat, q: nat)
    requires d > 0 && Product(q, d) <= n < Product(q, d) + d
    ensures Quot(n, d) == q && Rem(n, d) == n - Product(q, d)
  {
    if n >= d { QuotIs(n - d, d, q - 1); }
  }

  lemma QuotOfProduct(q: nat, d: nat)
    requires d > 0
    ensures Quot(Product(q, d), d) == q && Rem(Product(q, d), d) == 0
  {
  }

  lemma QuotLe(n: nat, d: nat, q: nat)
    requires d > 0
    ensures q <= Quot(n, d) <==> Product(q, d) <= n
  {
  }

  lemma CeilDivBounds(n: nat, d: nat)
    requires d > 0
    ensures n <= Product(CeilDiv(n, d), d) < n + d
  {
    QuotRem(n + d - 1, d);
  }

  lemma CeilDivIs(n: nat, d: nat, q: nat)
    requires d > 0 && n <= Product(q, d) < n + d
    ensures CeilDiv(n, d) == q
  {
    QuotIs(n + d - 1, d, q);
  }

  /** The rounded-up quotient is at most q exactly when q steps cover n. */
  lemma CeilDivLe(n: nat, d: nat, q: nat)
    requires d > 0
    ensures CeilDiv(n, d) <= q <==> n <= Product(q, d)
  {
    CeilDivBounds(n, d);
    var c := CeilDiv(n, d);
    if c <= q { ProductMono(c, q, d); } else { ProductMono(q, c, d); }
  }

  /** Multiples: a number with no remainder is its quotient's product. */
  lemma MultipleIs(n: nat, d: nat)
    requires d > 0 && Rem(n, d) == 0
    ensures n == Product(Quot(n, d), d)
  {
  }

  lemma MultipleAdd(a: nat, b: nat, d: nat)
    requires d > 0 && Rem(a, d) == 0 && Rem(b, d) == 0
    ensures Rem(a + b, d) == 0
  {
    MultipleIs(a, d);
    MultipleIs(b, d);
    ProductAdd(Quot(a, d), Quot(b, d), d);
    QuotOfProduct(Quot(a, d) + Quot(b, d), d);
  }

  lemma MultipleSub(a: nat, b: nat, d: nat)
    requires d > 0 && Rem(a, d) == 0 && Rem(b, d) == 0 && b <= a
    ensures Rem(a - b, d) == 0
  {
    var x, y := Quot(a, d), Quot(b, d);
    MultipleIs(a, d);
    MultipleIs(b, d);
    if x < y { ProductMono(x, y, d); }
    ProductAdd(x - y, y, d);
    QuotOfProduct(x - y, d);
  }

  lemma MultipleScale(a: nat, k: nat, d: nat)
    requires d > 0 && Rem(a, d) == 0
    ensures Rem(Product(k, a), d) == 0
  {
    MultipleIs(a, d);
    ProductAssoc(k, Quot(a, d), d);
    QuotOfProduct(Product(k, Quot(a, d)), d);
  }

  lemma MultipleTrans(a: nat, b: nat, c: nat)
    requires c > 0 && b > 0 && Rem(a, b) == 0 && Rem(b, c) == 0
    ensures Rem(a, c) == 0
  {
    MultipleIs(a, b);
    MultipleScale(b, Quot(a, b), c);
  }

  lemma RoundUpProps(n: nat, d: nat)
    requires d > 0
    ensures n <= RoundUp(n, d) < n + d
    ensures Rem(RoundUp(n, d), d) == 0
  {
    CeilDivBounds(n, d);
    QuotOfProduct(CeilDiv(n, d), d);
  }

  lemma RoundUpOfMultiple(n: nat, d: nat)
    requires d > 0 && Rem(n, d) == 0
    ensures RoundUp(n, d) == n
  {
  }

  lemma RoundDownProps(n: nat, d: nat)
    requires d > 0
    ensures n - d < RoundDown(n, d) <= n
    ensures Rem(RoundDown(n, d), d) == 0
  {
    QuotRem(n, d);
    QuotOfProduct(Quot(n, d), d);
  }

  /** The rounded value is the least multiple: any multiple at or above n is at or above it. */
  lemma RoundUpLeast(n: nat, d: nat, m: nat)
    requires d > 0 && Rem(m, d) == 0 && n <= m
    ensures RoundUp(n, d) <= m
  {
    MultipleIs(m, d);
    CeilDivLe(n, d, Quot(m, d));
    ProductMono(CeilDiv(n, d), Quot(m, d), d);
  }

  lemma RoundUpIs(n: nat, d: nat, m: nat)
    requires d > 0 && n <= m < n + d && Rem(m, d) == 0
    ensures RoundUp(n, d) == m
  {
    RoundUpProps(n, d);
    RoundUpLeast(n, d, m);
    MultipleSub(m, RoundUp(n, d), d);
    QuotRem(m - RoundUp(n, d), d);
  }

  lemma Pow2Add(a: nat, b: nat)
    ensures Pow2(a + b) == Product(Pow2(a), Pow2(b))
  {
    ShlPow(a, b);
    ShlIsProduct(Pow2(a), b);
  }

  lemma {:induction false} Pow2Mono(a: nat, b: nat)
    requires a <= b
    ensures Pow2(a) <= Pow2(b)
  {
    if a < b { Pow2Mono(a, b - 1); }
  }

  lemma Pow2StrictMono(a: nat, b: nat)
    requires a < b
    ensures 2 * Pow2(a) <= Pow2(b)
  {
  }

  /** A smaller power of two divides a larger one. */
  lemma Pow2Divides(a: nat, b: nat)
    requires a <= b
    ensures Rem(Pow2(b), Pow2(a)) == 0
  {
    Pow2Add(b - a, a);
    QuotOfProduct(Pow2(b - a), Pow2(a));
  }
}
