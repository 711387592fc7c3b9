/** Powers of two and Go's `&` on non-negative integers. */
module Bits {
  function Pow(base: nat, n: nat): (p: nat)
    ensures base > 0 ==> p > 0
  {
    if n == 0 then 1 else base * Pow(base, n - 1)
  }

  function Bit(b: bool): nat {
    if b then 1 else 0
  }

  ghost predicate IsPowerOfTwo(n: int) {
    exists k :: n == Pow(2, k)
  }

  /** Go's `&` on non-negative integers. */
  function BitAnd(a: nat, b: nat): nat {
    if a == 0 || b == 0 then 0 else (a % 2) * (b % 2) + 2 * BitAnd(a / 2, b / 2)
  }

  lemma {:induction false} BitAndBound(a: nat, b: nat)
    ensures BitAnd(a, b) <= a
  {
    if a != 0 && b != 0 {
      BitAndBound(a / 2, b / 2);
      assert b % 2 == 0 || b % 2 == 1;
    }
  }

  lemma {:induction false} BitAndSelf(a: nat)
    ensures BitAnd(a, a) == a
  {
    if a > 0 {
      BitAndSelf(a / 2);
      BitSquared(a % 2);
      assert BitAnd(a, a) == a % 2 * (a % 2) + 2 * BitAnd(a / 2, a / 2);
      hide BitAnd;
      assert a == 2 * (a / 2) + a % 2;
    }
  }

  lemma BitSquared(b: nat)
    requires b < 2
    ensures b * b == b
  {
    assert b == 0 || b == 1;
  }

  lemma {:induction false} PowerOfTwoTest(n: nat) returns (k: nat)
    requires n > 0
    ensures BitAnd(n, n - 1) == 0 ==> n == Pow(2, k)
  {
    if n == 1 {
      k := 0;
    } else if n % 2 == 0 {
      k := PowerOfTwoTest(n / 2);
      assert (n - 1) / 2 == n / 2 - 1;
      k := k + 1;
    } else {
      BitAndSelf(n / 2);
      assert (n - 1) / 2 == n / 2;
      k := 0;
    }
  }

  lemma {:induction false} PowersPass(k: nat)
    ensures BitAnd(Pow(2, k), Pow(2, k) - 1) == 0
  {
    if k > 0 {
      PowersPass(k - 1);
      assert (Pow(2, k) - 1) / 2 == Pow(2, k - 1) - 1;
    }
  }

  /** `n&(n-1) == 0` holds of exactly the powers of two. */
  lemma PowerOfTwoExactly(n: nat)
    requires n > 0
    ensures BitAnd(n, n - 1) == 0 <==> IsPowerOfTwo(n)
  {
    var k := PowerOfTwoTest(n);
    if IsPowerOfTwo(n) {
      var j :| n == Pow(2, j);
      PowersPass(j);
    }
  }

  /** Masking with ones above the low j bits clears those bits. */
  lemma {:induction false} MaskClearsLowBits(a: nat, n: nat, j: nat)
    requires a < Pow(2, n) && j <= n
    ensures Pow(2, j) <= Pow(2, n) && BitAnd(a, Pow(2, n) - Pow(2, j)) == a - a % Pow(2, j)
    decreases n
  {
    if j == n {
      ModuloUnique(a, 0, Pow(2, n), a);
    } else {
      var i := if j > 0 then j - 1 else 0;
      MaskClearsLowBits(a / 2, n - 1, i);
      MaskHalf(a, n, j, i);
      if j > 0 {
        ModuloStep(a % 2, a / 2, Pow(2, i));
      }
    }
  }

  /** One step of the mask: the lowest bit, and the mask of one bit less. */
  lemma MaskHalf(a: nat, n: nat, j: nat, i: nat)
    requires j < n && i == (if j > 0 then j - 1 else 0) && Pow(2, i) <= Pow(2, n - 1)
    ensures BitAnd(a, Pow(2, n) - Pow(2, j))
         == (if j > 0 then 0 else a % 2) + 2 * BitAnd(a / 2, Pow(2, n - 1) - Pow(2, i))
  {
    var m := Pow(2, n) - Pow(2, j);
    assert m / 2 == Pow(2, n - 1) - Pow(2, i);
    assert m % 2 == if j > 0 then 0 else 1;
  }

  lemma ModuloStep(b: nat, q: nat, p: nat)
    requires b < 2 && p > 0
    ensures (b + 2 * q) % (2 * p) == b + 2 * (q % p)
  {
    var (d, r) := (q / p, q % p);
    assert q == d * p + r;
    assert 2 * (d * p) == d * (2 * p);
    ModuloUnique(b + 2 * q, d, 2 * p, b + 2 * r);
  }

  lemma ModuloUnique(x: nat, d: nat, m: nat, r: nat)
    requires r < m && x == d * m + r
    ensures x % m == r && x / m == d
  {
    QuotientUnique(d, x / m, m, r, x % m);
  }

  lemma QuotientUnique(d: int, e: int, m: nat, r: nat, s: nat)
    requires r < m && s < m && d * m + r == e * m + s
    ensures d == e && r == s
  {
    assert (e - d) * m == e * m - d * m == r - s;
    assert (d - e) * m == s - r;
    if d < e {
      MultipleAtLeast(e - d, m);
    } else if e < d {
      MultipleAtLeast(d - e, m);
    }
  }

  lemma MultipleAtLeast(k: nat, m: nat)
    requires k > 0
    ensures k * m >= m
  {}

  lemma MultipleDrops(q: nat, m: nat, t: nat)
    requires m > 0
    ensures (q * m + t) % m == t % m
  {
    ModuloUnique(q * m + t, q + t / m, m, t % m);
  }

  lemma {:induction false} Pow2Adds(a: nat, b: nat)
    ensures Pow(2, a + b) == Pow(2, a) * Pow(2, b)
  {
    if a > 0 {
      Pow2Adds(a - 1, b);
    }
  }
}
