/** Facts about powers, division with a variable divisor, and finite sets. */
module Arith {

  function Pow2(n: nat): (p: nat)
    ensures p > 0
  {
    if n == 0 then 1 else 2 * Pow2(n - 1)
  }

  lemma SubsetSize<T>(a: set<T>, b: set<T>)
    requires a <= b
    ensures |a| <= |b|
  {
    assert b == a + (b - a);
  }

  lemma MultipleGap(d: nat, x: int)
    ensures x >= 1 ==> d * x >= d
    ensures x <= -1 ==> d * x + d <= 0
  {
    if x >= 1 {
      assert d * x == d + d * (x - 1);
    } else if x <= -1 {
      assert d * x + d == d * (x + 1);
    }
  }

  /** Quotient and remainder are determined by the equation they satisfy. */
  lemma DivModUnique(n: int, d: nat, q: int, r: nat)
    requires d > 0 && n == d * q + r && r < d
    ensures n / d == q && n % d == r
  {
    var p := n / d;
    assert n == d * p + n % d;
    assert d * (q - p) == d * q - d * p;
    MultipleGap(d, q - p);
  }

  lemma DivideTwice(n: nat, p: nat)
    requires p > 0
    ensures (n / 256) / p == n / (256 * p)
  {
    var q := (n / 256) / p;
    assert n / 256 == q * p + (n / 256) % p;
    assert n == 256 * (n / 256) + n % 256;
    var r := 256 * ((n / 256) % p) + n % 256;
    assert n == (256 * p) * q + r by {
      assert 256 * (q * p) == (256 * p) * q;
    }
    DivModUnique(n, 256 * p, q, r);
  }

  /** Adding a multiple of the divisor does not change the remainder. */
  lemma ModAddMultiple(a: int, d: nat, q: int)
    requires d > 0
    ensures (a + d * q) % d == a % d
  {
    assert d * (a / d + q) == d * (a / d) + d * q;
    DivModUnique(a + d * q, d, a / d + q, a % d);
  }

  /** Two values less than one divisor apart with the same remainder are equal. */
  lemma SameRemainder(a: int, b: int, d: nat)
    requires d > 0 && a % d == b % d && a - b < d && b - a < d
    ensures a == b
  {
    assert a == d * (a / d) + a % d;
    assert b == d * (b / d) + b % d;
    assert a - b == d * (a / d - b / d);
    MultipleGap(d, a / d - b / d);
  }
}
