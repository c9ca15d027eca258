/** Facts about quotients and remainders that the solver does not find for a divisor it does not know. */
module Remainders {

  /** There is only one way to write a number as a multiple and a rest. */
  lemma UniqueRest(x: nat, n: nat, q: nat)
    requires n > 0 && q * n <= x < q * n + n
    ensures x % n == x - q * n
  {
    var p := x / n;
    var rest := x % n;
    assert x == p * n + rest;
    Factor(p, q, n);
    Factor(q, p, n);
  }

  lemma Factor(p: int, q: int, n: nat)
    ensures p < q ==> q * n - p * n >= n
    ensures p == q ==> q * n == p * n
  {
    if p < q {
      assert q * n - p * n == (q - p) * n;
      assert (q - p) * n == (q - p - 1) * n + n;
      NatProduct(q - p - 1, n);
    }
  }

  lemma NatProduct(k: nat, n: nat)
    ensures k * n >= 0
  {
  }

  /** A product is no bigger than that of bigger factors. */
  lemma ProductGrows(x: nat, y: nat, m: nat, n: nat)
    requires x <= m && y <= n
    ensures 0 <= x * y <= m * n
  {
    assert m * n - x * y == (m - x) * n + x * (n - y);
  }

  /** Adding a multiple of the divisor does not change the rest. */
  lemma AddMultiple(x: nat, n: nat, k: nat)
    requires n > 0
    ensures (x + k * n) % n == x % n
  {
    var q := x / n;
    var rest := x % n;
    assert x == q * n + rest;
    assert (q + k) * n == q * n + k * n;
    NatProduct(k, n);
    UniqueRest(x + k * n, n, q + k);
  }

  /** An affine map may be applied to the rest alone. */
  lemma AffineRest(x: nat, a: nat, b: nat, n: nat)
    requires n > 0
    ensures ((x % n) * a + b) % n == (x * a + b) % n
  {
    var q := x / n;
    var rest := x % n;
    assert x == q * n + rest;
    assert (q * n + rest) * a == rest * a + (q * a) * n;
    NatProduct(rest, a);
    NatProduct(q, a);
    AddMultiple(rest * a + b, n, q * a);
  }

  /** What is added on both sides may be left out. */
  lemma CancelSum(x: nat, y: nat, c: nat, n: nat)
    requires n > 0 && (x + c) % n == (y + c) % n
    ensures x % n == y % n
  {
    var d := n - c % n;
    var k := 1 + c / n;
    assert c + d == k * n;
    AffineRest(x + c, 1, d, n);
    AffineRest(y + c, 1, d, n);
    AddMultiple(x, n, k);
    AddMultiple(y, n, k);
  }

  /** A factor with an inverse may be left out. */
  lemma CancelFactor(a: nat, inverse: nat, x: nat, y: nat, n: nat)
    requires n > 0 && a * inverse % n == 1 && a * x % n == a * y % n
    ensures x % n == y % n
  {
    TimesInverse(a, inverse, x, n);
    TimesInverse(a, inverse, y, n);
  }

  lemma TimesInverse(a: nat, inverse: nat, x: nat, n: nat)
    requires n > 0 && a * inverse % n == 1
    ensures (a * x % n) * inverse % n == x % n
  {
    NatProduct(a, x);
    NatProduct(a, inverse);
    AffineRest(a * x, inverse, 0, n);
    assert a * x * inverse == a * inverse * x;
    AffineRest(a * inverse, x, 0, n);
  }
}
