/** Powers of two, products and quotients of natural numbers. */
module Arithmetic {

  function Pow2(n: nat): (p: nat)
    ensures p > 0
  {
    if n == 0 then 1 else 2 * Pow2(n - 1)
  }

  lemma {:induction false} ProductGrows(d: nat, a: int, b: int)
    requires a < b
    ensures d * a + d <= d * b
    decreases b - a
  {
    assert d * b == d * (b - 1) + d;
    if a < b - 1 {
      ProductGrows(d, a, b - 1);
    }
  }

  lemma DivMod(a: nat, m: nat)
    requires m > 0
    ensures a == m * (a / m) + a % m && a % m < m
  {
  }

  lemma ModUnique(a: nat, m: nat, q: nat, r: nat)
    requires m > 0 && r < m && a == m * q + r
    ensures a % m == r && a / m == q
  {
    DivMod(a, m);
    var k := a / m;
    if k < q {
      ProductGrows(m, k, q);
    } else if k > q {
      ProductGrows(m, q, k);
    }
  }

  lemma Doubled(x: nat, y: nat)
    ensures 2 * (x * y) == (2 * x) * y
  {
  }

  lemma {:induction false} PowersMultiply(a: nat, b: nat)
    ensures Pow2(a + b) == Pow2(b) * Pow2(a)
  {
    if b > 0 {
      PowersMultiply(a, b - 1);
      Doubled(Pow2(b - 1), Pow2(a));
    }
  }
}
