/** Products, powers and quotients. */
module Arithmetic {

  function Pow(b: nat, n: nat): nat { if n == 0 then 1 else b * Pow(b, n - 1) }

  lemma {:induction false} PowPositive(b: nat, n: nat)
    requires 0 < b
    ensures 0 < Pow(b, n)
  {
    if n != 0 {
      PowPositive(b, n - 1);
    }
  }

  lemma {:induction false} MultiplyMonotone(a: nat, b: nat, p: nat)
    requires a <= b
    ensures a * p <= b * p
  {
    if a < b {
      MultiplyMonotone(a, b - 1, p);
      assert b * p == (b - 1) * p + p;
    }
  }

  lemma QuotientIsUnique(q: nat, r: nat, t: nat, x: nat, p: nat)
    requires q * p + r == t * p + x && r < p && x < p
    ensures q == t && r == x
  {
    if q < t {
      MultiplyMonotone(q + 1, t, p);
    } else if t < q {
      MultiplyMonotone(t + 1, q, p);
    }
  }

  lemma QuotientAndRemainder(w: nat, p: nat)
    requires 0 < p
    ensures w == w % p + w / p * p && w % p < p
  {
    assert w == p * (w / p) + w % p;
    assert p * (w / p) == w / p * p;
  }

  lemma DivideSum(x: nat, t: nat, p: nat)
    requires x < p
    ensures (x + t * p) / p == t && (x + t * p) % p == x
  {
    var n := x + t * p;
    assert n == p * (n / p) + n % p;
    assert p * (n / p) == (n / p) * p;
    QuotientIsUnique(n / p, n % p, t, x, p);
  }
}
