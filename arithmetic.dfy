/** Facts about multiplication and division by a variable that the solver
    does not find by itself; used by the percentage, pagination and date
    proofs. */
module Arithmetic {

  lemma DivBracket(n: int, d: int)
    requires d > 0
    ensures d * (n / d) <= n < d * (n / d) + d
  {
  }

  lemma {:induction false} MulMonotone(c: nat, d: nat, p: nat)
    requires c <= d
    ensures c * p <= d * p
    decreases d - c
  {
    if c < d {
      MulMonotone(c, d - 1, p);
      assert d * p == (d - 1) * p + p;
    }
  }

  lemma MulStep(c: nat, d: nat, p: nat)
    requires c < d
    ensures c * p + p <= d * p
  {
    MulMonotone(c + 1, d, p);
    assert (c + 1) * p == c * p + p;
  }

  lemma MulLeftMonotone(c: int, a: int, b: int)
    requires c > 0
    ensures c * a < c * b <==> a < b
  {
    if a < b {
      assert c * b - c * a == c * (b - a);
    } else {
      assert c * a - c * b == c * (a - b);
    }
  }

  lemma Distrib(a: int, b: int, c: int)
    ensures a * (b + c) == a * b + a * c
  {
  }

  /** The quotient and remainder of a division are the only ones possible. */
  lemma ModUnique(n: int, d: int, q: int, r: int)
    requires d > 0 && 0 <= r < d && n == d * q + r
    ensures n % d == r
  {
    var q0 := n / d;
    assert d * (q - q0) == n % d - r;
    if q > q0 {
      MulLeftMonotone(d, q - q0, 1);
    } else if q < q0 {
      MulLeftMonotone(d, q - q0, -1);
    }
  }
}
