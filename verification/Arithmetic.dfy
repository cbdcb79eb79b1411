/** Products and quotients of unbounded integers. */
module Arithmetic {
  lemma MulPositive(a: nat, b: nat)
    requires 1 <= a && 1 <= b
    ensures 1 <= a * b
  {}

  lemma MulMonotone(a: int, b: int, u: nat)
    requires a <= b
    ensures a * u <= b * u
  {
    assert b * u == a * u + (b - a) * u;
  }

  lemma Distribute(a: nat, b: nat, c: nat)
    ensures (a + b) * c == a * c + c * b
  {}

  lemma DivAtLeast(x: nat, m: nat, u: nat)
    requires 1 <= m && u * m <= x
    ensures u <= x / m
  {
    assert x == (x / m) * m + x % m;
    assert (x / m + 1) * m == (x / m) * m + m;
    if x / m < u {
      MulMonotone(x / m + 1, u, m);
    }
  }

  /** Division undoes multiplication. */
  lemma Quotient(q: nat, r: nat, d: nat)
    requires r < d
    ensures (q * d + r) / d == q && (q * d + r) % d == r
  {
    var x := q * d + r;
    var k := x / d;
    assert x == k * d + x % d;
    assert (q - k) * d == q * d - k * d && (k - q) * d == k * d - q * d;
    if k < q {
      MulMonotone(1, q - k, d);
    } else if q < k {
      MulMonotone(1, k - q, d);
    }
  }

  function Pow2(n: nat): (p: nat)
    ensures p >= 1
  {
    if n == 0 then 1 else 2 * Pow2(n - 1)
  }

  lemma {:induction false} Pow2Monotone(a: nat, b: nat)
    requires a <= b
    ensures Pow2(a) <= Pow2(b)
  {
    if a < b {
      Pow2Monotone(a, b - 1);
    }
  }
}
