/** Division facts the timer and the multi-byte arithmetic share. */
module Arith {
  lemma MulMonotonic(k: int, x: int, y: int)
    requires 0 <= k && x <= y
    ensures k * x <= k * y
  {
  }

  /** A quotient and a remainder in range are the quotient and the remainder. */
  lemma DivModUnique(x: int, p: int, q: int, r: int)
    requires p > 0 && x == p * q + r && 0 <= r < p
    ensures x / p == q && x % p == r
  {
    var q1, r1 := x / p, x % p;
    assert x == p * q1 + r1;
    assert p * (q - q1) == r1 - r;
    if q > q1 {
      MulMonotonic(p, 1, q - q1);
    } else if q < q1 {
      MulMonotonic(p, q - q1, -1);
    }
  }

  /** One more tick of a counter with period `p`. */
  lemma ModStep(x: int, p: int)
    requires p > 0
    ensures (x + 1) % p == if x % p == p - 1 then 0 else x % p + 1
    ensures (x + 1) / p == if x % p == p - 1 then x / p + 1 else x / p
  {
    var q, r := x / p, x % p;
    if r == p - 1 {
      assert x + 1 == p * (q + 1) + 0;
      DivModUnique(x + 1, p, q + 1, 0);
    } else {
      assert x + 1 == p * q + (r + 1);
      DivModUnique(x + 1, p, q, r + 1);
    }
  }
}
