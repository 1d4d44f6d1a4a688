/** Small facts of integer arithmetic that the solver does not find by itself. */
module Arith {

  lemma MulNonNegative(x: int, y: int)
    requires x >= 0 && y >= 0
    ensures x * y >= 0
  {
  }

  /** A non-zero multiple of `b` is at least as far from zero as `b`. */
  lemma MulAtLeast(k: int, b: int)
    requires b != 0 && k != 0
    ensures (k * b >= b && k * b >= -b) || (k * b <= b && k * b <= -b)
  {
    var m := if k > 0 then k - 1 else -k - 1;
    MulNonNegative(m, if b > 0 then b else -b);
    assert k * b == (if k > 0 then m * b + b else -(m * b) - b);
  }

  /** Euclidean division undoes `q * b + r` when `r < b`. */
  lemma DivModOfSum(q: nat, r: nat, b: nat)
    requires r < b
    ensures (q * b + r) / b == q && (q * b + r) % b == r
  {
    var x := q * b + r;
    assert x == (x / b) * b + x % b;
    if x / b != q {
      assert (q - x / b) * b == x % b - r by { assert q * b - (x / b) * b == (q - x / b) * b; }
      MulAtLeast(q - x / b, b);
    }
  }
}
