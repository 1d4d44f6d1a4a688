/**
 * Go's fixed-width integer behaviour where the model depends on it: the
 * truncating division and remainder of Go's `/` and `%`, and the
 * two's-complement reinterpretation `int64(u)` of a `uint64` value, and
 * Go's `byte`.
 */
module GoInt {
  import opened Arith

  /** Go's `byte` (`uint8`). */
  type byte = x: int | 0 <= x < 256

  const TwoTo32: int := 0x1_0000_0000
  const TwoTo63: int := 0x8000_0000_0000_0000
  const TwoTo64: int := 0x1_0000_0000_0000_0000
  const MaxUint32: int := TwoTo32 - 1
  const MaxUint64: int := TwoTo64 - 1

  predicate IsInt64(x: int) {
    -TwoTo63 <= x < TwoTo63
  }

  /** `int64(u)`: the uint64 bit pattern of `u` read as a signed value. */
  function Int64(u: nat): (r: int)
    requires u < TwoTo64
    ensures IsInt64(r)
    ensures r == u || r == u - TwoTo64
    ensures r >= 0 <==> u < TwoTo63
  {
    if u < TwoTo63 then u else u - TwoTo64
  }

  /** `uint64(x)` for an int64 `x`, the inverse of `Int64`. */
  function Uint64(x: int): (u: nat)
    requires IsInt64(x)
    ensures u < TwoTo64 && Int64(u) == x
  {
    if x >= 0 then x else x + TwoTo64
  }

  /** Go's `a / b`: the quotient truncated toward zero. */
  function Quo(a: int, b: int): int
    requires b != 0
  {
    if a >= 0 && b > 0 then a / b
    else if a >= 0 then -(a / -b)
    else if b > 0 then -((-a) / b)
    else (-a) / (-b)
  }

  /** Go's `a % b`: the remainder that goes with `Quo`; it takes the sign of `a`. */
  function Rem(a: int, b: int): (r: int)
    requires b != 0
    ensures Quo(a, b) * b + r == a
    ensures -b < r < b || b < r < -b
    ensures a >= 0 ==> r >= 0
    ensures a <= 0 ==> r <= 0
  {
    QuoBounds(a, b);
    a - Quo(a, b) * b
  }

  /** What is left after taking `Quo(a, b)` copies of `b` from `a` lies strictly between `-|b|` and `|b|`, on the side of `a`. */
  lemma QuoBounds(a: int, b: int)
    requires b != 0
    ensures var r := a - Quo(a, b) * b;
      && (-b < r < b || b < r < -b)
      && (a >= 0 ==> r >= 0)
      && (a <= 0 ==> r <= 0)
  {
    var x: nat, y: nat := if a >= 0 then a else -a, if b > 0 then b else -b;
    var q := x / y;
    NatRem(x, y);
    QuoOfMagnitudes(a, b);
    SignedProduct(q, y);
    assert Quo(a, b) * b == if a >= 0 then q * y else -(q * y);
  }

  /** Euclidean division of naturals leaves a remainder below the divisor. */
  lemma NatRem(x: nat, y: nat)
    requires y > 0
    ensures 0 <= x - (x / y) * y < y
  {
    assert x == (x / y) * y + x % y;
  }

  /** `Quo(a, b)` divides the magnitudes and takes the sign of the product. */
  lemma QuoOfMagnitudes(a: int, b: int)
    requires b != 0
    ensures var x, y := if a >= 0 then a else -a, if b > 0 then b else -b;
      Quo(a, b) == if (a >= 0) == (b > 0) then x / y else -(x / y)
  {
  }

  lemma SignedProduct(q: int, y: int)
    ensures (-q) * (-y) == q * y && (-q) * y == -(q * y) && q * (-y) == -(q * y)
  {
  }

  /** Quotient and remainder are fixed by the three properties `Rem` promises. */
  lemma QuoRemUnique(a: int, b: int, q: int, r: int)
    requires b != 0
    requires q * b + r == a
    requires -b < r < b || b < r < -b
    requires a >= 0 ==> r >= 0
    requires a <= 0 ==> r <= 0
    ensures q == Quo(a, b) && r == Rem(a, b)
  {
    SameRemainder(a, b, q, r, Quo(a, b), Rem(a, b));
  }

  /** Two quotient-remainder pairs for `a` and `b` whose remainders lie on the side of `a` within `|b|` are equal. */
  lemma SameRemainder(a: int, b: int, q: int, r: int, q0: int, r0: int)
    requires b != 0
    requires q * b + r == a && q0 * b + r0 == a
    requires -b < r < b || b < r < -b
    requires -b < r0 < b || b < r0 < -b
    requires a >= 0 ==> r >= 0 && r0 >= 0
    requires a <= 0 ==> r <= 0 && r0 <= 0
    ensures q == q0 && r == r0
  {
    var k := q - q0;
    assert k * b == r0 - r by { assert q * b - q0 * b == k * b; }
    if k != 0 {
      MulAtLeast(k, b);
    }
  }
}
