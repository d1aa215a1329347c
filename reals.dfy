/** Facts about products and quotients of exact numbers that the impurity bounds and the ratio metrics rest on. */
module Reals {

  lemma ProductNonneg(x: real, y: real)
    requires 0.0 <= x && 0.0 <= y
    ensures 0.0 <= x * y
  {
  }

  lemma ProductZero(x: real, y: real)
    ensures x * y == 0.0 <==> x == 0.0 || y == 0.0
  {
  }

  lemma SquareNonneg(x: real)
    ensures 0.0 <= x * x
  {
    if x < 0.0 {
      ProductNonneg(-x, -x);
    } else {
      ProductNonneg(x, x);
    }
  }

  /** `num / d` with `0 <= num <= c * d` and `d > 0` lies in [0, c], and is 0 exactly when `num` is. */
  lemma QuotientBounds(num: real, d: real, c: real)
    requires d > 0.0 && 0.0 <= num <= c * d
    ensures 0.0 <= num / d <= c
    ensures num / d == 0.0 <==> num == 0.0
  {
    var q := num / d;
    assert q * d == num;
    if q < 0.0 {
      ProductNonneg(-q, d);
    }
    if q > c {
      ProductNonneg(q - c, d);
      ProductZero(q - c, d);
    }
    ProductZero(q, d);
  }

  /** `part / whole` for a part of a non-empty whole: it lies in [0, 1] and is 1 exactly when the part is the whole. */
  function Fraction(part: nat, whole: nat): (q: real)
    requires part <= whole && 0 < whole
    ensures 0.0 <= q <= 1.0
    ensures q == 1.0 <==> part == whole
  {
    assert part as real / whole as real * whole as real == part as real;
    part as real / whole as real
  }
}
