/** Facts of real arithmetic that the solver needs stated one at a time; every proof
    involving products of unknowns goes through these. */
module RealArith {

  lemma SquareNonneg(a: real) ensures 0.0 <= a * a {}

  lemma SquareBound(a: real) requires a * a <= 1.0 ensures -1.0 <= a <= 1.0 {}

  lemma SquareBelow(a: real) requires a * a < 1.0 ensures -1.0 < a < 1.0 {}

  lemma SquareBound1(a: real) requires -1.0 <= a <= 1.0 ensures 0.0 <= a * a <= 1.0 {
    SquareNonneg(a);
    if 0.0 <= a {
      MulMonoLeft(a, a, 1.0);
      calc {
        a * a;
        <= a * 1.0;
        <= 1.0;
      }
    } else {
      MulMonoLeft(-a, -a, 1.0);
      calc {
        a * a;
        == (-a) * (-a);
        <= (-a) * 1.0;
        <= 1.0;
      }
    }
  }

  lemma SineBound(c: real, s: real)
    requires -1.0 <= c <= 1.0 && 0.0 <= s && s * s == 1.0 - c * c
    ensures s <= 1.0
  {
    SquareBound1(c);
    SquareBound(s);
  }

  lemma BelowSquare(a: real, b: real) requires a * a <= b && b < 1.0 ensures -1.0 < a {
    SquareBelow(a);
  }

  lemma ProductZero(a: real, b: real) requires a * b == 0.0 ensures a == 0.0 || b == 0.0 {}

  lemma SquareZero(a: real) requires a * a == 0.0 ensures a == 0.0 { ProductZero(a, a); }

  lemma SquarePositive(a: real) requires a != 0.0 ensures 0.0 < a * a {}

  lemma SumZero(a: real, b: real, c: real)
    requires 0.0 <= a && 0.0 <= b && 0.0 <= c && a + b + c == 0.0
    ensures a == 0.0 && b == 0.0 && c == 0.0
  {}

  lemma NegOfProduct(a: real, b: real) requires a * b < 0.0 && 0.0 < b ensures a < 0.0 {}

  lemma PosOfProduct(a: real, b: real) requires a * b > 0.0 && 0.0 < b ensures a > 0.0 {}

  lemma PositiveProduct(a: real, b: real)
    requires 0.0 <= a && 0.0 < a * b
    ensures 0.0 < a && b != 0.0
  {}

  lemma MulMonoLeft(k: real, a: real, b: real) requires 0.0 <= k && a <= b ensures k * a <= k * b {}

  lemma MulPositive(a: real, b: real) requires 0.0 < a && 0.0 < b ensures 0.0 < a * b {}

  lemma MulNonneg(a: real, b: real) requires 0.0 <= a && 0.0 <= b ensures 0.0 <= a * b {}

  lemma DiffSquares(s: real, t: real) ensures (t - s) * (t + s) == t * t - s * s {}

  lemma ScaleProduct(k: real, u: real, v: real) ensures (k * u) * (k * v) == k * k * (u * v) {}
}
