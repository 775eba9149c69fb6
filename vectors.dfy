/** Three-dimensional vectors over exact reals, standing in for glam's `Vec3`, together
    with the square root the renderer takes from `f32::sqrt`.

    Dafny cannot define a square root on `real`, so every operation that needs one takes
    it as a parameter `sqrt` and requires `SqrtLaw(sqrt)`: on non-negative arguments it
    returns the non-negative root. On negative arguments it is left unconstrained. */
module Vectors {
  import opened RealArith

  datatype Vec3 = Vec3(x: real, y: real, z: real)

  const Zero := Vec3(0.0, 0.0, 0.0)

  function Add(u: Vec3, v: Vec3): Vec3 { Vec3(u.x + v.x, u.y + v.y, u.z + v.z) }

  function Sub(u: Vec3, v: Vec3): Vec3 { Vec3(u.x - v.x, u.y - v.y, u.z - v.z) }

  function Neg(v: Vec3): Vec3 { Vec3(-v.x, -v.y, -v.z) }

  /** `k * v`. */
  function Scale(k: real, v: Vec3): Vec3 { Vec3(k * v.x, k * v.y, k * v.z) }

  /** Component-wise product, glam's `Vec3 * Vec3`. */
  function Mul(u: Vec3, v: Vec3): Vec3 { Vec3(u.x * v.x, u.y * v.y, u.z * v.z) }

  function Dot(u: Vec3, v: Vec3): real { u.x * v.x + u.y * v.y + u.z * v.z }

  /** `sqrt` is a square root on the non-negative reals. */
  ghost predicate SqrtLaw(sqrt: real -> real) {
    forall x :: 0.0 <= x ==> 0.0 <= sqrt(x) && sqrt(x) * sqrt(x) == x
  }

  /** The square root of a square is the absolute value. */
  lemma SqrtOfSquare(sqrt: real -> real, y: real)
    requires SqrtLaw(sqrt)
    ensures sqrt(y * y) == if y < 0.0 then -y else y
  {
    var s := sqrt(y * y);
    var m := if y < 0.0 then -y else y;
    assert 0.0 <= s && s * s == m * m;
    DiffSquares(m, s);
    ProductZero(s - m, s + m);
  }

  lemma SqrtAt(sqrt: real -> real, x: real, y: real)
    requires SqrtLaw(sqrt) && 0.0 <= y && x == y * y
    ensures sqrt(x) == y
  {
    SqrtOfSquare(sqrt, y);
  }

  lemma SqrtPositive(sqrt: real -> real, x: real)
    requires SqrtLaw(sqrt)
    requires 0.0 < x
    ensures 0.0 < sqrt(x)
  {
    assert sqrt(x) * sqrt(x) == x;
  }

  lemma SqrtOne(sqrt: real -> real)
    requires SqrtLaw(sqrt)
    ensures sqrt(1.0) == 1.0
  {
    SqrtOfSquare(sqrt, 1.0);
  }

  lemma DotSelf(v: Vec3)
    ensures 0.0 <= Dot(v, v)
    ensures Dot(v, v) == 0.0 <==> v == Zero
  {
    SquareNonneg(v.x);
    SquareNonneg(v.y);
    SquareNonneg(v.z);
    if Dot(v, v) == 0.0 {
      SumZero(v.x * v.x, v.y * v.y, v.z * v.z);
      SquareZero(v.x);
      SquareZero(v.y);
      SquareZero(v.z);
    }
  }

  /** Cauchy-Schwarz, from Lagrange's identity. */
  lemma CauchySchwarz(u: Vec3, v: Vec3)
    ensures Dot(u, v) * Dot(u, v) <= Dot(u, u) * Dot(v, v)
  {
    var c1 := u.y * v.z - u.z * v.y;
    var c2 := u.z * v.x - u.x * v.z;
    var c3 := u.x * v.y - u.y * v.x;
    assert Dot(u, u) * Dot(v, v) - Dot(u, v) * Dot(u, v) == c1 * c1 + c2 * c2 + c3 * c3;
  }

  /** glam's `normalize`: `v` times the reciprocal of its length. glam divides by zero on
      the zero vector (every component NaN); this model returns the zero vector there. */
  function Normalize(v: Vec3, sqrt: real -> real): Vec3
    requires SqrtLaw(sqrt)
  {
    if v == Zero then Zero
    else
      DotSelf(v);
      SqrtPositive(sqrt, Dot(v, v));
      Scale(1.0 / sqrt(Dot(v, v)), v)
  }

  /** Normalizing a non-zero vector multiplies it by a positive factor and gives it unit length. */
  lemma NormalizeNonZero(v: Vec3, sqrt: real -> real) returns (k: real)
    requires SqrtLaw(sqrt)
    requires v != Zero
    ensures 0.0 < k && Normalize(v, sqrt) == Scale(k, v)
    ensures Dot(Normalize(v, sqrt), Normalize(v, sqrt)) == 1.0
  {
    DotSelf(v);
    var d := Dot(v, v);
    var s := sqrt(d);
    SqrtPositive(sqrt, d);
    k := 1.0 / s;
    var u := Normalize(v, sqrt);
    assert k * s == 1.0;
    assert k * k * d == 1.0 by {
      assert k * k * d == (k * s) * (k * s);
    }
    DotScale(k, v, v);
  }

  lemma NormalizeIsUnit(v: Vec3, sqrt: real -> real)
    requires SqrtLaw(sqrt) && v != Zero
    ensures Dot(Normalize(v, sqrt), Normalize(v, sqrt)) == 1.0
  {
    var k := NormalizeNonZero(v, sqrt);
  }

  /** A unit vector is its own normalization. */
  lemma NormalizeUnit(v: Vec3, sqrt: real -> real)
    requires SqrtLaw(sqrt)
    requires Dot(v, v) == 1.0
    ensures Normalize(v, sqrt) == v
  {
    SqrtOne(sqrt);
  }

  /** Every component of a normalized vector lies in [-1, 1]. */
  lemma NormalizeBounds(v: Vec3, sqrt: real -> real)
    requires SqrtLaw(sqrt)
    ensures Dot(Normalize(v, sqrt), Normalize(v, sqrt)) <= 1.0
    ensures -1.0 <= Normalize(v, sqrt).x <= 1.0
    ensures -1.0 <= Normalize(v, sqrt).y <= 1.0
    ensures -1.0 <= Normalize(v, sqrt).z <= 1.0
  {
    if v != Zero {
      var _ := NormalizeNonZero(v, sqrt);
    }
    UnitBounds(Normalize(v, sqrt));
  }

  lemma DotScale(k: real, u: Vec3, v: Vec3)
    ensures Dot(Scale(k, u), Scale(k, v)) == k * k * Dot(u, v)
  {
    ScaleProduct(k, u.x, v.x);
    ScaleProduct(k, u.y, v.y);
    ScaleProduct(k, u.z, v.z);
  }

  // Bilinearity of the dot product, one rule per lemma.

  lemma DotSub(u: Vec3, w: Vec3, n: Vec3)
    ensures Dot(Sub(u, w), n) == Dot(u, n) - Dot(w, n)
  {}

  lemma DotAdd(u: Vec3, w: Vec3, n: Vec3)
    ensures Dot(Add(u, w), n) == Dot(u, n) + Dot(w, n)
  {}

  lemma DotScaleLeft(k: real, u: Vec3, n: Vec3)
    ensures Dot(Scale(k, u), n) == k * Dot(u, n)
  {}

  lemma DotSymmetric(u: Vec3, v: Vec3)
    ensures Dot(u, v) == Dot(v, u)
  {}

  lemma DotSubSelf(u: Vec3, w: Vec3)
    ensures Dot(Sub(u, w), Sub(u, w)) == Dot(u, u) - 2.0 * Dot(u, w) + Dot(w, w)
  {
    DotSub(u, w, Sub(u, w));
    DotSymmetric(u, Sub(u, w));
    DotSymmetric(w, Sub(u, w));
    DotSub(u, w, u);
    DotSub(u, w, w);
    DotSymmetric(u, w);
  }

  /** `a + t d` has squared length `|a|² + 2 t (a·d) + t² |d|²`. */
  lemma LengthOfSum(a: Vec3, t: real, d: Vec3)
    ensures Dot(Add(a, Scale(t, d)), Add(a, Scale(t, d)))
         == Dot(a, a) + 2.0 * t * Dot(a, d) + t * t * Dot(d, d)
  {
    var w := Add(a, Scale(t, d));
    DotAdd(a, Scale(t, d), w);
    DotSymmetric(a, w);
    DotSymmetric(Scale(t, d), w);
    DotAdd(a, Scale(t, d), a);
    DotAdd(a, Scale(t, d), Scale(t, d));
    DotScaleLeft(t, d, a);
    DotSymmetric(d, a);
    DotSymmetric(a, Scale(t, d));
    DotScaleLeft(t, d, a);
    DotScale(t, d, d);
  }

  lemma DotNeg(u: Vec3, n: Vec3)
    ensures Dot(Neg(u), n) == -Dot(u, n)
  {}

  /** The sine recovered from a cosine in [-1, 1] lies in [0, 1]. */
  lemma SineOfCosine(sqrt: real -> real, c: real)
    requires SqrtLaw(sqrt) && -1.0 <= c <= 1.0
    ensures 0.0 <= sqrt(1.0 - c * c) <= 1.0
    ensures sqrt(1.0 - c * c) * sqrt(1.0 - c * c) == 1.0 - c * c
  {
    SquareBound1(c);
    SineBound(c, sqrt(1.0 - c * c));
  }

  /** The product of two unit vectors lies in [-1, 1]. */
  lemma UnitCosine(u: Vec3, n: Vec3)
    requires Dot(u, u) == 1.0 && Dot(n, n) == 1.0
    ensures -1.0 <= Dot(u, n) <= 1.0
  {
    CauchySchwarz(u, n);
    var p := Dot(u, u) * Dot(n, n);
    assert p == 1.0;
    SquareBound(Dot(u, n));
  }

  /** The product of a vector strictly inside the unit ball with a unit vector is above -1. */
  lemma UnitCosineStrict(s: Vec3, n: Vec3)
    requires Dot(s, s) < 1.0 && Dot(n, n) == 1.0
    ensures -1.0 < Dot(s, n)
  {
    CauchySchwarz(s, n);
    var a := Dot(s, n);
    var b := Dot(s, s);
    assert b * Dot(n, n) == b;
    BelowSquare(a, b);
  }

  /** Each component of a vector of length at most one lies in [-1, 1]. */
  lemma UnitBounds(u: Vec3)
    requires Dot(u, u) <= 1.0
    ensures -1.0 <= u.x <= 1.0 && -1.0 <= u.y <= 1.0 && -1.0 <= u.z <= 1.0
  {
    var a, b, c := u.x * u.x, u.y * u.y, u.z * u.z;
    SquareNonneg(u.x);
    SquareNonneg(u.y);
    SquareNonneg(u.z);
    assert Dot(u, u) == a + b + c;
    assert a <= 1.0 && b <= 1.0 && c <= 1.0;
    SquareBound(u.x);
    SquareBound(u.y);
    SquareBound(u.z);
  }
}
