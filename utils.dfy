/** `src/utils.rs`: mirror reflection, refraction, Schlick's approximation and the
    rejection sampler for random points. */
module Utils {
  import opened Vectors
  import opened Wrappers
  import opened RealArith

  /** `reflect`: `v` mirrored about the plane whose normal is `n`. */
  function Reflect(v: Vec3, n: Vec3): Vec3 {
    Sub(v, Scale(2.0 * Dot(v, n), n))
  }

  /** Against a unit normal, reflection flips the normal component. */
  lemma ReflectAgainstNormal(v: Vec3, n: Vec3)
    requires Dot(n, n) == 1.0
    ensures Dot(Reflect(v, n), n) == -Dot(v, n)
  {
    DotSub(v, Scale(2.0 * Dot(v, n), n), n);
    DotScaleLeft(2.0 * Dot(v, n), n, n);
  }

  /** Against a unit normal, reflection preserves length. */
  lemma ReflectPreservesLength(v: Vec3, n: Vec3)
    requires Dot(n, n) == 1.0
    ensures Dot(Reflect(v, n), Reflect(v, n)) == Dot(v, v)
  {
    var k := 2.0 * Dot(v, n);
    DotSubSelf(v, Scale(k, n));
    DotSymmetric(v, Scale(k, n));
    DotScaleLeft(k, n, v);
    DotSymmetric(n, v);
    DotScale(k, n, n);
  }

  /** Against a unit normal, reflecting twice gives back the original vector. */
  lemma ReflectInvolution(v: Vec3, n: Vec3)
    requires Dot(n, n) == 1.0
    ensures Reflect(Reflect(v, n), n) == v
  {
    ReflectAgainstNormal(v, n);
  }

  /** The quantity whose sign decides whether `refract` has a solution. */
  function RefractDiscriminant(v: Vec3, n: Vec3, niOverNt: real, sqrt: real -> real): real
    requires SqrtLaw(sqrt)
  {
    var dt := Dot(Normalize(v, sqrt), n);
    1.0 - niOverNt * niOverNt * (1.0 - dt * dt)
  }

  /** `refract`: Snell's law for the direction `v` through the surface with normal `n`
      at the index ratio `niOverNt`, or `None` when there is no real solution. The
      cosine comes from the normalized `v`, the tangential part from `v` itself. */
  function Refract(v: Vec3, n: Vec3, niOverNt: real, sqrt: real -> real): (r: Option<Vec3>)
    requires SqrtLaw(sqrt)
    ensures r.Some? <==> RefractDiscriminant(v, n, niOverNt, sqrt) > 0.0
  {
    var uv := Normalize(v, sqrt);
    var dt := Dot(uv, n);
    var delta := RefractDiscriminant(v, n, niOverNt, sqrt);
    if delta > 0.0 then
      Some(Sub(Scale(niOverNt, Sub(v, Scale(dt, n))), Scale(sqrt(delta), n)))
    else
      None
  }

  /** At the ratio one, a unit direction arriving against a unit normal passes straight
      through. */
  lemma RefractUnitRatio(v: Vec3, n: Vec3, sqrt: real -> real)
    requires SqrtLaw(sqrt)
    requires Dot(v, v) == 1.0 && Dot(v, n) < 0.0
    ensures Refract(v, n, 1.0, sqrt) == Some(v)
  {
    DiscriminantAtUnitRatio(v, n, sqrt);
    NormalizeUnit(v, sqrt);
    RefractSolution(v, n, 1.0, sqrt);
    StraightThrough(v, n, Dot(v, n));
  }

  /** The refracted direction when a solution exists. */
  lemma RefractSolution(v: Vec3, n: Vec3, niOverNt: real, sqrt: real -> real)
    requires SqrtLaw(sqrt)
    requires RefractDiscriminant(v, n, niOverNt, sqrt) > 0.0
    ensures Refract(v, n, niOverNt, sqrt) == Some(Sub(
      Scale(niOverNt, Sub(v, Scale(Dot(Normalize(v, sqrt), n), n))),
      Scale(sqrt(RefractDiscriminant(v, n, niOverNt, sqrt)), n)))
  {
  }

  lemma DiscriminantAtUnitRatio(v: Vec3, n: Vec3, sqrt: real -> real)
    requires SqrtLaw(sqrt)
    requires Dot(v, v) == 1.0 && Dot(v, n) < 0.0
    ensures RefractDiscriminant(v, n, 1.0, sqrt) == Dot(v, n) * Dot(v, n)
    ensures sqrt(RefractDiscriminant(v, n, 1.0, sqrt)) == -Dot(v, n)
    ensures RefractDiscriminant(v, n, 1.0, sqrt) > 0.0
  {
    NormalizeUnit(v, sqrt);
    var dt := Dot(v, n);
    SquarePositive(dt);
    calc {
      RefractDiscriminant(v, n, 1.0, sqrt);
      == dt * dt;
      > 0.0;
    }
    SqrtOfSquare(sqrt, dt);
  }

  lemma StraightThrough(v: Vec3, n: Vec3, dt: real)
    ensures Sub(Scale(1.0, Sub(v, Scale(dt, n))), Scale(-dt, n)) == v
  {
  }

  /** `a - s n` has squared length `|a|² - 2 s (a·n) + s² |n|²`. */
  lemma LengthAlongNormal(a: Vec3, s: real, n: Vec3)
    ensures Dot(Sub(a, Scale(s, n)), Sub(a, Scale(s, n)))
         == Dot(a, a) - 2.0 * s * Dot(a, n) + s * s * Dot(n, n)
  {
    DotSubSelf(a, Scale(s, n));
    DotSymmetric(a, Scale(s, n));
    DotScaleLeft(s, n, a);
    DotSymmetric(n, a);
    DotScale(s, n, n);
  }

  /** A unit direction refracted through a unit normal stays a unit vector. */
  lemma RefractUnitLength(v: Vec3, n: Vec3, niOverNt: real, sqrt: real -> real)
    requires SqrtLaw(sqrt)
    requires Dot(v, v) == 1.0 && Dot(n, n) == 1.0
    requires Refract(v, n, niOverNt, sqrt).Some?
    ensures Dot(Refract(v, n, niOverNt, sqrt).value, Refract(v, n, niOverNt, sqrt).value) == 1.0
  {
    NormalizeUnit(v, sqrt);
    var dt := Dot(v, n);
    var delta := RefractDiscriminant(v, n, niOverNt, sqrt);
    var s := sqrt(delta);
    var tangent := Sub(v, Scale(dt, n));
    // The tangential part is orthogonal to the normal and has squared length 1 - dt².
    DotSub(v, Scale(dt, n), n);
    DotScaleLeft(dt, n, n);
    assert Dot(tangent, n) == 0.0;
    LengthAlongNormal(v, dt, n);
    assert Dot(tangent, tangent) == 1.0 - dt * dt;
    // The refracted direction has squared length ni²(1 - dt²) + delta, which is one.
    var e := Scale(niOverNt, tangent);
    DotScaleLeft(niOverNt, tangent, n);
    assert Dot(e, n) == 0.0;
    DotScale(niOverNt, tangent, tangent);
    assert Dot(e, e) == niOverNt * niOverNt * (1.0 - dt * dt);
    LengthAlongNormal(e, s, n);
    assert s * s == delta;
    assert Refract(v, n, niOverNt, sqrt).value == Sub(e, Scale(s, n));
  }

  /** The reflectance at normal incidence, `((1 - ridx) / (1 + ridx))²`. */
  function R0(ridx: real): real
    requires ridx != -1.0
  {
    var q := (1.0 - ridx) / (1.0 + ridx);
    q * q
  }

  function Pow5(x: real): real { x * x * x * x * x }

  /** `schlick`: Schlick's approximation of the Fresnel reflectance. `powf(2.0)` and
      `powf(5.0)` are written out as products. */
  function Schlick(cosine: real, ridx: real): real
    requires ridx != -1.0
  {
    var r0 := R0(ridx);
    r0 + (1.0 - r0) * Pow5(1.0 - cosine)
  }

  /** At normal incidence the approximation is exactly `R0`. */
  lemma SchlickNormalIncidence(ridx: real)
    requires ridx != -1.0
    ensures Schlick(1.0, ridx) == R0(ridx)
  {
  }

  /** At the ratio one there is no base reflectance, so only the grazing term remains. */
  lemma SchlickUnitRatio(cosine: real)
    ensures Schlick(cosine, 1.0) == Pow5(1.0 - cosine)
  {
  }

  /** For a positive ratio and a cosine in [0, 1] the reflectance lies between `R0` and
      one, and `R0` itself lies in [0, 1). */
  lemma SchlickBounds(cosine: real, ridx: real)
    requires 0.0 < ridx && 0.0 <= cosine <= 1.0
    ensures 0.0 <= R0(ridx) < 1.0
    ensures R0(ridx) <= Schlick(cosine, ridx) <= 1.0
  {
    R0Bounds(ridx);
    Pow5UnitInterval(1.0 - cosine);
    ScaledBetween(R0(ridx), Pow5(1.0 - cosine));
  }

  /** Below a grazing angle of ninety degrees the approximation leaves its range: a
      negative cosine makes the reflectance exceed one. */
  lemma SchlickAboveOne(cosine: real, ridx: real)
    requires 0.0 < ridx && cosine < 0.0
    ensures Schlick(cosine, ridx) > 1.0
  {
    R0Bounds(ridx);
    Pow5AboveOne(1.0 - cosine);
    AboveOneBlend(R0(ridx), Pow5(1.0 - cosine));
  }

  lemma R0Bounds(ridx: real)
    requires 0.0 < ridx
    ensures 0.0 <= R0(ridx) < 1.0
  {
    var q := (1.0 - ridx) / (1.0 + ridx);
    assert -1.0 < q < 1.0 by {
      assert q * (1.0 + ridx) == 1.0 - ridx;
      UnitRatioBound(1.0 - ridx, 1.0 + ridx, q);
    }
    SquareNonneg(q);
    SquareBelowOne(q);
  }

  lemma Pow5AboveOne(x: real)
    requires 1.0 < x
    ensures 1.0 < Pow5(x)
  {
    ProductAboveOne(x, x);
    ProductAboveOne(x * x, x);
    ProductAboveOne(x * x * x, x);
    ProductAboveOne(x * x * x * x, x);
  }

  lemma ProductAboveOne(a: real, b: real)
    requires 1.0 < a && 1.0 < b
    ensures 1.0 < a * b
  {
    calc {
      a * b;
      == (a - 1.0) * b + b;
      > b;
    }
  }

  lemma AboveOneBlend(r0: real, p: real)
    requires 0.0 <= r0 < 1.0 && 1.0 < p
    ensures 1.0 < r0 + (1.0 - r0) * p
  {
    MulPositive(1.0 - r0, p - 1.0);
    calc {
      r0 + (1.0 - r0) * p;
      == 1.0 + (1.0 - r0) * (p - 1.0);
      > 1.0;
    }
  }

  lemma UnitRatioBound(a: real, b: real, q: real)
    requires 0.0 < b && -b < a < b && q * b == a
    ensures -1.0 < q < 1.0
  {
    assert (q - 1.0) * b == a - b;
    NegOfProduct(q - 1.0, b);
    assert (q + 1.0) * b == a + b;
    PosOfProduct(q + 1.0, b);
  }

  lemma SquareBelowOne(q: real)
    requires -1.0 < q < 1.0
    ensures q * q < 1.0
  {
    if q >= 0.0 {
      assert q * q <= q * 1.0;
    } else {
      assert q * q <= q * -1.0;
    }
  }

  lemma Pow5UnitInterval(x: real)
    requires 0.0 <= x <= 1.0
    ensures 0.0 <= Pow5(x) <= 1.0
  {
    var x2 := x * x;
    assert 0.0 <= x2 <= 1.0 by { assert x * x <= x * 1.0; }
    var x4 := x2 * x2;
    assert 0.0 <= x4 <= 1.0 by { assert x2 * x2 <= x2 * 1.0; }
    assert Pow5(x) == x4 * x;
    assert x4 * x <= x4 * 1.0;
  }

  lemma ScaledBetween(r0: real, p: real)
    requires 0.0 <= r0 < 1.0 && 0.0 <= p <= 1.0
    ensures r0 <= r0 + (1.0 - r0) * p <= 1.0
  {
    MulNonneg(1.0 - r0, p);
    MulNonneg(1.0 - r0, 1.0 - p);
    assert (1.0 - r0) * (1.0 - p) == (1.0 - r0) - (1.0 - r0) * p;
  }

  /** Candidate number `k` of the rejection sampler: `2 (x, y, z) - (1, 1, 1)` for the
      `k`-th triple of uniform draws. */
  function Candidate(draws: seq<real>, k: nat): Vec3
    requires 3 * k + 2 < |draws|
  {
    Sub(Scale(2.0, Vec3(draws[3 * k], draws[3 * k + 1], draws[3 * k + 2])), Vec3(1.0, 1.0, 1.0))
  }

  /** The sampler's exit test: the candidate lies outside the unit ball or on its surface. */
  predicate Accepted(p: Vec3) {
    Dot(p, p) >= 1.0
  }

  predicate UnitDraws(draws: seq<real>) {
    forall i :: 0 <= i < |draws| ==> 0.0 <= draws[i] < 1.0
  }

  /** `random_in_unit_sphere`, drawing from the supplied uniform samples three at a time.
      It returns the first accepted candidate and how many candidates it drew; when the
      samples run out first, it returns `None`. */
  method RandomInUnitSphere(draws: seq<real>) returns (p: Option<Vec3>, rounds: nat)
    ensures 3 * rounds <= |draws|
    ensures forall k :: 0 <= k < rounds - 1 ==> !Accepted(Candidate(draws, k))
    ensures p.Some? ==> 1 <= rounds && p.value == Candidate(draws, rounds - 1) && Accepted(p.value)
    ensures p.None? ==> rounds == |draws| / 3 && forall k :: 0 <= k < rounds ==> !Accepted(Candidate(draws, k))
    ensures p.Some? && UnitDraws(draws) ==>
      -1.0 <= p.value.x < 1.0 && -1.0 <= p.value.y < 1.0 && -1.0 <= p.value.z < 1.0
  {
    p, rounds := None, 0;
    var origin := Vec3(1.0, 1.0, 1.0);
    while rounds < |draws| / 3
      invariant 3 * rounds <= |draws|
      invariant forall k :: 0 <= k < rounds ==> !Accepted(Candidate(draws, k))
    {
      var x, y, z := draws[3 * rounds], draws[3 * rounds + 1], draws[3 * rounds + 2];
      var candidate := Sub(Scale(2.0, Vec3(x, y, z)), origin);
      rounds := rounds + 1;
      if Dot(candidate, candidate) >= 1.0 {
        p := Some(candidate);
        return;
      }
    }
  }
}
