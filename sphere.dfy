/** `src/sphere.rs`: a sphere and the closed-form intersection of a ray with it. */
module Spheres {
  import opened RealArith
  import opened Vectors
  import opened Wrappers
  import opened Rays
  import opened Records

  /** `struct Sphere`. A negative radius is allowed and turns the normals inward. */
  datatype Sphere = Sphere(center: Vec3, radius: real, material: Material)

  /** `Sphere::new` stores its arguments unchanged. */
  function NewSphere(center: Vec3, r: real, material: Material): (s: Sphere)
    ensures s.center == center && s.radius == r && s.material == material
  {
    Sphere(center, r, material)
  }

  // The quadratic a t² + b t + c = 0 whose roots are the parameters where the ray meets
  // the sphere: a = D·D, b = 2 (O - C)·D, c = (O - C)·(O - C) - r², delta = b² - 4ac.

  function QuadA(ray: Ray): real {
    Dot(ray.Direction(), ray.Direction())
  }

  function QuadB(s: Sphere, ray: Ray): real {
    2.0 * Dot(Sub(ray.Origin(), s.center), ray.Direction())
  }

  function QuadC(s: Sphere, ray: Ray): real {
    var oc := Sub(ray.Origin(), s.center);
    Dot(oc, oc) - s.radius * s.radius
  }

  function Delta(s: Sphere, ray: Ray): real {
    var a, b, c := QuadA(ray), QuadB(s, ray), QuadC(s, ray);
    b * b - 4.0 * a * c
  }

  /** `t` is a root of the sphere's quadratic. */
  predicate IsRoot(s: Sphere, ray: Ray, t: real) {
    QuadA(ray) * t * t + QuadB(s, ray) * t + QuadC(s, ray) == 0.0
  }

  /** A positive discriminant can only come from a non-zero direction and a non-zero
      radius (by Cauchy-Schwarz), so the divisions in `hit` are always defined. */
  lemma DeltaPositive(s: Sphere, ray: Ray)
    requires Delta(s, ray) > 0.0
    ensures QuadA(ray) > 0.0 && s.radius != 0.0
  {
    var oc := Sub(ray.Origin(), s.center);
    var d := ray.Direction();
    CauchySchwarz(oc, d);
    DotSelf(d);
    SquareNonneg(s.radius);
    DiscriminantAlgebra(QuadA(ray), Dot(oc, d), Dot(oc, oc), s.radius * s.radius);
  }

  lemma DiscriminantAlgebra(a: real, k: real, o: real, rr: real)
    requires 0.0 <= a && 0.0 <= rr && k * k <= o * a
    requires (2.0 * k) * (2.0 * k) - 4.0 * a * (o - rr) > 0.0
    ensures a > 0.0 && rr != 0.0
  {
    assert (2.0 * k) * (2.0 * k) - 4.0 * a * (o - rr) == 4.0 * (k * k - o * a) + 4.0 * (a * rr);
    assert a * rr > 0.0;
    PositiveProduct(a, rr);
  }

  /** The nearer root `r1`. */
  function Root1(s: Sphere, ray: Ray, sqrt: real -> real): real
    requires SqrtLaw(sqrt) && Delta(s, ray) > 0.0
  {
    DeltaPositive(s, ray);
    (-QuadB(s, ray) - sqrt(Delta(s, ray))) / (2.0 * QuadA(ray))
  }

  /** The farther root `r2`. */
  function Root2(s: Sphere, ray: Ray, sqrt: real -> real): real
    requires SqrtLaw(sqrt) && Delta(s, ray) > 0.0
  {
    DeltaPositive(s, ray);
    (-QuadB(s, ray) + sqrt(Delta(s, ray))) / (2.0 * QuadA(ray))
  }

  /** The record `hit` builds for the root `t`: the point on the ray, the offset from the
      centre divided by the signed radius, and the sphere's own material. */
  function RecordAt(s: Sphere, ray: Ray, t: real): HitRecord
    requires s.radius != 0.0
  {
    var p := ray.PointAtParameter(t);
    var normal := Scale(1.0 / s.radius, Sub(p, s.center));
    HitRecord(t, p, normal, s.material)
  }

  /** `Hittable::hit` for `Sphere`: the first of `r1`, `r2` strictly inside `(tMin, tMax)`.
      A tangent ray (`delta == 0`) is a miss. */
  function Hit(s: Sphere, ray: Ray, tMin: real, tMax: real, sqrt: real -> real): (h: Option<HitRecord>)
    requires SqrtLaw(sqrt)
    ensures Delta(s, ray) <= 0.0 ==> h.None?
    ensures h.Some? ==> tMin < h.value.t < tMax
    ensures h.Some? ==> s.radius != 0.0 && QuadA(ray) > 0.0 && h.value == RecordAt(s, ray, h.value.t)
    ensures h.Some? ==> IsRoot(s, ray, h.value.t)
  {
    if Delta(s, ray) > 0.0 then
      DeltaPositive(s, ray);
      RootsAreRoots(s, ray, sqrt);
      var r1, r2 := Root1(s, ray, sqrt), Root2(s, ray, sqrt);
      if r1 < tMax && r1 > tMin then
        Some(RecordAt(s, ray, r1))
      else if r2 < tMax && r2 > tMin then
        Some(RecordAt(s, ray, r2))
      else
        None
    else
      None
  }

  /** Both `r1` and `r2` solve the quadratic, and `r1 < r2`. */
  lemma RootsAreRoots(s: Sphere, ray: Ray, sqrt: real -> real)
    requires SqrtLaw(sqrt) && Delta(s, ray) > 0.0
    ensures IsRoot(s, ray, Root1(s, ray, sqrt)) && IsRoot(s, ray, Root2(s, ray, sqrt))
    ensures Root1(s, ray, sqrt) < Root2(s, ray, sqrt)
  {
    DeltaPositive(s, ray);
    var a, b, c := QuadA(ray), QuadB(s, ray), QuadC(s, ray);
    var q := sqrt(Delta(s, ray));
    SqrtPositive(sqrt, Delta(s, ray));
    assert q * q == b * b - 4.0 * a * c;
    QuadraticRoot(a, b, c, -q, Root1(s, ray, sqrt));
    QuadraticRoot(a, b, c, q, Root2(s, ray, sqrt));
    RootOrder(a, b, q);
  }

  /** `(-b + q) / 2a` solves `a t² + b t + c = 0` when `q² = b² - 4ac`. */
  lemma QuadraticRoot(a: real, b: real, c: real, q: real, t: real)
    requires a != 0.0 && q * q == b * b - 4.0 * a * c && t == (-b + q) / (2.0 * a)
    ensures a * t * t + b * t + c == 0.0
  {
    assert 2.0 * a * t + b == q;
    calc {
      4.0 * a * (a * t * t + b * t + c);
      == (2.0 * a * t + b) * (2.0 * a * t + b) - (b * b - 4.0 * a * c);
      == q * q - (b * b - 4.0 * a * c);
      == 0.0;
    }
    ProductZero(4.0 * a, a * t * t + b * t + c);
  }

  lemma RootOrder(a: real, b: real, q: real)
    requires 0.0 < a && 0.0 < q
    ensures (-b - q) / (2.0 * a) < (-b + q) / (2.0 * a)
  {
    var x, y := (-b - q) / (2.0 * a), (-b + q) / (2.0 * a);
    assert y - x == q / a;
  }

  /** `hit` tries `r1` first and returns it whenever it lies in the window; it returns `r2`
      only when `r1` lies outside. */
  lemma HitTriesRootsInOrder(s: Sphere, ray: Ray, tMin: real, tMax: real, sqrt: real -> real)
    requires SqrtLaw(sqrt) && Delta(s, ray) > 0.0
    ensures s.radius != 0.0
    ensures tMin < Root1(s, ray, sqrt) < tMax ==>
      Hit(s, ray, tMin, tMax, sqrt) == Some(RecordAt(s, ray, Root1(s, ray, sqrt)))
    ensures !(tMin < Root1(s, ray, sqrt) < tMax) ==>
      Hit(s, ray, tMin, tMax, sqrt)
        == if tMin < Root2(s, ray, sqrt) < tMax then Some(RecordAt(s, ray, Root2(s, ray, sqrt))) else None
  {
    DeltaPositive(s, ray);
  }

  /** Shrinking the upper end of the window to `t` keeps exactly the hits nearer than `t`:
      the root chosen for the wide window is still chosen if it is below `t`, and nothing
      is found otherwise. */
  lemma HitRestrict(s: Sphere, ray: Ray, tMin: real, tMax: real, t: real, sqrt: real -> real)
    requires SqrtLaw(sqrt) && t <= tMax
    ensures Hit(s, ray, tMin, t, sqrt)
         == if Hit(s, ray, tMin, tMax, sqrt).Some? && Hit(s, ray, tMin, tMax, sqrt).value.t < t
            then Hit(s, ray, tMin, tMax, sqrt) else None
  {
    if Delta(s, ray) > 0.0 {
      RootsAreRoots(s, ray, sqrt);
      HitTriesRootsInOrder(s, ray, tMin, tMax, sqrt);
      HitTriesRootsInOrder(s, ray, tMin, t, sqrt);
    }
  }

  /** The window is monotone: no hit inside `(tMin, tMax)` means none inside any smaller
      `(tMin, t)`. */
  lemma HitWindowMonotone(s: Sphere, ray: Ray, tMin: real, tMax: real, t: real, sqrt: real -> real)
    requires SqrtLaw(sqrt) && t <= tMax && Hit(s, ray, tMin, tMax, sqrt).None?
    ensures Hit(s, ray, tMin, t, sqrt).None?
  {
    HitRestrict(s, ray, tMin, tMax, t, sqrt);
  }

  /** A returned normal has unit length, and its product with the offset from the centre
      is the signed radius: outward for a positive radius, inward for a negative one. */
  lemma HitNormal(s: Sphere, ray: Ray, tMin: real, tMax: real, sqrt: real -> real)
    requires SqrtLaw(sqrt) && Hit(s, ray, tMin, tMax, sqrt).Some?
    ensures var h := Hit(s, ray, tMin, tMax, sqrt).value;
      Dot(h.normal, h.normal) == 1.0 && Dot(Sub(h.p, s.center), h.normal) == s.radius
  {
    var h := Hit(s, ray, tMin, tMax, sqrt).value;
    OnSphere(s, ray, h.t);
    UnitByRadius(Sub(h.p, s.center), s.radius);
  }

  /** At a root of the quadratic the point on the ray lies at distance `|radius|` from the
      centre. */
  lemma OnSphere(s: Sphere, ray: Ray, t: real)
    requires IsRoot(s, ray, t)
    ensures var w := Sub(ray.PointAtParameter(t), s.center); Dot(w, w) == s.radius * s.radius
  {
    var oc := Sub(ray.Origin(), s.center);
    var d := ray.Direction();
    assert Sub(ray.PointAtParameter(t), s.center) == Add(oc, Scale(t, d));
    LengthOfSum(oc, t, d);
    assert Dot(oc, oc) + 2.0 * t * Dot(oc, d) + t * t * Dot(d, d)
        == QuadA(ray) * t * t + QuadB(s, ray) * t + QuadC(s, ray) + s.radius * s.radius;
  }

  /** Dividing a vector of length `|r|` by `r` gives a unit vector whose product with the
      original is `r`. */
  lemma UnitByRadius(w: Vec3, r: real)
    requires r != 0.0 && Dot(w, w) == r * r
    ensures Dot(Scale(1.0 / r, w), Scale(1.0 / r, w)) == 1.0
    ensures Dot(w, Scale(1.0 / r, w)) == r
  {
    var k := 1.0 / r;
    DotScale(k, w, w);
    DotScaleLeft(k, w, w);
    DotSymmetric(w, Scale(k, w));
    Reciprocal(r);
  }

  lemma Reciprocal(r: real)
    requires r != 0.0
    ensures (1.0 / r) * (1.0 / r) * (r * r) == 1.0
    ensures (1.0 / r) * (r * r) == r
  {
    var k := 1.0 / r;
    assert k * r == 1.0;
    calc {
      k * k * (r * r);
      == (k * r) * (k * r);
      == 1.0;
    }
    calc {
      k * (r * r);
      == (k * r) * r;
      == r;
    }
  }

  /** A ray aimed at the centre of a sphere of radius `radius > 0` from `dist > radius`
      away (along a unit direction) hits at `t = dist - radius`, with the normal pointing
      straight back along the ray. */
  lemma HitHeadOn(s: Sphere, d: Vec3, dist: real, tMin: real, tMax: real, sqrt: real -> real)
    requires SqrtLaw(sqrt)
    requires Dot(d, d) == 1.0 && 0.0 < s.radius < dist
    requires tMin < dist - s.radius < tMax
    ensures var h := Hit(s, Ray(Sub(s.center, Scale(dist, d)), d), tMin, tMax, sqrt);
      h.Some? && h.value.t == dist - s.radius && h.value.normal == Neg(d) && Dot(h.value.normal, d) < 0.0
  {
    var ray := Ray(Sub(s.center, Scale(dist, d)), d);
    HeadOnRoot(s, d, dist, sqrt);
    HitTriesRootsInOrder(s, ray, tMin, tMax, sqrt);
    HeadOnNormal(s, d, dist);
  }

  lemma HeadOnQuadratic(s: Sphere, d: Vec3, dist: real)
    requires Dot(d, d) == 1.0
    ensures var ray := Ray(Sub(s.center, Scale(dist, d)), d);
      QuadA(ray) == 1.0 && QuadB(s, ray) == -2.0 * dist
      && QuadC(s, ray) == dist * dist - s.radius * s.radius
  {
    var ray := Ray(Sub(s.center, Scale(dist, d)), d);
    assert Sub(ray.Origin(), s.center) == Scale(-dist, d);
    DotScale(-dist, d, d);
    DotScaleLeft(-dist, d, d);
  }

  lemma HeadOnRoot(s: Sphere, d: Vec3, dist: real, sqrt: real -> real)
    requires SqrtLaw(sqrt)
    requires Dot(d, d) == 1.0 && 0.0 < s.radius < dist
    ensures var ray := Ray(Sub(s.center, Scale(dist, d)), d);
      Delta(s, ray) > 0.0 && Root1(s, ray, sqrt) == dist - s.radius
  {
    var ray := Ray(Sub(s.center, Scale(dist, d)), d);
    HeadOnQuadratic(s, d, dist);
    var q := 2.0 * s.radius;
    SquarePositive(q);
    calc {
      Delta(s, ray);
      == (-2.0 * dist) * (-2.0 * dist) - 4.0 * 1.0 * (dist * dist - s.radius * s.radius);
      == q * q;
      > 0.0;
    }
    SqrtOfSquare(sqrt, q);
    assert sqrt(Delta(s, ray)) == q;
    assert Root1(s, ray, sqrt) == (2.0 * dist - q) / 2.0;
  }

  lemma HeadOnNormal(s: Sphere, d: Vec3, dist: real)
    requires Dot(d, d) == 1.0 && 0.0 < s.radius < dist
    ensures var h := RecordAt(s, Ray(Sub(s.center, Scale(dist, d)), d), dist - s.radius);
      h.normal == Neg(d) && Dot(h.normal, d) < 0.0
  {
    var R := s.radius;
    var h := RecordAt(s, Ray(Sub(s.center, Scale(dist, d)), d), dist - R);
    assert Sub(h.p, s.center) == Scale(-R, d);
    assert (1.0 / R) * -R == -1.0;
    assert h.normal == Neg(d);
  }
}
