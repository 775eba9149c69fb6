/** `src/material.rs`: how each kind of surface scatters an incoming ray. */
module Materials {
  import opened RealArith
  import opened Vectors
  import opened Wrappers
  import opened Rays
  import opened Records
  import opened Utils

  /** The randomness one bounce consumes: the point `random_in_unit_sphere` returned (used
      by diffuse and metal surfaces) and the number `rng.gen::<f32>()` gave (used by glass). */
  datatype Draw = Draw(inSphere: Vec3, uniform: real)

  /** The result of `scatter`: `None` when the surface absorbs the ray, otherwise the
      scattered ray (always present in this core) and the attenuation. */
  type Scattered = Option<(Option<Ray>, Vec3)>

  /** `Lambertian::new` stores the albedo unchanged. */
  function NewLambertian(albedo: Vec3): (l: Lambertian)
    ensures l.albedo == albedo
  {
    Lambertian.Lambertian(albedo)
  }

  /** `Metal::new` clamps the fuzz to at most one: the result is the smaller of `f` and one. */
  function NewMetal(albedo: Vec3, f: real): (m: Metal)
    ensures m.albedo == albedo
    ensures m.fuzz <= 1.0 && m.fuzz <= f && (m.fuzz == f || m.fuzz == 1.0)
  {
    var fuzz := if f < 1.0 then f else 1.0;
    Metal.Metal(albedo, fuzz)
  }

  /** `Lambertian::scatter`: a ray from the hit point towards the normal plus the random
      point, attenuated by the albedo. It never absorbs. */
  function LambertianScatter(l: Lambertian, ray: Ray, rec: HitRecord, sample: Vec3): (s: Scattered)
    ensures s.Some? && s.value.0.Some? && s.value.1 == l.albedo
    ensures s.value.0.value.Origin() == rec.p
    ensures s.value.0.value.Direction() == Add(rec.normal, sample)
  {
    var scatterDirection := Add(rec.normal, sample);
    var target := Add(rec.p, scatterDirection);
    var scattered := NewRay(rec.p, Sub(target, rec.p));
    Some((Some(scattered), l.albedo))
  }

  /** With a unit normal and a sample strictly inside the unit ball the diffuse ray leaves
      on the outer side of the surface. */
  lemma LambertianAboveSurface(l: Lambertian, ray: Ray, rec: HitRecord, sample: Vec3)
    requires Dot(rec.normal, rec.normal) == 1.0 && Dot(sample, sample) < 1.0
    ensures Dot(LambertianScatter(l, ray, rec, sample).value.0.value.Direction(), rec.normal) > 0.0
  {
    var n := rec.normal;
    DotAdd(n, sample, n);
    UnitCosineStrict(sample, n);
  }

  /** The sampler accepts points on or outside the unit sphere, and such a point can send
      the diffuse ray into the surface: the corner `(-1, -1, 0)` of the sampler's cube
      (the draws `0, 0, 0.5`) is accepted and points below the unit normal `(0.6, 0.8, 0)`. */
  lemma LambertianMayScatterInward(l: Lambertian, ray: Ray, rec: HitRecord)
    requires rec.normal == Vec3(0.6, 0.8, 0.0)
    ensures var sample := Vec3(-1.0, -1.0, 0.0);
      Accepted(sample)
      && Dot(LambertianScatter(l, ray, rec, sample).value.0.value.Direction(), rec.normal) < 0.0
  {
    var dir := LambertianScatter(l, ray, rec, Vec3(-1.0, -1.0, 0.0)).value.0.value.Direction();
    assert dir.x == -0.4 && dir.y == -0.2 && dir.z == 0.0;
  }

  /** The direction `Metal::scatter` proposes: the mirror direction plus `fuzz` times the
      random point. */
  function MetalDirection(m: Metal, ray: Ray, rec: HitRecord, sample: Vec3): Vec3 {
    Add(Reflect(ray.Direction(), rec.normal), Scale(m.fuzz, sample))
  }

  /** `Metal::scatter`: the fuzzed mirror ray from the hit point, attenuated by the albedo,
      or absorption when that ray does not leave on the side the normal points to. */
  function MetalScatter(m: Metal, ray: Ray, rec: HitRecord, sample: Vec3): (s: Scattered)
    ensures s.Some? <==> Dot(MetalDirection(m, ray, rec, sample), rec.normal) > 0.0
    ensures s.Some? ==> s.value == (Some(Ray(rec.p, MetalDirection(m, ray, rec, sample))), m.albedo)
  {
    var reflected := Reflect(ray.Direction(), rec.normal);
    var scattered := NewRay(rec.p, Add(reflected, Scale(m.fuzz, sample)));
    var attenuation := m.albedo;
    if Dot(scattered.Direction(), rec.normal) > 0.0 then
      Some((Some(scattered), attenuation))
    else
      None
  }

  /** A perfect mirror (fuzz zero) with a unit normal reflects a ray arriving against the
      normal: the angle of reflection equals the angle of incidence and the length of the
      direction is kept. */
  lemma MetalMirror(m: Metal, ray: Ray, rec: HitRecord, sample: Vec3)
    requires m.fuzz == 0.0 && Dot(rec.normal, rec.normal) == 1.0
    requires Dot(ray.Direction(), rec.normal) < 0.0
    ensures var s := MetalScatter(m, ray, rec, sample);
      s.Some? && s.value.0.value.Direction() == Reflect(ray.Direction(), rec.normal)
      && Dot(s.value.0.value.Direction(), rec.normal) == -Dot(ray.Direction(), rec.normal)
      && Dot(s.value.0.value.Direction(), s.value.0.value.Direction())
         == Dot(ray.Direction(), ray.Direction())
  {
    var r := Reflect(ray.Direction(), rec.normal);
    assert MetalDirection(m, ray, rec, sample) == r;
    ReflectAgainstNormal(ray.Direction(), rec.normal);
    ReflectPreservesLength(ray.Direction(), rec.normal);
  }

  /** A perfect mirror absorbs a ray that arrives from the side the normal points away from
      (or along the surface). */
  lemma MetalAbsorbsFromBehind(m: Metal, ray: Ray, rec: HitRecord, sample: Vec3)
    requires m.fuzz == 0.0 && Dot(rec.normal, rec.normal) == 1.0
    requires Dot(ray.Direction(), rec.normal) >= 0.0
    ensures MetalScatter(m, ray, rec, sample).None?
  {
    assert MetalDirection(m, ray, rec, sample) == Reflect(ray.Direction(), rec.normal);
    ReflectAgainstNormal(ray.Direction(), rec.normal);
  }

  /** Once the fuzz has been clamped by `Metal::new`, the proposed direction is never
      farther from the mirror direction than the random point is from the origin. */
  lemma MetalFuzzBounded(albedo: Vec3, f: real, ray: Ray, rec: HitRecord, sample: Vec3)
    requires 0.0 <= f
    ensures var m := NewMetal(albedo, f);
      var e := Sub(MetalDirection(m, ray, rec, sample), Reflect(ray.Direction(), rec.normal));
      Dot(e, e) <= Dot(sample, sample)
  {
    var m := NewMetal(albedo, f);
    var k := m.fuzz;
    var e := Sub(MetalDirection(m, ray, rec, sample), Reflect(ray.Direction(), rec.normal));
    assert e == Scale(k, sample);
    DotScale(k, sample, sample);
    DotSelf(sample);
    assert 0.0 <= k * k <= 1.0 by {
      MulNonneg(k, k);
      MulMonoLeft(k, k, 1.0);
    }
    MulMonoLeft(Dot(sample, sample), k * k, 1.0);
  }

  /** The refractive indices for which `Dielectric::scatter` divides by a non-zero number
      (`1 / refractionIdx` and the `1 + ratio` inside `schlick`). */
  predicate IndexDefined(idx: real) {
    idx != 0.0 && idx != -1.0
  }

  /** `refraction_ratio`: entering (direction against the normal) divides by the index,
      leaving uses it as is. */
  function RefractionRatio(d: Dielectric, ray: Ray, rec: HitRecord): (ratio: real)
    requires IndexDefined(d.refractionIdx)
    ensures Dot(ray.Direction(), rec.normal) < 0.0 ==> ratio * d.refractionIdx == 1.0
    ensures Dot(ray.Direction(), rec.normal) >= 0.0 ==> ratio == d.refractionIdx
    ensures ratio != -1.0
    ensures 0.0 < d.refractionIdx ==> 0.0 < ratio
  {
    if Dot(ray.Direction(), rec.normal) < 0.0 then 1.0 / d.refractionIdx else d.refractionIdx
  }

  /** `cos_theta`: the cosine between the reversed unit direction `u` and the normal,
      capped at one. */
  function CosTheta(u: Vec3, n: Vec3): real {
    var c := Dot(Neg(u), n);
    if c < 1.0 then c else 1.0
  }

  /** `sin_theta`. */
  function SinTheta(cosTheta: real, sqrt: real -> real): real {
    sqrt(1.0 - cosTheta * cosTheta)
  }

  /** `cannot_refract`: total internal reflection, or the coin says the Fresnel reflectance
      wins. As in the source, `||` consults the coin only when the first test fails. */
  predicate CannotRefract(ratio: real, cosTheta: real, coin: real, sqrt: real -> real)
    requires ratio != -1.0
  {
    ratio * SinTheta(cosTheta, sqrt) > 1.0 || Schlick(cosTheta, ratio) > coin
  }

  /** Refraction is chosen but `refract` finds no solution: the `unwrap` that panics. */
  predicate RefractionFails(u: Vec3, n: Vec3, ratio: real, coin: real, sqrt: real -> real)
    requires SqrtLaw(sqrt) && ratio != -1.0
  {
    !CannotRefract(ratio, CosTheta(u, n), coin, sqrt) && Refract(u, n, ratio, sqrt).None?
  }

  /** The critical angle exactly (`ratio * sin_theta == 1`) with the coin choosing refraction. */
  predicate AtCriticalAngle(u: Vec3, n: Vec3, ratio: real, coin: real, sqrt: real -> real)
    requires ratio != -1.0
  {
    ratio * SinTheta(CosTheta(u, n), sqrt) == 1.0 && Schlick(CosTheta(u, n), ratio) <= coin
  }

  /** `Dielectric::scatter`: reflect or refract the unit direction at the hit point, without
      attenuation. `coin` is the uniform number the source draws; the `unwrap` of a missing
      refraction is the one way this function panics. */
  function DielectricScatter(d: Dielectric, ray: Ray, rec: HitRecord, coin: real, sqrt: real -> real)
    : (s: Outcome<Scattered>)
    requires SqrtLaw(sqrt) && IndexDefined(d.refractionIdx)
    ensures var u, ratio := Normalize(ray.Direction(), sqrt), RefractionRatio(d, ray, rec);
      s.Panic? <==> RefractionFails(u, rec.normal, ratio, coin, sqrt)
    ensures s.Value? ==>
      (s.value.Some? && s.value.value.0.Some?
       && s.value.value.0.value.Origin() == rec.p && s.value.value.1 == Vec3(1.0, 1.0, 1.0))
    ensures var u, ratio := Normalize(ray.Direction(), sqrt), RefractionRatio(d, ray, rec);
      s.Value? ==>
        (s.value.value.0.value.Direction()
         == if CannotRefract(ratio, CosTheta(u, rec.normal), coin, sqrt) then Reflect(u, rec.normal)
            else Refract(u, rec.normal, ratio, sqrt).value)
  {
    var attenuation := Vec3(1.0, 1.0, 1.0);
    var ratio := RefractionRatio(d, ray, rec);
    var unitDirection := Normalize(ray.Direction(), sqrt);
    if CannotRefract(ratio, CosTheta(unitDirection, rec.normal), coin, sqrt) then
      var reflected := Reflect(unitDirection, rec.normal);
      Value(Some((Some(NewRay(rec.p, reflected)), attenuation)))
    else
      var direction := Refract(unitDirection, rec.normal, ratio, sqrt);
      if direction.None? then Panic else Value(Some((Some(NewRay(rec.p, direction.value)), attenuation)))
  }

  /** For a unit direction and a unit normal the cosine is exactly `-u·n`: the cap at one
      never changes it. */
  lemma UnitCosTheta(u: Vec3, n: Vec3)
    requires Dot(u, u) == 1.0 && Dot(n, n) == 1.0
    ensures CosTheta(u, n) == -Dot(u, n) && -1.0 <= CosTheta(u, n) <= 1.0
  {
    UnitCosine(u, n);
    DotNeg(u, n);
  }

  /** ... the sine lies in [0, 1] with `sin² = 1 - cos²` ... */
  lemma UnitSinTheta(u: Vec3, n: Vec3, sqrt: real -> real)
    requires SqrtLaw(sqrt) && Dot(u, u) == 1.0 && Dot(n, n) == 1.0
    ensures var c := CosTheta(u, n);
      0.0 <= SinTheta(c, sqrt) <= 1.0 && SinTheta(c, sqrt) * SinTheta(c, sqrt) == 1.0 - c * c
  {
    UnitCosTheta(u, n);
    SineOfCosine(sqrt, CosTheta(u, n));
  }

  /** ... and `refract` sees the discriminant `1 - (ratio * sin)²`. */
  lemma UnitDiscriminant(u: Vec3, n: Vec3, ratio: real, sqrt: real -> real)
    requires SqrtLaw(sqrt) && Dot(u, u) == 1.0 && Dot(n, n) == 1.0
    ensures RefractDiscriminant(u, n, ratio, sqrt)
         == 1.0 - (ratio * SinTheta(CosTheta(u, n), sqrt)) * (ratio * SinTheta(CosTheta(u, n), sqrt))
  {
    DiscriminantOfUnit(u, n, ratio, sqrt);
    SineForm(u, n, ratio, sqrt);
  }

  /** With `sin² = 1 - cos²`, the cosine form of the discriminant is its sine form. */
  lemma SineForm(u: Vec3, n: Vec3, ratio: real, sqrt: real -> real)
    requires SqrtLaw(sqrt) && Dot(u, u) == 1.0 && Dot(n, n) == 1.0
    ensures 1.0 - ratio * ratio * (1.0 - Dot(u, n) * Dot(u, n))
         == 1.0 - (ratio * SinTheta(CosTheta(u, n), sqrt)) * (ratio * SinTheta(CosTheta(u, n), sqrt))
  {
    UnitSinTheta(u, n, sqrt);
    UnitCosTheta(u, n);
    SquareOfNegation(CosTheta(u, n), Dot(u, n));
    ScaleProduct(ratio, SinTheta(CosTheta(u, n), sqrt), SinTheta(CosTheta(u, n), sqrt));
  }

  lemma SquareOfNegation(c: real, dt: real)
    requires c == -dt
    ensures c * c == dt * dt
  {
  }

  lemma DiscriminantOfUnit(u: Vec3, n: Vec3, ratio: real, sqrt: real -> real)
    requires SqrtLaw(sqrt) && Dot(u, u) == 1.0
    ensures RefractDiscriminant(u, n, ratio, sqrt) == 1.0 - ratio * ratio * (1.0 - Dot(u, n) * Dot(u, n))
  {
    NormalizeUnit(u, sqrt);
  }

  /** For a positive index, a unit normal and a non-zero direction, glass panics exactly at
      the critical angle (`ratio * sin_theta == 1`, where `refract`'s strict test fails but
      `cannot_refract` does not fire) when the coin also chooses refraction. */
  lemma DielectricPanicsOnlyAtCriticalAngle(d: Dielectric, ray: Ray, rec: HitRecord, coin: real,
                                            sqrt: real -> real)
    requires SqrtLaw(sqrt) && 0.0 < d.refractionIdx && IndexDefined(d.refractionIdx)
    requires ray.Direction() != Zero && Dot(rec.normal, rec.normal) == 1.0
    ensures DielectricScatter(d, ray, rec, coin, sqrt).Panic?
        <==> AtCriticalAngle(Normalize(ray.Direction(), sqrt), rec.normal, RefractionRatio(d, ray, rec), coin, sqrt)
  {
    DirectionPanicCondition(ray.Direction(), rec.normal, RefractionRatio(d, ray, rec), coin, sqrt);
  }

  /** The panic condition for the normalized direction of a non-zero vector. */
  lemma DirectionPanicCondition(v: Vec3, n: Vec3, ratio: real, coin: real, sqrt: real -> real)
    requires SqrtLaw(sqrt) && v != Zero && Dot(n, n) == 1.0 && 0.0 < ratio
    ensures RefractionFails(Normalize(v, sqrt), n, ratio, coin, sqrt)
        <==> AtCriticalAngle(Normalize(v, sqrt), n, ratio, coin, sqrt)
  {
    NormalizeIsUnit(v, sqrt);
    UnitPanicCondition(Normalize(v, sqrt), n, ratio, coin, sqrt);
  }

  /** The panic condition for a unit direction: refraction chosen but impossible happens
      only when `ratio * sin_theta` is exactly one. */
  lemma UnitPanicCondition(u: Vec3, n: Vec3, ratio: real, coin: real, sqrt: real -> real)
    requires SqrtLaw(sqrt) && Dot(u, u) == 1.0 && Dot(n, n) == 1.0 && 0.0 < ratio
    ensures RefractionFails(u, n, ratio, coin, sqrt) <==> AtCriticalAngle(u, n, ratio, coin, sqrt)
  {
    CriticalAtUnit(u, n, ratio, sqrt);
    RefractNoneAtUnit(u, n, ratio, sqrt);
    PanicLogic(ratio * SinTheta(CosTheta(u, n), sqrt), CannotRefract(ratio, CosTheta(u, n), coin, sqrt),
               Refract(u, n, ratio, sqrt).None?, Schlick(CosTheta(u, n), ratio) > coin,
               RefractionFails(u, n, ratio, coin, sqrt), AtCriticalAngle(u, n, ratio, coin, sqrt));
  }

  /** A non-negative `ratio * sin_theta` at most one with no positive discriminant is
      exactly one. */
  lemma CriticalAtUnit(u: Vec3, n: Vec3, ratio: real, sqrt: real -> real)
    requires SqrtLaw(sqrt) && Dot(u, u) == 1.0 && Dot(n, n) == 1.0 && 0.0 < ratio
    ensures var x := ratio * SinTheta(CosTheta(u, n), sqrt);
      (x <= 1.0 && 1.0 - x * x <= 0.0) <==> x == 1.0
  {
    RatioSineNonneg(u, n, ratio, sqrt);
    CriticalProduct(ratio * SinTheta(CosTheta(u, n), sqrt));
  }

  lemma RatioSineNonneg(u: Vec3, n: Vec3, ratio: real, sqrt: real -> real)
    requires SqrtLaw(sqrt) && Dot(u, u) == 1.0 && Dot(n, n) == 1.0 && 0.0 < ratio
    ensures 0.0 <= ratio * SinTheta(CosTheta(u, n), sqrt)
  {
    UnitSinTheta(u, n, sqrt);
    MulNonneg(ratio, SinTheta(CosTheta(u, n), sqrt));
  }

  lemma RefractNoneAtUnit(u: Vec3, n: Vec3, ratio: real, sqrt: real -> real)
    requires SqrtLaw(sqrt) && Dot(u, u) == 1.0 && Dot(n, n) == 1.0
    ensures var x := ratio * SinTheta(CosTheta(u, n), sqrt);
      Refract(u, n, ratio, sqrt).None? <==> 1.0 - x * x <= 0.0
  {
    UnitDiscriminant(u, n, ratio, sqrt);
  }

  lemma PanicLogic(x: real, cannot: bool, none: bool, fresnel: bool, fails: bool, critical: bool)
    requires cannot <==> x > 1.0 || fresnel
    requires none <==> 1.0 - x * x <= 0.0
    requires (x <= 1.0 && 1.0 - x * x <= 0.0) <==> x == 1.0
    requires fails <==> !cannot && none
    requires critical <==> x == 1.0 && !fresnel
    ensures fails <==> critical
  {
  }

  /** The panic is reachable: glass of index 0.6 entered by a unit direction at
      `cos_theta = 0.8` (for instance `(0.6, -0.8, 0)` through the normal `(0, 1, 0)`) has
      `sin_theta = 0.6` and ratio `5/3`, so `ratio * sin_theta` is exactly one; a coin of 0.5
      is above the Schlick reflectance and the `unwrap` of the missing refraction panics. */
  lemma DielectricPanicExample(ray: Ray, rec: HitRecord, sqrt: real -> real)
    requires SqrtLaw(sqrt)
    requires Dot(ray.Direction(), ray.Direction()) == 1.0 && Dot(rec.normal, rec.normal) == 1.0
    requires Dot(ray.Direction(), rec.normal) == -0.8
    ensures DielectricScatter(Dielectric.Dielectric(0.6), ray, rec, 0.5, sqrt).Panic?
  {
    assert ray.Direction() != Zero;
    NormalizeUnit(ray.Direction(), sqrt);
    DotNeg(ray.Direction(), rec.normal);
    assert CosTheta(ray.Direction(), rec.normal) == 0.8;
    ExampleAngles(CosTheta(ray.Direction(), rec.normal), RefractionRatio(Dielectric.Dielectric(0.6), ray, rec), sqrt);
    DielectricPanicsOnlyAtCriticalAngle(Dielectric.Dielectric(0.6), ray, rec, 0.5, sqrt);
  }

  lemma ExampleAngles(c: real, ratio: real, sqrt: real -> real)
    requires SqrtLaw(sqrt) && c == 0.8 && ratio * 0.6 == 1.0
    ensures ratio * SinTheta(c, sqrt) == 1.0 && Schlick(c, ratio) <= 0.5
  {
    SqrtAt(sqrt, 1.0 - 0.8 * 0.8, 0.6);
    assert ratio == 1.0 / 0.6;
    assert R0(1.0 / 0.6) == 0.0625;
  }

  lemma CriticalProduct(x: real)
    requires 0.0 <= x
    ensures (x <= 1.0 && 1.0 - x * x <= 0.0) <==> x == 1.0
  {
    if x < 1.0 {
      MulMonoLeft(x, x, 1.0);
    }
  }

  /** Glass never absorbs and, for a unit normal and a non-zero direction, always sends out
      a unit direction, whether it reflects or refracts. */
  lemma DielectricUnitDirection(d: Dielectric, ray: Ray, rec: HitRecord, coin: real, sqrt: real -> real)
    requires SqrtLaw(sqrt) && IndexDefined(d.refractionIdx)
    requires ray.Direction() != Zero && Dot(rec.normal, rec.normal) == 1.0
    requires DielectricScatter(d, ray, rec, coin, sqrt).Value?
    ensures var dir := DielectricScatter(d, ray, rec, coin, sqrt).value.value.0.value.Direction();
      Dot(dir, dir) == 1.0
  {
    var u := Normalize(ray.Direction(), sqrt);
    var k := NormalizeNonZero(ray.Direction(), sqrt);
    var ratio := RefractionRatio(d, ray, rec);
    if CannotRefract(ratio, CosTheta(u, rec.normal), coin, sqrt) {
      ReflectPreservesLength(u, rec.normal);
    } else {
      RefractUnitLength(u, rec.normal, ratio, sqrt);
    }
  }

  /** Glass of index one entered from outside lets the ray through unbent whenever the coin
      does not pick the (grazing-only) Schlick reflection. */
  lemma DielectricUnitIndexPassesThrough(d: Dielectric, ray: Ray, rec: HitRecord, coin: real,
                                         sqrt: real -> real)
    requires SqrtLaw(sqrt) && d.refractionIdx == 1.0
    requires ray.Direction() != Zero && Dot(rec.normal, rec.normal) == 1.0
    requires Dot(ray.Direction(), rec.normal) < 0.0
    requires Pow5(1.0 - CosTheta(Normalize(ray.Direction(), sqrt), rec.normal)) <= coin
    ensures DielectricScatter(d, ray, rec, coin, sqrt)
         == Value(Some((Some(Ray(rec.p, Normalize(ray.Direction(), sqrt))), Vec3(1.0, 1.0, 1.0))))
  {
    var u := Normalize(ray.Direction(), sqrt);
    var k := NormalizeNonZero(ray.Direction(), sqrt);
    assert RefractionRatio(d, ray, rec) == 1.0;
    UnitCosTheta(u, rec.normal);
    UnitSinTheta(u, rec.normal, sqrt);
    SchlickUnitRatio(CosTheta(u, rec.normal));
    assert !CannotRefract(1.0, CosTheta(u, rec.normal), coin, sqrt);
    EnteringStaysEntering(ray.Direction(), k, rec.normal);
    RefractUnitRatio(u, rec.normal, sqrt);
  }

  /** Because the normal is never turned towards the incoming ray, a ray inside a sphere
      of positive radius (or outside one of negative radius) has `direction·normal > 0`, a
      negative `cos_theta`, and a Schlick reflectance above one, so any coin below one
      makes it reflect. */
  lemma ExitAlwaysReflects(u: Vec3, n: Vec3, idx: real, coin: real, sqrt: real -> real)
    requires 0.0 < idx && Dot(u, n) > 0.0 && coin < 1.0
    ensures CosTheta(u, n) < 0.0
    ensures CannotRefract(idx, CosTheta(u, n), coin, sqrt)
  {
    DotNeg(u, n);
    SchlickAboveOne(CosTheta(u, n), idx);
  }

  /** Glass reflects every ray with `direction·normal > 0` whenever the coin is below one:
      such a ray is never refracted out. */
  lemma DielectricExitReflects(d: Dielectric, ray: Ray, rec: HitRecord, coin: real, sqrt: real -> real)
    requires SqrtLaw(sqrt) && 0.0 < d.refractionIdx && IndexDefined(d.refractionIdx)
    requires ray.Direction() != Zero && Dot(ray.Direction(), rec.normal) > 0.0 && coin < 1.0
    ensures DielectricScatter(d, ray, rec, coin, sqrt)
         == Value(Some((Some(Ray(rec.p, Reflect(Normalize(ray.Direction(), sqrt), rec.normal))),
                        Vec3(1.0, 1.0, 1.0))))
  {
    var k := NormalizeNonZero(ray.Direction(), sqrt);
    LeavingStaysLeaving(ray.Direction(), k, rec.normal);
    assert RefractionRatio(d, ray, rec) == d.refractionIdx;
    ExitAlwaysReflects(Normalize(ray.Direction(), sqrt), rec.normal, d.refractionIdx, coin, sqrt);
  }

  lemma LeavingStaysLeaving(v: Vec3, k: real, n: Vec3)
    requires 0.0 < k && Dot(v, n) > 0.0
    ensures Dot(Scale(k, v), n) > 0.0
  {
    DotScaleLeft(k, v, n);
    MulPositive(k, Dot(v, n));
  }

  lemma EnteringStaysEntering(v: Vec3, k: real, n: Vec3)
    requires 0.0 < k && Dot(v, n) < 0.0
    ensures Dot(Scale(k, v), n) < 0.0
  {
    DotScaleLeft(k, v, n);
  }

  /** Materials whose scattering is defined (only glass has divisions that can fail). */
  predicate MaterialDefined(m: Material) {
    m.Dielectric? ==> IndexDefined(m.dielectric.refractionIdx)
  }

  /** `Scatterable::scatter` for `Material`: dispatch to the variant. Only glass can panic,
      only metal can absorb, every scattered ray starts at the hit point, and the
      attenuation is the variant's albedo (white for glass). */
  function Scatter(m: Material, ray: Ray, rec: HitRecord, draw: Draw, sqrt: real -> real)
    : (s: Outcome<Scattered>)
    requires SqrtLaw(sqrt) && MaterialDefined(m)
    ensures s.Panic? ==> m.Dielectric?
    ensures s.Value? && s.value.None? ==> m.Metal?
    ensures s.Value? && s.value.Some? ==>
      s.value.value.0.Some? && s.value.value.0.value.Origin() == rec.p
      && s.value.value.1 == match m
                              case Lambertian(l) => l.albedo
                              case Metal(mm) => mm.albedo
                              case Dielectric(_) => Vec3(1.0, 1.0, 1.0)
  {
    match m
    case Lambertian(l) => Value(LambertianScatter(l, ray, rec, draw.inSphere))
    case Metal(mm) => Value(MetalScatter(mm, ray, rec, draw.inSphere))
    case Dielectric(dd) => DielectricScatter(dd, ray, rec, draw.uniform, sqrt)
  }
}
