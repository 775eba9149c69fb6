/** `src/main.rs`, the part that follows a ray through the scene: `MAX_DEPTH` and `color`. */
module Render {
  import opened RealArith
  import opened Vectors
  import opened Wrappers
  import opened Rays
  import opened Records
  import opened Spheres
  import opened Materials
  import opened Hittable

  /** The number of bounces after which `color` stops following a ray. */
  const MAX_DEPTH: int := 50

  /** `std::f32::MAX`, the upper end of the search window. */
  const F32_MAX: real := 340282346638528859811704183484516925440.0

  /** The sky: a blend from white (looking straight down) to light blue (straight up),
      driven by the height of the unit direction. */
  function Background(r: Ray, sqrt: real -> real): (c: Vec3)
    requires SqrtLaw(sqrt)
    ensures c.z == 1.0 && 0.5 <= c.x <= 1.0 && 0.7 <= c.y <= 1.0
    ensures var t := 0.5 * (Normalize(r.Direction(), sqrt).y + 1.0);
      0.0 <= t <= 1.0 && c == Vec3(1.0 - 0.5 * t, 1.0 - 0.3 * t, 1.0)
  {
    NormalizeBounds(r.Direction(), sqrt);
    var unitDir := Normalize(r.Direction(), sqrt);
    var t := 0.5 * (unitDir.y + 1.0);
    Add(Scale(1.0 - t, Vec3(1.0, 1.0, 1.0)), Scale(t, Vec3(0.5, 0.7, 1.0)))
  }

  /** For a unit direction the blend is driven by its height directly: looking straight up
      gives the full sky blue, straight down full white, and a level direction the halfway
      colour. */
  lemma BackgroundOfUnit(r: Ray, sqrt: real -> real)
    requires SqrtLaw(sqrt) && Dot(r.Direction(), r.Direction()) == 1.0
    ensures r.Direction().y == 1.0 ==> Background(r, sqrt) == Vec3(0.5, 0.7, 1.0)
    ensures r.Direction().y == -1.0 ==> Background(r, sqrt) == Vec3(1.0, 1.0, 1.0)
    ensures r.Direction().y == 0.0 ==> Background(r, sqrt) == Vec3(0.75, 0.85, 1.0)
  {
    NormalizeUnit(r.Direction(), sqrt);
  }

  /** Every material in the world has well-defined scattering. */
  predicate WorldDefined(world: seq<Sphere>) {
    forall i :: 0 <= i < |world| ==> MaterialDefined(world[i].material)
  }

  /** Some sphere of the world is glass. */
  predicate HasGlass(world: seq<Sphere>) {
    exists i :: 0 <= i < |world| && world[i].material.Dielectric?
  }

  /** `color`: the radiance seen along `r`. A hit below the depth limit scatters and
      multiplies the attenuation into the colour of the scattered ray; a miss, the depth
      limit or absorption shows the sky. `samples` holds one draw of randomness per
      bounce still allowed; a panic in glass ends the whole computation. */
  function Color(r: Ray, world: seq<Sphere>, depth: int, samples: seq<Draw>, sqrt: real -> real)
    : (c: Outcome<Vec3>)
    requires SqrtLaw(sqrt) && WorldDefined(world) && MAX_DEPTH - depth <= |samples|
    ensures NearestHit(world, r, 0.0, F32_MAX, sqrt).None? ==> c == Value(Background(r, sqrt))
    ensures MAX_DEPTH <= depth ==> c == Value(Background(r, sqrt))
    ensures c.Panic? ==> HasGlass(world)
    decreases MAX_DEPTH - depth
  {
    var hit := NearestHit(world, r, 0.0, F32_MAX, sqrt);
    if hit.Some? && depth < MAX_DEPTH then
      NearestHitMaterial(world, r, 0.0, F32_MAX, sqrt);
      match Scatter(hit.value.material, r, hit.value, samples[0], sqrt)
      case Panic => Panic
      case Value(Some((Some(scattered), attenuation))) =>
        var rest := Color(scattered, world, depth + 1, samples[1..], sqrt);
        if rest.Panic? then Panic else Value(Mul(attenuation, rest.value))
      case Value(_) => Value(Background(r, sqrt))
    else
      Value(Background(r, sqrt))
  }

  /** Below the depth limit a hit scatters with the first draw: the colour is the
      attenuation times the colour of the scattered ray (one level deeper, with the
      remaining draws), or the sky when the surface absorbs the ray. */
  lemma ColorBounce(r: Ray, world: seq<Sphere>, depth: int, samples: seq<Draw>, sqrt: real -> real)
    requires SqrtLaw(sqrt) && WorldDefined(world) && MAX_DEPTH - depth <= |samples|
    requires depth < MAX_DEPTH && NearestHit(world, r, 0.0, F32_MAX, sqrt).Some?
    ensures var h := NearestHit(world, r, 0.0, F32_MAX, sqrt).value;
      MaterialDefined(h.material)
      && var s := Scatter(h.material, r, h, samples[0], sqrt);
         (s.Value? && s.value.Some? && s.value.value.0.Some? ==>
            Color(r, world, depth, samples, sqrt)
            == var rest := Color(s.value.value.0.value, world, depth + 1, samples[1..], sqrt);
               if rest.Panic? then Panic else Value(Mul(s.value.value.1, rest.value)))
         && (s.Value? && (s.value.None? || s.value.value.0.None?) ==>
               Color(r, world, depth, samples, sqrt) == Value(Background(r, sqrt)))
         && (s.Panic? ==> Color(r, world, depth, samples, sqrt).Panic?)
  {
    NearestHitMaterial(world, r, 0.0, F32_MAX, sqrt);
  }

  predicate InUnitCube(v: Vec3) {
    0.0 <= v.x <= 1.0 && 0.0 <= v.y <= 1.0 && 0.0 <= v.z <= 1.0
  }

  /** The attenuation a material can give, for the materials that state one. */
  predicate AlbedoBounded(m: Material) {
    match m
    case Lambertian(l) => InUnitCube(l.albedo)
    case Metal(mm) => InUnitCube(mm.albedo)
    case Dielectric(_) => true
  }

  predicate WorldAlbedosBounded(world: seq<Sphere>) {
    forall i :: 0 <= i < |world| ==> AlbedoBounded(world[i].material)
  }

  /** With albedos in [0, 1], every colour `color` returns lies in the unit cube: the sky
      does, and each bounce multiplies by a factor in [0, 1]. */
  lemma {:induction false} ColorInUnitCube(r: Ray, world: seq<Sphere>, depth: int, samples: seq<Draw>,
                                           sqrt: real -> real)
    requires SqrtLaw(sqrt) && WorldDefined(world) && MAX_DEPTH - depth <= |samples|
    requires WorldAlbedosBounded(world)
    requires Color(r, world, depth, samples, sqrt).Value?
    ensures InUnitCube(Color(r, world, depth, samples, sqrt).value)
    decreases MAX_DEPTH - depth
  {
    var hit := NearestHit(world, r, 0.0, F32_MAX, sqrt);
    if hit.Some? && depth < MAX_DEPTH {
      NearestHitMaterial(world, r, 0.0, F32_MAX, sqrt);
      var m := hit.value.material;
      assert AlbedoBounded(m);
      var s := Scatter(m, r, hit.value, samples[0], sqrt);
      if s.Value? && s.value.Some? && s.value.value.0.Some? {
        var scattered, attenuation := s.value.value.0.value, s.value.value.1;
        assert InUnitCube(attenuation);
        ColorInUnitCube(scattered, world, depth + 1, samples[1..], sqrt);
        MulInUnitCube(attenuation, Color(scattered, world, depth + 1, samples[1..], sqrt).value);
      }
    }
  }

  lemma MulInUnitCube(a: Vec3, b: Vec3)
    requires InUnitCube(a) && InUnitCube(b)
    ensures InUnitCube(Mul(a, b))
  {
    UnitProduct(a.x, b.x);
    UnitProduct(a.y, b.y);
    UnitProduct(a.z, b.z);
  }

  lemma UnitProduct(a: real, b: real)
    requires 0.0 <= a <= 1.0 && 0.0 <= b <= 1.0
    ensures 0.0 <= a * b <= 1.0
  {
    MulNonneg(a, b);
    calc {
      a * b;
    <= { MulMonoLeft(a, b, 1.0); }
      a * 1.0;
    <=
      1.0;
    }
  }

  /** `color` reads only the draws for the bounces it may still take: two sample streams
      that agree on their first `MAX_DEPTH - depth` draws give the same colour. */
  lemma {:induction false} ColorUsesBoundedDraws(r: Ray, world: seq<Sphere>, depth: int,
                                                 samples: seq<Draw>, other: seq<Draw>, sqrt: real -> real)
    requires SqrtLaw(sqrt) && WorldDefined(world)
    requires MAX_DEPTH - depth <= |samples| && MAX_DEPTH - depth <= |other|
    requires forall k :: 0 <= k < MAX_DEPTH - depth ==> samples[k] == other[k]
    ensures Color(r, world, depth, samples, sqrt) == Color(r, world, depth, other, sqrt)
    decreases MAX_DEPTH - depth
  {
    var hit := NearestHit(world, r, 0.0, F32_MAX, sqrt);
    if hit.Some? && depth < MAX_DEPTH {
      ColorBounce(r, world, depth, samples, sqrt);
      ColorBounce(r, world, depth, other, sqrt);
      assert samples[0] == other[0];
      var s := Scatter(hit.value.material, r, hit.value, samples[0], sqrt);
      if s.Value? && s.value.Some? && s.value.value.0.Some? {
        assert forall k :: 0 <= k < MAX_DEPTH - (depth + 1) ==> samples[1..][k] == other[1..][k] by {
          forall k | 0 <= k < MAX_DEPTH - (depth + 1)
            ensures samples[1..][k] == other[1..][k]
          {
            assert samples[k + 1] == other[k + 1];
          }
        }
        ColorUsesBoundedDraws(s.value.value.0.value, world, depth + 1, samples[1..], other[1..], sqrt);
      }
    }
  }
}
