# Path tracer scattering core in Dafny

This project models the core of a small Rust path tracer (`ray-tracing-rust-test`): rays,
spheres and their ray intersection, the search for the nearest hit in a world of spheres,
the three materials (diffuse `Lambertian`, fuzzy `Metal`, glass `Dielectric`) with their
`scatter` rules, the helper functions `reflect`, `refract`, `schlick` and
`random_in_unit_sphere`, and the recursive `color` function that follows a ray for up to
`MAX_DEPTH` bounces.

Vectors are `Vec3` values over exact reals (`vectors.dfy`). Square root is a parameter
`sqrt: real -> real` that every member demanding it constrains by `SqrtLaw` (non-negative
and squares back on non-negative arguments). `normalize` is defined from it.

Module layout, one per Rust file:

- `Rays` (`ray.rs`).
- `Utils` (`utils.rs`). `random_in_unit_sphere` is a method with the source's loop, over a
  supplied stream of uniform draws.
- `Spheres` (`sphere.rs`).
- `Records` holds the material structs, the `Material` enum and `hit_record`, breaking
  the import cycle between `sphere.rs`, `hittable.rs` and `material.rs`.
- `Hittable` (`hittable.rs`). `hit_world` is a method with the source's loop, proved equal
  to the recursive specification `NearestHit`.
- `Materials` (`material.rs`).
- `Render` (`main.rs`, only `color` and `MAX_DEPTH`).
- `Wrappers` (`Option`, and `Outcome`, which adds `Panic` for the `unwrap` in
  `Dielectric::scatter`).
- `RealArith` and `Vectors`: arithmetic helpers.

Behaviour kept as coded:

- A ray that grazes a sphere (discriminant exactly zero) misses it.
- `color` searches the window `(0, f32::MAX)` with `t_min = 0`.
- The rejection loop of `random_in_unit_sphere` exits when `p·p >= 1`, so it returns
  points *outside* the open unit ball. `LambertianMayScatterInward` shows a diffuse bounce
  that this lets go below the surface.
- The sphere normal `(p - center) / radius` is never flipped to face the incoming ray, so
  `refraction_ratio` decides entering or leaving from the sign of `direction·normal`. The
  normal points outward for a positive radius and inward for a negative one.
- A ray whose direction has a positive dot product with the normal leaves glass of positive
  index by reflection for every coin in [0, 1), the range of `rng.gen`: `cos_theta` is then negative, so Schlick's
  reflectance exceeds one and `cannot_refract` holds (`ExitAlwaysReflects`,
  `DielectricExitReflects`). So no ray ever leaves a glass sphere of positive radius, and a
  glass sphere of negative radius reflects every ray arriving from outside. This is why
  `DielectricUnitIndexPassesThrough` covers only entering rays.
- `Dielectric::scatter` panics when refraction is chosen but impossible.
  `DielectricPanicsOnlyAtCriticalAngle` shows this happens exactly when
  `ratio * sin_theta == 1` and the coin is at least the Schlick reflectance.
  `DielectricPanicExample` shows that it happens.

## Model

| member | source | states |
|---|---|---|
| Rays.Ray.PointAtParameter | src/ray.rs:17-19 | definition: the point `a + t b` |
| Rays.NewRay | src/ray.rs:8-16 | the constructed ray's origin and direction accessors return the two arguments |
| Rays.PointAtZero | src/ray.rs:17-19 | the point at parameter 0 is the origin |
| Rays.PointAtAffine | src/ray.rs:17-19 | advancing the parameter by t moves the point by t times the direction |
| Rays.PointAtDisplacement | src/ray.rs:17-19 | the vector between the points at s and t is (t - s) times the direction |
| Utils.Reflect | src/utils.rs:22-24 | definition: `v - 2 (v·n) n` |
| Utils.ReflectAgainstNormal | src/utils.rs:22-24 | for a unit normal, reflection negates the component along the normal |
| Utils.ReflectPreservesLength | src/utils.rs:22-24 | for a unit normal, reflection preserves length |
| Utils.ReflectInvolution | src/utils.rs:22-24 | for a unit normal, reflecting twice gives back the original vector |
| Utils.Refract | src/utils.rs:26-35 | a refracted direction exists exactly when the discriminant `1 - ratio²(1 - dt²)` is positive |
| Utils.DiscriminantAtUnitRatio | src/utils.rs:27-29 | at ratio 1 for a unit entering direction the discriminant is `dt²`, positive, with root `-dt` |
| Utils.RefractUnitRatio | src/utils.rs:26-31 | at ratio 1 a unit direction entering against the normal passes through unbent |
| Utils.RefractUnitLength | src/utils.rs:26-34 | for unit direction and unit normal, every refracted direction is a unit vector |
| Utils.R0 | src/utils.rs:38 | definition: the base reflectance `((1 - ridx) / (1 + ridx))²` |
| Utils.Schlick | src/utils.rs:37-39 | definition: `r0 + (1 - r0)(1 - cosine)^5` |
| Utils.SchlickNormalIncidence | src/utils.rs:37-40 | at cosine 1 the reflectance is the base reflectance r0 |
| Utils.SchlickUnitRatio | src/utils.rs:37-40 | at index ratio 1, r0 is zero and the reflectance is `(1 - cos)^5` |
| Utils.SchlickBounds | src/utils.rs:37-40 | for a positive ratio and a cosine in [0, 1], 0 <= r0 < 1 and the reflectance lies in [r0, 1] |
| Utils.SchlickAboveOne | src/utils.rs:37-39 | for a positive ratio and a negative cosine the reflectance exceeds 1 |
| Utils.Candidate | src/utils.rs:11-14 | definition: the k-th candidate `2(x, y, z) - (1, 1, 1)` from three consecutive draws |
| Utils.Accepted | src/utils.rs:15 | definition: the exit test `p·p >= 1` |
| Utils.RandomInUnitSphere | src/utils.rs:6-20 | returns the first candidate `2(x,y,z) - (1,1,1)` with `p·p >= 1`, all earlier candidates rejected; None only when the stream is exhausted with every candidate rejected; with draws in [0, 1) each coordinate lies in [-1, 1) |
| Spheres.NewSphere | src/sphere.rs:12-18 | the sphere holds the given center, radius and material |
| Spheres.DeltaPositive | src/sphere.rs:23-29 | a positive discriminant forces a non-zero direction and a non-zero radius, so the divisions in `hit` are defined |
| Spheres.RecordAt | src/sphere.rs:36-43 | definition: the record at t, with point `ray(t)`, normal `(p - center) / radius` and the sphere's material |
| Spheres.Hit | src/sphere.rs:22-48 | no hit unless the discriminant is positive; a hit's t lies strictly inside the window and solves the ray-sphere quadratic; its point is on the ray and its normal is `(p - center)/radius` |
| Spheres.RootsAreRoots | src/sphere.rs:29-33 | both candidate roots solve the quadratic and r1 < r2 |
| Spheres.HitTriesRootsInOrder | src/sphere.rs:34-47 | r1 is returned when inside the window; otherwise r2 when inside; otherwise no hit |
| Spheres.HitRestrict | src/sphere.rs:34-47 | shrinking the window's upper end to t keeps the hit exactly when its t is below t, and there is no hit otherwise |
| Spheres.HitWindowMonotone | src/sphere.rs:34-47 | a sphere missed in a window is missed in every narrower window |
| Spheres.HitNormal | src/sphere.rs:36-37 | the normal of a hit is a unit vector and the hit point is at distance radius from the center along it |
| Spheres.HitHeadOn | src/sphere.rs:22-44 | a unit ray aimed at the center from distance dist outside the sphere hits at `dist - radius` with normal equal to minus the direction, facing the ray |
| Hittable.NearestHit | src/hittable.rs:17-32 | the nearest hit over the world lies strictly inside the window |
| Hittable.HitWorld | src/hittable.rs:17-32 | the loop over the spheres, narrowing `closest_so_far`, returns exactly `NearestHit` |
| Hittable.NearestHitNarrows | src/hittable.rs:25-29 | adding a sphere never loses a hit and never makes the nearest hit farther |
| Hittable.NearestHitNone | src/hittable.rs:23-31 | the world is missed exactly when every sphere is missed in the full window |
| Hittable.NearestHitIsNearest | src/hittable.rs:25-30 | no sphere has a hit strictly before the returned t |
| Hittable.NearestHitMinimal | src/hittable.rs:25-30 | every sphere either misses or hits no nearer than the returned t |
| Hittable.NearestHitSource | src/hittable.rs:25-30 | the returned record is some sphere's own hit in the full window, and every earlier sphere misses or hits strictly farther (ties go to the first) |
| Hittable.NearestHitMaterial | src/hittable.rs:26-28 | the returned record carries the material of a sphere of the world |
| Materials.NewLambertian | src/material.rs:36-38 | the material holds the given albedo |
| Materials.NewMetal | src/material.rs:58-61 | the albedo is kept and the fuzz is `min(f, 1)`: at most 1, at most f, and equal to one of them |
| Materials.LambertianScatter | src/material.rs:42-48 | always scatters, from the hit point, in direction `normal + sample`, attenuated by the albedo |
| Materials.LambertianAboveSurface | src/material.rs:42-45 | for a unit normal and a sample strictly inside the unit ball, the scattered direction points to the normal's side |
| Materials.LambertianMayScatterInward | src/material.rs:42-45 | a sample that the `>= 1` exit accepts can send the diffuse ray below the surface |
| Materials.MetalScatter | src/material.rs:65-74 | scatters exactly when `(reflected + fuzz·sample)·normal > 0`, then from the hit point in that direction with the albedo; otherwise absorbs |
| Materials.MetalMirror | src/material.rs:66-70 | with zero fuzz and a ray arriving against a unit normal, the ray is mirrored: same length, normal component negated |
| Materials.MetalAbsorbsFromBehind | src/material.rs:66-73 | with zero fuzz, a ray arriving from behind or along the surface is absorbed |
| Materials.MetalFuzzBounded | src/material.rs:58-67 | for f ≥ 0, after the clamp in `new`, the proposed direction is no farther from the mirror direction than the sample is from the origin |
| Materials.RefractionRatio | src/material.rs:85-89 | entering (`direction·normal < 0`) the ratio is the reciprocal of the index, otherwise the index; it is never -1 and is positive for a positive index |
| Materials.CosTheta | src/material.rs:91 | definition: `min(-u·n, 1)` |
| Materials.SinTheta | src/material.rs:92 | definition: `sqrt(1 - cos²)` |
| Materials.CannotRefract | src/material.rs:93-94 | definition: `ratio·sin_theta > 1`, or else Schlick's reflectance above the coin |
| Materials.RefractionFails | src/material.rs:93-102 | definition: `cannot_refract` is false and `refract` returns None, the case where the `unwrap` panics |
| Materials.AtCriticalAngle | src/material.rs:93-94 | definition: `ratio·sin_theta = 1` and Schlick's reflectance at most the coin |
| Materials.DielectricScatter | src/material.rs:82-105 | panics exactly when `cannot_refract` is false and `refract` returns None; otherwise scatters from the hit point with white attenuation, reflecting the unit direction when `cannot_refract` holds and refracting it otherwise |
| Materials.UnitCosTheta | src/material.rs:90-91 | for unit vectors, `cos_theta` is `-(u·n)` and lies in [-1, 1] (the `min(1)` never changes it) |
| Materials.UnitSinTheta | src/material.rs:92 | for unit vectors, `sin_theta` lies in [0, 1] and `sin² = 1 - cos²` |
| Materials.UnitDiscriminant | src/material.rs:91-101 | for unit vectors, `refract` sees the discriminant `1 - (ratio·sin_theta)²` |
| Materials.UnitPanicCondition | src/material.rs:93-102 | for unit vectors and a positive ratio, refraction is chosen but impossible exactly when `ratio·sin_theta = 1` and Schlick does not exceed the coin |
| Materials.DielectricPanicsOnlyAtCriticalAngle | src/material.rs:93-102 | for a positive index, unit normal and non-zero direction, the scatter panics exactly at `ratio·sin_theta = 1` with the coin at least the Schlick reflectance |
| Materials.DielectricPanicExample | src/material.rs:93-102 | glass of index 0.6, entered by a unit direction at cosine 0.8 with coin 0.5, panics |
| Materials.DielectricUnitDirection | src/material.rs:96-103 | for a unit normal and non-zero direction, every scattered direction, reflected or refracted, is a unit vector |
| Materials.ExitAlwaysReflects | src/material.rs:85-94 | for a positive index and `u·n > 0`, `cos_theta` is negative and `cannot_refract` holds for every coin below 1 |
| Materials.DielectricExitReflects | src/material.rs:85-99 | glass of positive index reflects every non-zero direction with `direction·normal > 0`: the result is the reflection of the unit direction from the hit point, white |
| Materials.DielectricUnitIndexPassesThrough | src/material.rs:85-103 | glass of index 1 entered from outside passes the normalized ray through unbent unless the coin picks the Schlick reflection |
| Materials.Scatter | src/material.rs:25-32 | only glass can panic and only metal can absorb; a scattered ray starts at the hit point with the variant's albedo (white for glass) |
| Render.Background | src/main.rs:30-42 | the sky colour blends white and `(0.5, 0.7, 1)` by `t = (unit_dir.y + 1)/2` in [0, 1]; z is 1, x in [0.5, 1], y in [0.7, 1] |
| Render.BackgroundOfUnit | src/main.rs:30-42 | a unit direction straight up gives `(0.5, 0.7, 1)`, straight down white, horizontal `(0.75, 0.85, 1)` |
| Render.Color | src/main.rs:20-43 | a ray that misses the world, or reaches `MAX_DEPTH = 50`, gets the background colour; a panic needs a glass sphere in the world |
| Render.ColorBounce | src/main.rs:23-28 | below the depth limit at a hit, the colour is the attenuation times the colour of the scattered ray, the background when the material absorbs, and a panic when scattering panics |
| Render.ColorInUnitCube | src/main.rs:22-43 | when every albedo lies in the unit cube, every colour does too |
| Render.ColorUsesBoundedDraws | src/main.rs:22-28 | the colour depends only on the first `MAX_DEPTH - depth` random draws |

## Left out

- `main` (image size, camera set-up, supersampling, threads, PPM output) and `camera.rs` are not part of this model.
- f32 arithmetic is exact real arithmetic: no rounding, NaN or infinity. `f32::MAX` is the exact real value of the largest f32.
- `sqrt` is a parameter constrained only on non-negative arguments. Where the source would take the root of a negative f32 and get NaN, the model's value is unconstrained.
- `normalize` of the zero vector is the zero vector in the model; glam returns NaN components.
- Random numbers are supplied: one `Draw` (a point for `random_in_unit_sphere` and a uniform coin) per bounce. `Color` takes a sequence of them.
- The coin of `Dielectric::scatter` is supplied even when `||` short-circuits and the source would not draw it.
- `Draw.inSphere` is not tied to `RandomInUnitSphere`; the lemmas about scattering state what they need of the sample.
- RandomInUnitSphere: works on a finite stream and returns None when it runs out, where the source loops until a candidate is accepted.
- Materials.DielectricScatter: requires an index other than 0 and -1. Index 0 makes the entering ratio `1 / 0`, and index -1 makes the ratio -1 either way, so `schlick`'s `1 + ratio` is zero; in f32 these give infinity or NaN rather than a defined result. A leaving ray at index 0 has ratio 0 and a defined result that the model does not cover.
- Render.Color: requires every glass sphere of the world to have a defined index, for the same reason.
- `hit_record` holds its material by value rather than by reference; the lifetimes are not modelled.
- The `Hittable` and `Scatterable` traits are plain functions dispatching on the datatype.
- glam operations are written out componentwise, and `powf(2.0)` and `powf(5.0)` as products.
- Materials.DielectricPanicsOnlyAtCriticalAngle: stated only for a positive index, a unit normal and a non-zero direction; other cases are not characterised.
