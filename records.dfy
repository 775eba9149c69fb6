/** The values that `src/material.rs`, `src/sphere.rs` and `src/hittable.rs` pass among
    themselves. In the source these three files refer to each other (a hit record holds a
    reference to a material, material scattering reads a hit record), so the shared types
    live here, ahead of the operations on them. */
module Records {
  import opened Vectors

  /** `struct Lambertian`: a diffuse surface reflecting the fraction `albedo` per channel. */
  datatype Lambertian = Lambertian(albedo: Vec3)

  /** `struct Metal`: a specular surface; `fuzz` blurs the mirror reflection. */
  datatype Metal = Metal(albedo: Vec3, fuzz: real)

  /** `struct Dielectric`: a clear refracting medium of index `refractionIdx`. */
  datatype Dielectric = Dielectric(refractionIdx: real)

  /** `enum Material`: the closed set of surface behaviours. Its variants share their names
      with the structs, as in Rust, so they are written `Material.Lambertian(..)`. */
  datatype Material =
    | Lambertian(lambertian: Lambertian)
    | Metal(metal: Metal)
    | Dielectric(dielectric: Dielectric)

  /** `struct hit_record`: where a ray met a surface. The source borrows the surface's
      material; the model stores the material value itself. */
  datatype HitRecord = HitRecord(t: real, p: Vec3, normal: Vec3, material: Material)
}
