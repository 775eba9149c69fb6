/** `src/ray.rs`: a ray is an origin `a` and a direction `b`; it is never changed once built. */
module Rays {
  import opened Vectors

  datatype Ray = Ray(a: Vec3, b: Vec3) {

    function Origin(): Vec3 { a }

    function Direction(): Vec3 { b }

    /** The point reached after travelling `t` times the direction from the origin. */
    function PointAtParameter(t: real): Vec3 { Add(a, Scale(t, b)) }
  }

  /** `Ray::new`: the accessors give back exactly what was passed in. */
  function NewRay(a: Vec3, b: Vec3): (r: Ray)
    ensures r.Origin() == a && r.Direction() == b
  {
    Ray(a, b)
  }

  /** At parameter zero a ray is at its origin. */
  lemma PointAtZero(r: Ray)
    ensures r.PointAtParameter(0.0) == r.Origin()
  {
  }

  /** Evaluation is affine in the parameter: moving on by `t` adds `t` directions. */
  lemma PointAtAffine(r: Ray, s: real, t: real)
    ensures r.PointAtParameter(s + t) == Add(r.PointAtParameter(s), Scale(t, r.Direction()))
  {
  }

  /** Evaluation is linear in the parameter: equal steps give equal displacements. */
  lemma PointAtDisplacement(r: Ray, s: real, t: real)
    ensures Sub(r.PointAtParameter(t), r.PointAtParameter(s)) == Scale(t - s, r.Direction())
  {
  }
}
