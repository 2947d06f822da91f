/** A ray: an origin and a (not necessarily unit) direction. */
module Rays {
  import opened Vectors

  datatype Ray = Ray(origin: Point3, direction: Vec3)

  /** `at(t)`: the point at parameter `t` along the ray. */
  function At(r: Ray, t: real): (p: Point3)
    ensures Sub(p, r.origin) == Scale(t, r.direction)
    ensures t == 0.0 ==> p == r.origin
  {
    Add(r.origin, Scale(t, r.direction))
  }

  /** The accessors return exactly what the constructor was given. */
  lemma AccessorsReturnArguments(origin: Point3, direction: Vec3)
    ensures Ray(origin, direction).origin == origin
    ensures Ray(origin, direction).direction == direction
  {
  }

  /** Evaluation is affine in the parameter. */
  lemma AtAffine(r: Ray, s: real, t: real)
    ensures At(r, s + t) == Add(At(r, s), Scale(t, r.direction))
  {
  }
}
