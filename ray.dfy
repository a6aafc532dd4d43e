// ray.h: a ray is an origin, a direction and the time at which it is cast.
module Rays {
  import opened Vectors

  datatype Ray = Ray(origin: Vector3, direction: Vector3, time: real)

  /** The constructor Ray(a, b, ti = 0.0); the accessors origin(), direction() and
      time() are the datatype's destructors. */
  function NewRay(a: Vector3, b: Vector3, ti: real := 0.0): (r: Ray)
    ensures r.origin == a && r.direction == b && r.time == ti
  {
    Ray(a, b, ti)
  }

  function PointAtParameter(r: Ray, t: real): Vector3 {
    Add(r.origin, Scale(t, r.direction))
  }

  lemma DefaultTimeIsZero(a: Vector3, b: Vector3)
    ensures NewRay(a, b).time == 0.0
  {
  }

  lemma PointAtZeroIsOrigin(r: Ray)
    ensures PointAtParameter(r, 0.0) == r.origin
  {
  }

  /** pointAtParameter is affine in t. */
  lemma PointAtAffine(r: Ray, t: real, s: real)
    ensures PointAtParameter(r, t + s) == Add(PointAtParameter(r, t), Scale(s, r.direction))
  {
  }
}
