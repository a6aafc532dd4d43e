// sphere.h: the ray-sphere intersection of a fixed and of a moving sphere, and
// their bounding boxes.
module Spheres {
  import opened Optional
  import opened Vectors
  import opened Rays
  import opened Aabbs
  import opened Materials

  /** The quadratic that Sphere::hit solves: a t^2 + 2 b t + c = 0, with
      a = d.d, b = oc.d, c = oc.oc - radius^2 and oc = origin - center. */
  datatype Quadratic = Quadratic(a: real, b: real, c: real)

  function SphereQuadratic(center: Vector3, radius: real, r: Ray): Quadratic {
    var oc := Sub(r.origin, center);
    Quadratic(Dot(r.direction, r.direction), Dot(oc, r.direction), Dot(oc, oc) - radius * radius)
  }

  /** The discriminant b*b - a*c the hit tests first. */
  function Discriminant(q: Quadratic): real {
    q.b * q.b - q.a * q.c
  }

  /** The nearer root (-b - sqrt(disc)) / a, tried first. */
  function NearRoot(q: Quadratic, m: Math): real
    requires q.a != 0.0
  {
    (-q.b - m.sqrt(Discriminant(q))) / q.a
  }

  /** The farther root (-b + sqrt(disc)) / a, tried second. */
  function FarRoot(q: Quadratic, m: Math): real
    requires q.a != 0.0
  {
    (-q.b + m.sqrt(Discriminant(q))) / q.a
  }

  predicate InOpenWindow(t: real, tMin: real, tMax: real) {
    t < tMax && t > tMin
  }

  /** Which root the hit reports, if any: (t, true) for the nearer root, (t, false)
      for the farther one. In exact arithmetic a == 0 forces a zero direction and a
      zero discriminant, so the guard on `a` only rules out a division the source
      never reaches with a positive discriminant. */
  function RootInWindow(q: Quadratic, tMin: real, tMax: real, m: Math): (o: Option<(real, bool)>)
    ensures o.Some? ==> Discriminant(q) > 0.0 && q.a != 0.0 && InOpenWindow(o.value.0, tMin, tMax)
    ensures o.Some? && o.value.1 ==> o.value.0 == NearRoot(q, m)
    ensures o.Some? && !o.value.1 ==> o.value.0 == FarRoot(q, m) && !InOpenWindow(NearRoot(q, m), tMin, tMax)
    ensures Discriminant(q) > 0.0 && q.a != 0.0 ==>
      (o.Some? <==> InOpenWindow(NearRoot(q, m), tMin, tMax) || InOpenWindow(FarRoot(q, m), tMin, tMax))
    ensures Discriminant(q) <= 0.0 ==> o.None?
  {
    if Discriminant(q) > 0.0 && q.a != 0.0 then
      var near := NearRoot(q, m);
      if InOpenWindow(near, tMin, tMax) then Some((near, true))
      else
        var far := FarRoot(q, m);
        if InOpenWindow(far, tMin, tMax) then Some((far, false)) else None
    else
      None
  }

  /** Sphere::hit. A miss (None) leaves the caller's record untouched. The nearer
      root takes its (u, v) from the unit outward normal, the farther root from the
      hit point itself, as the source writes them. */
  function SphereHit(center: Vector3, radius: real, mat: Material, r: Ray, tMin: real, tMax: real, m: Math): (h: Option<HitRecord>)
    requires radius != 0.0
    ensures h.Some? <==> RootInWindow(SphereQuadratic(center, radius, r), tMin, tMax, m).Some?
    ensures h.Some? ==> h.value.t == RootInWindow(SphereQuadratic(center, radius, r), tMin, tMax, m).value.0
    ensures h.Some? ==> tMin < h.value.t < tMax
    ensures h.Some? ==> h.value.p == PointAtParameter(r, h.value.t)
    ensures h.Some? ==> h.value.normal == Div(Sub(h.value.p, center), radius)
    ensures h.Some? ==> h.value.mat == mat
    ensures h.Some? && RootInWindow(SphereQuadratic(center, radius, r), tMin, tMax, m).value.1 ==>
      (h.value.u, h.value.v) == m.sphereUV(h.value.normal)
    ensures h.Some? && !RootInWindow(SphereQuadratic(center, radius, r), tMin, tMax, m).value.1 ==>
      (h.value.u, h.value.v) == m.sphereUV(h.value.p)
  {
    match RootInWindow(SphereQuadratic(center, radius, r), tMin, tMax, m)
    case None => None
    case Some((t, near)) =>
      var p := PointAtParameter(r, t);
      var uv := if near then m.sphereUV(Div(Sub(p, center), radius)) else m.sphereUV(p);
      Some(HitRecord(t, p, Div(Sub(p, center), radius), mat, uv.0, uv.1))
  }

  /** Sphere::boundingBox: center -/+ (radius, radius, radius). */
  function SphereBox(center: Vector3, radius: real): (b: AABB)
    ensures b.min == Sub(center, Vector3(radius, radius, radius))
    ensures b.max == Add(center, Vector3(radius, radius, radius))
  {
    AABB(Sub(center, Vector3(radius, radius, radius)), Add(center, Vector3(radius, radius, radius)))
  }

  lemma MulPos(a: real, b: real)
    requires a > 0.0 && b > 0.0
    ensures a * b > 0.0
  {
    assert a * b > 0.0 * b;
  }

  /** A coordinate whose square is at most r^2 lies in [-r, r]: otherwise
      x^2 - r^2 = (x - r)(x + r) would be positive. */
  lemma SquareBound(x: real, r: real)
    requires r >= 0.0 && x * x <= r * r
    ensures -r <= x <= r
  {
    if x > r {
      MulPos(x - r, x + r);
    } else if x < -r {
      MulPos(-x - r, -x + r);
    }
  }

  lemma PartsBound(a: real, b: real, c: real, s: real)
    requires a >= 0.0 && b >= 0.0 && c >= 0.0 && a + b + c <= s
    ensures a <= s && b <= s && c <= s
  {
  }

  /** For a non-negative radius, every point of the sphere (and of the ball) lies in
      its box. */
  lemma SphereInBox(center: Vector3, radius: real, p: Vector3)
    requires radius >= 0.0
    requires SquaredLength(Sub(p, center)) <= radius * radius
    ensures Inside(SphereBox(center, radius), p)
  {
    var d := Sub(p, center);
    SquareNonNeg(d.x);
    SquareNonNeg(d.y);
    SquareNonNeg(d.z);
    PartsBound(d.x * d.x, d.y * d.y, d.z * d.z, radius * radius);
    SquareBound(d.x, radius);
    SquareBound(d.y, radius);
    SquareBound(d.z, radius);
  }

  /** movingSphere::center: linear interpolation from center0 at time0 to center1
      at time1. */
  function MovingCenter(center0: Vector3, center1: Vector3, time0: real, time1: real, time: real): Vector3
    requires time0 != time1
  {
    Add(center0, Scale((time - time0) / (time1 - time0), Sub(center1, center0)))
  }

  lemma MovingCenterAtTime0(center0: Vector3, center1: Vector3, time0: real, time1: real)
    requires time0 != time1
    ensures MovingCenter(center0, center1, time0, time1, time0) == center0
  {
  }

  lemma MovingCenterAtTime1(center0: Vector3, center1: Vector3, time0: real, time1: real)
    requires time0 != time1
    ensures MovingCenter(center0, center1, time0, time1, time1) == center1
  {
    assert (time1 - time0) / (time1 - time0) == 1.0;
  }

  /** movingSphere::hit: the sphere hit about the center at the ray's time. It never
      writes u and v, which keep the values of the caller's record `rec`. */
  function MovingSphereHit(center0: Vector3, center1: Vector3, time0: real, time1: real, radius: real, mat: Material,
                           r: Ray, tMin: real, tMax: real, rec: HitRecord, m: Math): (h: Option<HitRecord>)
    requires time0 != time1 && radius != 0.0
    ensures h.Some? <==> SphereHit(MovingCenter(center0, center1, time0, time1, r.time), radius, mat, r, tMin, tMax, m).Some?
    ensures h.Some? ==> tMin < h.value.t < tMax && h.value.mat == mat
    ensures h.Some? ==> h.value.t == SphereHit(MovingCenter(center0, center1, time0, time1, r.time), radius, mat, r, tMin, tMax, m).value.t
    ensures h.Some? ==> h.value.p == PointAtParameter(r, h.value.t)
    ensures h.Some? ==> h.value.normal == Div(Sub(h.value.p, MovingCenter(center0, center1, time0, time1, r.time)), radius)
    ensures h.Some? ==> h.value.u == rec.u && h.value.v == rec.v
  {
    var center := MovingCenter(center0, center1, time0, time1, r.time);
    match RootInWindow(SphereQuadratic(center, radius, r), tMin, tMax, m)
    case None => None
    case Some((t, _)) =>
      var p := PointAtParameter(r, t);
      Some(HitRecord(t, p, Div(Sub(p, center), radius), mat, rec.u, rec.v))
  }

  /** movingSphere::boundingBox: the box around the sphere's boxes at t0 and t1. */
  function MovingSphereBox(center0: Vector3, center1: Vector3, time0: real, time1: real, radius: real, t0: real, t1: real): (b: AABB)
    requires time0 != time1
    ensures Contains(b, SphereBox(MovingCenter(center0, center1, time0, time1, t0), radius))
    ensures Contains(b, SphereBox(MovingCenter(center0, center1, time0, time1, t1), radius))
    ensures forall c ::
      (Contains(c, SphereBox(MovingCenter(center0, center1, time0, time1, t0), radius)) &&
       Contains(c, SphereBox(MovingCenter(center0, center1, time0, time1, t1), radius))) ==> Contains(c, b)
  {
    SurroundingBox(SphereBox(MovingCenter(center0, center1, time0, time1, t0), radius),
                   SphereBox(MovingCenter(center0, center1, time0, time1, t1), radius))
  }

  /** Over the sphere's own time interval, the moving box encloses the sphere at its
      start and at its end position. */
  lemma MovingBoxEnclosesEnds(center0: Vector3, center1: Vector3, time0: real, time1: real, radius: real)
    requires time0 != time1
    ensures Contains(MovingSphereBox(center0, center1, time0, time1, radius, time0, time1), SphereBox(center0, radius))
    ensures Contains(MovingSphereBox(center0, center1, time0, time1, radius, time0, time1), SphereBox(center1, radius))
  {
    MovingCenterAtTime0(center0, center1, time0, time1);
    MovingCenterAtTime1(center0, center1, time0, time1);
  }
}
