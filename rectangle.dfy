// rectangle.h: axis-aligned rectangles in the planes z = k (XYRect), y = k (XZRect)
// and x = k (YZRect). The three classes differ only in which axes they read, so
// one hit test serves all three, parameterised by the plane.
module Rectangles {
  import opened Optional
  import opened Vectors
  import opened Rays
  import opened Aabbs
  import opened Materials

  datatype Plane = XY | XZ | YZ

  /** A vector's coordinates seen from the plane: the first in-plane axis, the
      second in-plane axis and the normal axis. */
  function PlaneCoords(pl: Plane, v: Vector3): (real, real, real) {
    match pl
    case XY => (v.x, v.y, v.z)
    case XZ => (v.x, v.z, v.y)
    case YZ => (v.y, v.z, v.x)
  }

  /** The unit normal each class writes: (0,0,1), (0,1,0) and (1,0,0). */
  function PlaneNormal(pl: Plane): (n: Vector3)
    ensures PlaneCoords(pl, n) == (0.0, 0.0, 1.0)
  {
    match pl
    case XY => Vector3(0.0, 0.0, 1.0)
    case XZ => Vector3(0.0, 1.0, 0.0)
    case YZ => Vector3(1.0, 0.0, 0.0)
  }

  /** The plane coordinates of a point of the ray are affine in t. */
  lemma CoordsOfPoint(pl: Plane, r: Ray, t: real)
    ensures PlaneCoords(pl, PointAtParameter(r, t)).0 == PlaneCoords(pl, r.origin).0 + t * PlaneCoords(pl, r.direction).0
    ensures PlaneCoords(pl, PointAtParameter(r, t)).1 == PlaneCoords(pl, r.origin).1 + t * PlaneCoords(pl, r.direction).1
    ensures PlaneCoords(pl, PointAtParameter(r, t)).2 == PlaneCoords(pl, r.origin).2 + t * PlaneCoords(pl, r.direction).2
  {
  }

  /** The parameter at which the ray meets the plane: (k - o) / d on the normal axis. */
  function PlaneT(pl: Plane, k: real, r: Ray): real
    requires PlaneCoords(pl, r.direction).2 != 0.0
  {
    (k - PlaneCoords(pl, r.origin).2) / PlaneCoords(pl, r.direction).2
  }

  /** The point lies in the closed rectangle. */
  predicate InRect(pl: Plane, a0: real, a1: real, b0: real, b1: real, p: Vector3) {
    a0 <= PlaneCoords(pl, p).0 <= a1 && b0 <= PlaneCoords(pl, p).1 <= b1
  }

  /** The point at PlaneT lies on the plane. */
  lemma PointOnPlane(pl: Plane, k: real, r: Ray)
    requires PlaneCoords(pl, r.direction).2 != 0.0
    ensures PlaneCoords(pl, PointAtParameter(r, PlaneT(pl, k, r))).2 == k
  {
    var t := PlaneT(pl, k, r);
    CoordsOfPoint(pl, r, t);
    assert t * PlaneCoords(pl, r.direction).2 == k - PlaneCoords(pl, r.origin).2;
  }

  /** XYRect::hit, XZRect::hit and YZRect::hit. The model treats a direction
      parallel to the plane (a zero divisor) as a miss. The window [t0, t1] is
      closed and so are the rectangle's edges. The in-plane coordinates x, y that
      the source computes as o + t d are those of the point at t. */
  function RectHit(pl: Plane, a0: real, a1: real, b0: real, b1: real, k: real, mat: Material,
                   r: Ray, t0: real, t1: real): (h: Option<HitRecord>)
    requires a0 != a1 && b0 != b1
    ensures h.Some? <==>
      (PlaneCoords(pl, r.direction).2 != 0.0 && t0 <= PlaneT(pl, k, r) <= t1 &&
       InRect(pl, a0, a1, b0, b1, PointAtParameter(r, PlaneT(pl, k, r))))
    ensures h.Some? ==> h.value.t == PlaneT(pl, k, r) && t0 <= h.value.t <= t1
    ensures h.Some? ==> h.value.p == PointAtParameter(r, h.value.t)
    ensures h.Some? ==> PlaneCoords(pl, h.value.p).2 == k && InRect(pl, a0, a1, b0, b1, h.value.p)
    ensures h.Some? ==> h.value.normal == PlaneNormal(pl) && h.value.mat == mat
    ensures h.Some? ==> 0.0 <= h.value.u <= 1.0 && 0.0 <= h.value.v <= 1.0
  {
    if PlaneCoords(pl, r.direction).2 == 0.0 then None
    else
      var t := PlaneT(pl, k, r);
      if t < t0 || t > t1 then None
      else
        var p := PointAtParameter(r, t);
        var (x, y, _) := PlaneCoords(pl, p);
        if x < a0 || x > a1 || y < b0 || y > b1 then None
        else
          PointOnPlane(pl, k, r);
          UnitRatio(x - a0, a1 - a0);
          UnitRatio(y - b0, b1 - b0);
          Some(HitRecord(t, p, PlaneNormal(pl), mat, (x - a0) / (a1 - a0), (y - b0) / (b1 - b0)))
  }

  /** A part of a positive whole is a fraction in [0, 1]. */
  lemma UnitRatio(part: real, whole: real)
    requires whole != 0.0
    requires 0.0 <= part <= whole
    ensures 0.0 <= part / whole <= 1.0
  {
    assert part / whole * whole == part;
  }

  const Epsilon: real := 0.0001

  /** The boundingBox of each class, as written: XYRect's and XZRect's both read
      (a0, b0, k - 0.0001) to (a1, b1, k + 0.0001) in x, y, z order, and YZRect's
      reads (y0, y0, k - 0.0001) to (z1, z1, k + 0.0001). */
  function RectBox(pl: Plane, a0: real, a1: real, b0: real, b1: real, k: real): (b: AABB)
    ensures b.min.z == k - Epsilon && b.max.z == k + Epsilon
  {
    match pl
    case XY => AABB(Vector3(a0, b0, k - Epsilon), Vector3(a1, b1, k + Epsilon))
    case XZ => AABB(Vector3(a0, b0, k - Epsilon), Vector3(a1, b1, k + Epsilon))
    case YZ => AABB(Vector3(a0, a0, k - Epsilon), Vector3(b1, b1, k + Epsilon))
  }

  /** XYRect's box holds every point of the rectangle, so every hit point. */
  lemma XYBoxHoldsRect(a0: real, a1: real, b0: real, b1: real, k: real, p: Vector3)
    requires PlaneCoords(XY, p).2 == k && InRect(XY, a0, a1, b0, b1, p)
    ensures Inside(RectBox(XY, a0, a1, b0, b1, k), p)
  {
  }

  lemma XYHitInBox(a0: real, a1: real, b0: real, b1: real, k: real, mat: Material, r: Ray, t0: real, t1: real)
    requires a0 != a1 && b0 != b1
    requires RectHit(XY, a0, a1, b0, b1, k, mat, r, t0, t1).Some?
    ensures Inside(RectBox(XY, a0, a1, b0, b1, k), RectHit(XY, a0, a1, b0, b1, k, mat, r, t0, t1).value.p)
  {
    var p := RectHit(XY, a0, a1, b0, b1, k, mat, r, t0, t1).value.p;
    XYBoxHoldsRect(a0, a1, b0, b1, k, p);
  }

  /** XZRect's box misses the rectangle x, z in [0, 1] at y = 5: the box spans
      y in [0, 1] and z around 5, while the point (0.5, 5, 0.5) lies in the rectangle. */
  lemma XZBoxMissesItsRect()
    ensures InRect(XZ, 0.0, 1.0, 0.0, 1.0, Vector3(0.5, 5.0, 0.5))
    ensures !Inside(RectBox(XZ, 0.0, 1.0, 0.0, 1.0, 5.0), Vector3(0.5, 5.0, 0.5))
  {
    assert At(Vector3(0.5, 5.0, 0.5), 2) == 0.5;
  }

  /** YZRect's box misses the rectangle y, z in [0, 1] at x = 5 in the same way. */
  lemma YZBoxMissesItsRect()
    ensures InRect(YZ, 0.0, 1.0, 0.0, 1.0, Vector3(5.0, 0.5, 0.5))
    ensures !Inside(RectBox(YZ, 0.0, 1.0, 0.0, 1.0, 5.0), Vector3(5.0, 0.5, 0.5))
  {
    assert At(Vector3(5.0, 0.5, 0.5), 2) == 0.5;
  }
}
