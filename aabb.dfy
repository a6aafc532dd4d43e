// aabb.h: axis-aligned bounding boxes, their union and the slab test.
module Aabbs {
  import opened Optional
  import opened Vectors
  import opened Rays

  /** ffmin: the smaller argument, `b` on a tie. */
  function FFMin(a: real, b: real): (r: real)
    ensures r == a || r == b
    ensures r <= a && r <= b
  {
    if a < b then a else b
  }

  /** ffmax: the larger argument, `b` on a tie. */
  function FFMax(a: real, b: real): (r: real)
    ensures r == a || r == b
    ensures r >= a && r >= b
  {
    if a > b then a else b
  }

  datatype AABB = AABB(min: Vector3, max: Vector3)

  /** The value of a default-constructed AABB, whose corners C++ leaves
      uninitialised; the model fixes them to the origin. */
  const Unset := AABB(Zero, Zero)

  /** min <= max on every axis. */
  predicate Valid(b: AABB) {
    b.min.x <= b.max.x && b.min.y <= b.max.y && b.min.z <= b.max.z
  }

  /** `outer` encloses `inner`. */
  predicate Contains(outer: AABB, inner: AABB) {
    outer.min.x <= inner.min.x && outer.min.y <= inner.min.y && outer.min.z <= inner.min.z &&
    inner.max.x <= outer.max.x && inner.max.y <= outer.max.y && inner.max.z <= outer.max.z
  }

  /** Point `p` lies in the closed box. */
  predicate Inside(b: AABB, p: Vector3) {
    forall c :: 0 <= c < 3 ==> At(b.min, c) <= At(p, c) <= At(b.max, c)
  }

  /** Point `p` lies in the open box. */
  predicate StrictlyInside(b: AABB, p: Vector3) {
    forall c :: 0 <= c < 3 ==> At(b.min, c) < At(p, c) < At(b.max, c)
  }

  /** surrounding_box (surroundingBox at its call sites): the componentwise min of the
      mins and max of the maxes. std::fmin/fmax agree with ffmin/ffmax on reals.
      The result is the least box enclosing both arguments. */
  function SurroundingBox(b0: AABB, b1: AABB): (r: AABB)
    ensures Contains(r, b0) && Contains(r, b1)
    ensures forall c :: Contains(c, b0) && Contains(c, b1) ==> Contains(c, r)
    ensures Valid(b0) && Valid(b1) ==> Valid(r)
  {
    AABB(Vector3(FFMin(b0.min.x, b1.min.x), FFMin(b0.min.y, b1.min.y), FFMin(b0.min.z, b1.min.z)),
         Vector3(FFMax(b0.max.x, b1.max.x), FFMax(b0.max.y, b1.max.y), FFMax(b0.max.z, b1.max.z)))
  }

  lemma SurroundingCommutative(b0: AABB, b1: AABB)
    ensures SurroundingBox(b0, b1) == SurroundingBox(b1, b0)
  {
  }

  lemma SurroundingAssociative(b0: AABB, b1: AABB, b2: AABB)
    ensures SurroundingBox(SurroundingBox(b0, b1), b2) == SurroundingBox(b0, SurroundingBox(b1, b2))
  {
  }

  lemma SurroundingIdempotent(b: AABB)
    ensures SurroundingBox(b, b) == b
  {
  }

  /** One iteration of the loop of AABB::hit, on the axis whose box bounds are
      [lo, hi], with origin coordinate `o` and direction coordinate `d`, narrowing
      the window (tmin, tmax). None is the early `return false`.
      For d == 0 the source divides by zero in IEEE arithmetic: a zero numerator gives
      NaN, any other gives an infinity of the numerator's sign times the sign of
      the zero. Working through ffmin/ffmax (every comparison with NaN is false), the
      window is left as it is when hi - o == 0 or lo - o and hi - o have opposite signs,
      whatever the sign of the zero; otherwise both ends become the same infinity and
      the test fails. */
  function Slab(lo: real, hi: real, o: real, d: real, tmin: real, tmax: real): (w: Option<(real, real)>)
    ensures w.Some? ==> tmin <= w.value.0 < w.value.1 <= tmax
  {
    if d != 0.0 then
      var t0 := FFMin((lo - o) / d, (hi - o) / d);
      var t1 := FFMax((lo - o) / d, (hi - o) / d);
      var nmin := FFMax(t0, tmin);
      var nmax := FFMin(t1, tmax);
      if nmax <= nmin then None else Some((nmin, nmax))
    else if hi - o == 0.0 || (lo - o < 0.0 && hi - o > 0.0) || (lo - o > 0.0 && hi - o < 0.0) then
      if tmax <= tmin then None else Some((tmin, tmax))
    else
      None
  }

  /** The loop of AABB::hit from axis `a` on, with the window (tmin, tmax) reached so
      far; Some(window) when the loop runs to the end. Over the axes the window's lower
      end never decreases and its upper end never increases, and once at least one
      axis has narrowed it, it is nonempty. */
  function SlabsFrom(b: AABB, r: Ray, a: nat, tmin: real, tmax: real): (w: Option<(real, real)>)
    requires a <= 3
    ensures w.Some? ==> tmin <= w.value.0 && w.value.1 <= tmax
    ensures a < 3 && w.Some? ==> w.value.0 < w.value.1
    decreases 3 - a
  {
    if a == 3 then Some((tmin, tmax))
    else
      match Slab(At(b.min, a), At(b.max, a), At(r.origin, a), At(r.direction, a), tmin, tmax)
      case None => None
      case Some(nw) => SlabsFrom(b, r, a + 1, nw.0, nw.1)
  }

  /** AABB::hit: the loop over the three axes, narrowing the window step by step. */
  method Hit(b: AABB, r: Ray, tmin: real, tmax: real) returns (hit: bool)
    ensures hit == SlabsFrom(b, r, 0, tmin, tmax).Some?
  {
    var near, far := tmin, tmax;
    for a := 0 to 3
      invariant SlabsFrom(b, r, 0, tmin, tmax) == SlabsFrom(b, r, a, near, far)
    {
      var d := At(r.direction, a);
      var lo, hi := At(b.min, a) - At(r.origin, a), At(b.max, a) - At(r.origin, a);
      if d != 0.0 {
        var t0 := FFMin(lo / d, hi / d);
        var t1 := FFMax(lo / d, hi / d);
        near := FFMax(t0, near);
        far := FFMin(t1, far);
      } else if !(hi == 0.0 || (lo < 0.0 && hi > 0.0) || (lo > 0.0 && hi < 0.0)) {
        // both ends of the axis interval are the same infinity
        return false;
      }
      if far <= near {
        return false;
      }
    }
    hit := true;
  }

  /** Comparing a quotient with t is comparing the numerator with t * d, the
      inequality turning round when d is negative. */
  lemma DivCompare(x: real, d: real, t: real)
    requires d != 0.0
    ensures d > 0.0 ==> (x / d < t <==> x < t * d) && (t < x / d <==> t * d < x)
    ensures d < 0.0 ==> (x / d < t <==> t * d < x) && (t < x / d <==> x < t * d)
  {
    var q := x / d;
    assert q * d == x;
    assert (q - t) * d == x - t * d;
  }

  lemma PointAt(r: Ray, t: real, c: int)
    requires 0 <= c < 3
    ensures At(PointAtParameter(r, t), c) == At(r.origin, c) + t * At(r.direction, c)
  {
  }

  /** A point of the ray at a parameter strictly inside the window it leaves
      lies in the slab [lo, hi] (strictly, unless the direction is 0 along it). */
  lemma SlabSound(lo: real, hi: real, o: real, d: real, tmin: real, tmax: real, t: real)
    requires lo <= hi
    requires Slab(lo, hi, o, d, tmin, tmax).Some?
    requires Slab(lo, hi, o, d, tmin, tmax).value.0 < t < Slab(lo, hi, o, d, tmin, tmax).value.1
    ensures lo <= o + t * d <= hi
  {
    if d != 0.0 {
      DivCompare(lo - o, d, t);
      DivCompare(hi - o, d, t);
    }
  }

  /** A parameter in (tmin, tmax) at which the ray is strictly inside the slab
      stays inside the window the slab leaves. */
  lemma SlabComplete(lo: real, hi: real, o: real, d: real, tmin: real, tmax: real, t: real)
    requires lo < o + t * d < hi
    requires tmin < t < tmax
    ensures Slab(lo, hi, o, d, tmin, tmax).Some?
    ensures Slab(lo, hi, o, d, tmin, tmax).value.0 < t < Slab(lo, hi, o, d, tmin, tmax).value.1
  {
    if d != 0.0 {
      DivCompare(lo - o, d, t);
      DivCompare(hi - o, d, t);
    }
  }

  lemma ValidAt(b: AABB, c: int)
    requires Valid(b) && 0 <= c < 3
    ensures At(b.min, c) <= At(b.max, c)
  {
  }

  /** The ray is in the slab of axis `a` at every parameter strictly inside the
      window that axis leaves. */
  lemma AxisSound(b: AABB, r: Ray, a: nat, tmin: real, tmax: real, t: real)
    requires a < 3 && Valid(b)
    requires Slab(At(b.min, a), At(b.max, a), At(r.origin, a), At(r.direction, a), tmin, tmax).Some?
    requires var w := Slab(At(b.min, a), At(b.max, a), At(r.origin, a), At(r.direction, a), tmin, tmax);
      w.value.0 < t < w.value.1
    ensures At(b.min, a) <= At(PointAtParameter(r, t), a) <= At(b.max, a)
  {
    ValidAt(b, a);
    SlabSound(At(b.min, a), At(b.max, a), At(r.origin, a), At(r.direction, a), tmin, tmax, t);
    PointAt(r, t, a);
  }

  /** The first axis of the loop from `a` on leaves a window enclosing the final one. */
  lemma SlabsStep(b: AABB, r: Ray, a: nat, tmin: real, tmax: real, t: real)
    requires a < 3
    requires SlabsFrom(b, r, a, tmin, tmax).Some?
    requires SlabsFrom(b, r, a, tmin, tmax).value.0 < t < SlabsFrom(b, r, a, tmin, tmax).value.1
    ensures Slab(At(b.min, a), At(b.max, a), At(r.origin, a), At(r.direction, a), tmin, tmax).Some?
    ensures var w := Slab(At(b.min, a), At(b.max, a), At(r.origin, a), At(r.direction, a), tmin, tmax);
      w.value.0 < t < w.value.1 && SlabsFrom(b, r, a + 1, w.value.0, w.value.1) == SlabsFrom(b, r, a, tmin, tmax)
  {
  }

  lemma {:induction false} SlabsSound(b: AABB, r: Ray, a: nat, tmin: real, tmax: real, t: real)
    requires a <= 3 && Valid(b)
    requires SlabsFrom(b, r, a, tmin, tmax).Some?
    requires SlabsFrom(b, r, a, tmin, tmax).value.0 < t < SlabsFrom(b, r, a, tmin, tmax).value.1
    ensures forall c :: a <= c < 3 ==> At(b.min, c) <= At(PointAtParameter(r, t), c) <= At(b.max, c)
    decreases 3 - a
  {
    if a < 3 {
      SlabsStep(b, r, a, tmin, tmax, t);
      AxisSound(b, r, a, tmin, tmax, t);
      var w := Slab(At(b.min, a), At(b.max, a), At(r.origin, a), At(r.direction, a), tmin, tmax);
      SlabsSound(b, r, a + 1, w.value.0, w.value.1, t);
    }
  }

  /** A parameter at which the ray is strictly inside the slab of axis `a` stays
      inside the window that axis leaves. */
  lemma AxisComplete(b: AABB, r: Ray, a: nat, tmin: real, tmax: real, t: real)
    requires a < 3
    requires At(b.min, a) < At(PointAtParameter(r, t), a) < At(b.max, a)
    requires tmin < t < tmax
    ensures Slab(At(b.min, a), At(b.max, a), At(r.origin, a), At(r.direction, a), tmin, tmax).Some?
    ensures var w := Slab(At(b.min, a), At(b.max, a), At(r.origin, a), At(r.direction, a), tmin, tmax);
      w.value.0 < t < w.value.1
  {
    PointAt(r, t, a);
    SlabComplete(At(b.min, a), At(b.max, a), At(r.origin, a), At(r.direction, a), tmin, tmax, t);
  }

  /** One unfolding of the loop when axis `a` leaves a window. */
  lemma SlabsUnfold(b: AABB, r: Ray, a: nat, tmin: real, tmax: real)
    requires a < 3
    requires Slab(At(b.min, a), At(b.max, a), At(r.origin, a), At(r.direction, a), tmin, tmax).Some?
    ensures var w := Slab(At(b.min, a), At(b.max, a), At(r.origin, a), At(r.direction, a), tmin, tmax);
      SlabsFrom(b, r, a, tmin, tmax) == SlabsFrom(b, r, a + 1, w.value.0, w.value.1)
  {
  }

  lemma {:induction false} SlabsComplete(b: AABB, r: Ray, a: nat, tmin: real, tmax: real, t: real)
    requires a <= 3
    requires forall c :: a <= c < 3 ==> At(b.min, c) < At(PointAtParameter(r, t), c) < At(b.max, c)
    requires tmin < t < tmax
    ensures SlabsFrom(b, r, a, tmin, tmax).Some?
    ensures SlabsFrom(b, r, a, tmin, tmax).value.0 < t < SlabsFrom(b, r, a, tmin, tmax).value.1
    decreases 3 - a
  {
    if a < 3 {
      AxisComplete(b, r, a, tmin, tmax, t);
      SlabsUnfold(b, r, a, tmin, tmax);
      var w := Slab(At(b.min, a), At(b.max, a), At(r.origin, a), At(r.direction, a), tmin, tmax);
      SlabsComplete(b, r, a + 1, w.value.0, w.value.1, t);
    }
  }

  /** When AABB::hit succeeds on a valid box, the ray is inside the box at every
      parameter strictly inside the final window, and that window lies in (tmin, tmax). */
  lemma HitSound(b: AABB, r: Ray, tmin: real, tmax: real, t: real)
    requires Valid(b)
    requires SlabsFrom(b, r, 0, tmin, tmax).Some?
    requires SlabsFrom(b, r, 0, tmin, tmax).value.0 < t < SlabsFrom(b, r, 0, tmin, tmax).value.1
    ensures tmin < t < tmax
    ensures Inside(b, PointAtParameter(r, t))
  {
    SlabsSound(b, r, 0, tmin, tmax, t);
  }

  /** AABB::hit never prunes a ray that is strictly inside the box at some parameter
      in (tmin, tmax), whatever the ray's direction (zero components included). */
  lemma HitComplete(b: AABB, r: Ray, tmin: real, tmax: real, t: real)
    requires StrictlyInside(b, PointAtParameter(r, t))
    requires tmin < t < tmax
    ensures SlabsFrom(b, r, 0, tmin, tmax).Some?
  {
    SlabsComplete(b, r, 0, tmin, tmax, t);
  }
}
