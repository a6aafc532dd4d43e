// The rotation about the y axis of hitable.h (RotateY): the turn RotateY::hit
// applies to the ray and its inverse applied to the hit, and the box the
// constructor computes by turning the eight corners of the wrapped box.
module Rotations {
  import opened Vectors
  import opened Aabbs
  import opened Rays

  /** One turned coordinate: c*x + s*z. Both turns are made of it. */
  function Turn(x: real, z: real, s: real, c: real): real {
    c * x + s * z
  }

  /** The turn RotateY::hit applies to the incoming ray's origin and direction:
      (c*x - s*z, y, s*x + c*z). */
  function ToObject(v: Vector3, s: real, c: real): Vector3 {
    Vector3(Turn(v.x, v.z, -s, c), v.y, Turn(v.z, v.x, s, c))
  }

  /** The turn RotateY::hit applies to the hit point and normal, and the
      constructor to the corners of the box: (c*x + s*z, y, -s*x + c*z). */
  function ToWorld(v: Vector3, s: real, c: real): Vector3 {
    Vector3(Turn(v.x, v.z, s, c), v.y, Turn(v.z, v.x, -s, c))
  }

  /** s and c are the sine and cosine of one angle: s^2 + c^2 = 1. */
  predicate UnitPair(s: real, c: real) {
    s * s + c * c == 1.0
  }

  /** Turning back a turned pair of coordinates gives the pair. */
  lemma TurnBack(x: real, z: real, s: real, c: real)
    requires UnitPair(s, c)
    ensures Turn(Turn(x, z, -s, c), Turn(z, x, s, c), s, c) == x
    ensures Turn(Turn(z, x, s, c), Turn(x, z, -s, c), -s, c) == z
    ensures Turn(Turn(x, z, s, c), Turn(z, x, -s, c), -s, c) == x
    ensures Turn(Turn(z, x, -s, c), Turn(x, z, s, c), s, c) == z
  {
    assert (c * c + s * s) * x == x;
    assert (c * c + s * s) * z == z;
  }

  /** For the sine and cosine of one angle the two turns undo each other. */
  lemma RotationRoundTrip(v: Vector3, s: real, c: real)
    requires UnitPair(s, c)
    ensures ToWorld(ToObject(v, s, c), s, c) == v
    ensures ToObject(ToWorld(v, s, c), s, c) == v
  {
    TurnBack(v.x, v.z, s, c);
  }

  /** A turned pair of coordinates has the pair's squared length. */
  lemma TurnKeepsLength(x: real, z: real, s: real, c: real)
    requires UnitPair(s, c)
    ensures Turn(x, z, s, c) * Turn(x, z, s, c) + Turn(z, x, -s, c) * Turn(z, x, -s, c) == x * x + z * z
    ensures Turn(x, z, -s, c) * Turn(x, z, -s, c) + Turn(z, x, s, c) * Turn(z, x, s, c) == x * x + z * z
  {
    assert (c * c + s * s) * (x * x) == x * x;
    assert (c * c + s * s) * (z * z) == z * z;
  }

  /** ... and keep lengths, so a unit normal stays a unit normal. */
  lemma RotationKeepsLength(v: Vector3, s: real, c: real)
    requires UnitPair(s, c)
    ensures SquaredLength(ToWorld(v, s, c)) == SquaredLength(v)
    ensures SquaredLength(ToObject(v, s, c)) == SquaredLength(v)
  {
    TurnKeepsLength(v.x, v.z, s, c);
  }

  /** A turned coordinate of a + t*b is that of a plus t times that of b. */
  lemma TurnLinear(ax: real, az: real, t: real, bx: real, bz: real, s: real, c: real)
    ensures Turn(ax + t * bx, az + t * bz, s, c) == Turn(ax, az, s, c) + t * Turn(bx, bz, s, c)
  {
    assert c * (ax + t * bx) == c * ax + t * (c * bx);
    assert s * (az + t * bz) == s * az + t * (s * bz);
  }

  /** The turn is linear, so it maps the points of a ray to the points of the
      turned ray. */
  lemma RotationLinear(a: Vector3, t: real, b: Vector3, s: real, c: real)
    ensures ToWorld(Add(a, Scale(t, b)), s, c) == Add(ToWorld(a, s, c), Scale(t, ToWorld(b, s, c)))
  {
    TurnLinear(a.x, a.z, t, b.x, b.z, s, c);
    TurnLinear(a.z, a.x, t, b.z, b.x, -s, c);
  }

  /** Turning the point of the rotated ray back gives the point of the ray. */
  lemma RotatedPoint(r: Ray, t: real, s: real, c: real)
    requires UnitPair(s, c)
    ensures ToWorld(PointAtParameter(Ray(ToObject(r.origin, s, c), ToObject(r.direction, s, c), r.time), t), s, c)
         == PointAtParameter(r, t)
  {
    RotationLinear(ToObject(r.origin, s, c), t, ToObject(r.direction, s, c), s, c);
    RotationRoundTrip(r.origin, s, c);
    RotationRoundTrip(r.direction, s, c);
  }

  /** The turn by 0 degrees (sin 0 = 0, cos 0 = 1) is the identity. */
  lemma TurnByZero(v: Vector3)
    ensures ToObject(v, 0.0, 1.0) == v && ToWorld(v, 0.0, 1.0) == v
  {
  }

  // ------------------------------------------------------------ the box

  /** Corner (i, j, k) of a box as the constructor computes it, coordinate by
      coordinate i*max + (1-i)*min. */
  function Corner(b: AABB, i: int, j: int, k: int): Vector3 {
    Vector3(i as real * b.max.x + (1 - i) as real * b.min.x,
            j as real * b.max.y + (1 - j) as real * b.min.y,
            k as real * b.max.z + (1 - k) as real * b.min.z)
  }

  /** With 0/1 indices the formula picks the min or the max coordinate. */
  lemma CornerSelects(b: AABB, i: int, j: int, k: int)
    requires 0 <= i < 2 && 0 <= j < 2 && 0 <= k < 2
    ensures Corner(b, i, j, k) ==
      Vector3(Pick(i, b.min.x, b.max.x), Pick(j, b.min.y, b.max.y), Pick(k, b.min.z, b.max.z))
  {
  }

  /** The order in which the three nested loops visit the corners. */
  function CornerIndex(n: nat): (int, int, int)
    requires n < 8
  {
    (n / 4, n / 2 % 2, n % 2)
  }

  lemma CornerIndexOfLoop(i: int, j: int, k: int)
    requires 0 <= i < 2 && 0 <= j < 2 && 0 <= k < 2
    ensures CornerIndex(4 * i + 2 * j + k) == (i, j, k)
  {
  }

  /** The turned corner n (`tester` in the constructor). */
  function Tester(b: AABB, s: real, c: real, n: nat): Vector3
    requires n < 8
  {
    var (i, j, k) := CornerIndex(n);
    ToWorld(Corner(b, i, j, k), s, c)
  }

  /** One pass of the innermost loop: each coordinate of max raised to the
      tester's, each coordinate of min lowered to it. */
  function Widen(box: AABB, t: Vector3): AABB {
    AABB(Vector3(FFMin(t.x, box.min.x), FFMin(t.y, box.min.y), FFMin(t.z, box.min.z)),
         Vector3(FFMax(t.x, box.max.x), FFMax(t.y, box.max.y), FFMax(t.z, box.max.z)))
  }

  /** The empty start: min at FLT_MAX and max at -FLT_MAX on every axis. */
  const Start := AABB(Vector3(FltMax, FltMax, FltMax), Vector3(-FltMax, -FltMax, -FltMax))

  /** The bounds after the first n corners. */
  function BoundsAfter(b: AABB, s: real, c: real, n: nat): AABB
    requires n <= 8
  {
    if n == 0 then Start else Widen(BoundsAfter(b, s, c, n - 1), Tester(b, s, c, n - 1))
  }

  /** The box RotateY's constructor stores. */
  function RotatedBox(b: AABB, s: real, c: real): AABB {
    BoundsAfter(b, s, c, 8)
  }

  /** The constructor's loops over the corners, as written: corner (i, j, k)
      computed by the i*max + (1-i)*min formula, turned, and folded into min
      and max. */
  method TurnBox(b: AABB, s: real, c: real) returns (box: AABB)
    ensures box == RotatedBox(b, s, c)
  {
    var min := Vector3(FltMax, FltMax, FltMax);
    var max := Vector3(-FltMax, -FltMax, -FltMax);
    for i := 0 to 2
      invariant AABB(min, max) == BoundsAfter(b, s, c, 4 * i)
    {
      for j := 0 to 2
        invariant AABB(min, max) == BoundsAfter(b, s, c, 4 * i + 2 * j)
      {
        for k := 0 to 2
          invariant AABB(min, max) == BoundsAfter(b, s, c, 4 * i + 2 * j + k)
        {
          var tester := ToWorld(Corner(b, i, j, k), s, c);
          CornerIndexOfLoop(i, j, k);
          min, max := WidenInPlace(min, max, tester);
        }
      }
    }
    box := AABB(min, max);
  }

  /** The loop over the three coordinates of one tester. */
  method WidenInPlace(min0: Vector3, max0: Vector3, tester: Vector3) returns (min: Vector3, max: Vector3)
    ensures AABB(min, max) == Widen(AABB(min0, max0), tester)
  {
    min, max := min0, max0;
    for d := 0 to 3
      invariant forall e :: 0 <= e < d ==> At(max, e) == FFMax(At(tester, e), At(max0, e))
      invariant forall e :: 0 <= e < d ==> At(min, e) == FFMin(At(tester, e), At(min0, e))
      invariant forall e :: d <= e < 3 ==> At(max, e) == At(max0, e) && At(min, e) == At(min0, e)
    {
      if At(tester, d) > At(max, d) {
        max := With(max, d, At(tester, d));
      }
      if At(tester, d) < At(min, d) {
        min := With(min, d, At(tester, d));
      }
    }
    assert At(min, 0) == min.x && At(min, 1) == min.y && At(min, 2) == min.z;
    assert At(max, 0) == max.x && At(max, 1) == max.y && At(max, 2) == max.z;
  }

  /** The point lies within the bounds on every axis. */
  predicate Within(box: AABB, p: Vector3) {
    box.min.x <= p.x <= box.max.x && box.min.y <= p.y <= box.max.y && box.min.z <= p.z <= box.max.z
  }

  /** Every corner seen so far lies within the bounds, and later corners only
      widen them. */
  lemma {:induction false} TestersWithin(b: AABB, s: real, c: real, n: nat, m: nat)
    requires m < n <= 8
    ensures Within(BoundsAfter(b, s, c, n), Tester(b, s, c, m))
    decreases n
  {
    if m < n - 1 {
      TestersWithin(b, s, c, n - 1, m);
    }
  }

  /** After the eight corners min <= max on every axis: corner 0 lies within
      the bounds. */
  lemma RotatedBoxValid(b: AABB, s: real, c: real)
    ensures Valid(RotatedBox(b, s, c))
  {
    TestersWithin(b, s, c, 8, 0);
  }

  /** Scaling by a constant maps [x0, x1] into the interval between the images
      of its ends. */
  lemma ScaleBetween(k: real, x: real, x0: real, x1: real)
    requires x0 <= x <= x1
    ensures FFMin(k * x0, k * x1) <= k * x <= FFMax(k * x0, k * x1)
  {
    if k >= 0.0 {
      assert k * (x - x0) >= 0.0 * (x - x0);
      assert k * (x1 - x) >= 0.0 * (x1 - x);
    } else {
      assert (-k) * (x - x0) >= 0.0 * (x - x0);
      assert (-k) * (x1 - x) >= 0.0 * (x1 - x);
    }
  }

  /** The end of [x0, x1] numbered i: x0 for 0, x1 for 1. */
  function Pick(i: int, x0: real, x1: real): real {
    if i == 1 then x1 else x0
  }

  /** The end (0 or 1) of [x0, x1] at which k*x is largest. */
  function UpperEnd(k: real, x0: real, x1: real): (i: int)
    ensures 0 <= i < 2
    ensures k * Pick(i, x0, x1) == FFMax(k * x0, k * x1)
  {
    if k * x0 > k * x1 then 0 else 1
  }

  /** The end at which k*x is smallest. */
  function LowerEnd(k: real, x0: real, x1: real): (i: int)
    ensures 0 <= i < 2
    ensures k * Pick(i, x0, x1) == FFMin(k * x0, k * x1)
  {
    if k * x0 < k * x1 then 0 else 1
  }

  /** A turned coordinate of a point of the rectangle [x0, x1] x [z0, z1] lies
      between the turned coordinates of two of its corners. */
  lemma TurnBetween(x: real, x0: real, x1: real, z: real, z0: real, z1: real, s: real, c: real)
    requires x0 <= x <= x1 && z0 <= z <= z1
    ensures Turn(Pick(LowerEnd(c, x0, x1), x0, x1), Pick(LowerEnd(s, z0, z1), z0, z1), s, c)
      <= Turn(x, z, s, c)
      <= Turn(Pick(UpperEnd(c, x0, x1), x0, x1), Pick(UpperEnd(s, z0, z1), z0, z1), s, c)
  {
    ScaleBetween(c, x, x0, x1);
    ScaleBetween(s, z, z0, z1);
    var ui, uk := UpperEnd(c, x0, x1), UpperEnd(s, z0, z1);
    TurnMonotone(x, z, Pick(ui, x0, x1), Pick(uk, z0, z1), s, c);
    var li, lk := LowerEnd(c, x0, x1), LowerEnd(s, z0, z1);
    TurnMonotone(Pick(li, x0, x1), Pick(lk, z0, z1), x, z, s, c);
  }

  /** A turned coordinate grows with each of its two terms. */
  lemma TurnMonotone(x: real, z: real, x2: real, z2: real, s: real, c: real)
    requires c * x <= c * x2 && s * z <= s * z2
    ensures Turn(x, z, s, c) <= Turn(x2, z2, s, c)
  {
  }

  /** The corner numbered by the loop indices (i, j, k). */
  lemma TesterAt(b: AABB, s: real, c: real, i: int, j: int, k: int)
    requires 0 <= i < 2 && 0 <= j < 2 && 0 <= k < 2
    ensures Tester(b, s, c, 4 * i + 2 * j + k) ==
      ToWorld(Vector3(Pick(i, b.min.x, b.max.x), Pick(j, b.min.y, b.max.y), Pick(k, b.min.z, b.max.z)), s, c)
  {
    CornerIndexOfLoop(i, j, k);
    CornerSelects(b, i, j, k);
  }

  /** The turned x of a point of the box lies within the x bounds. */
  lemma XWithin(b: AABB, s: real, c: real, p: Vector3)
    requires Within(b, p)
    ensures RotatedBox(b, s, c).min.x <= ToWorld(p, s, c).x <= RotatedBox(b, s, c).max.x
  {
    var lo, hi := b.min, b.max;
    TurnBetween(p.x, lo.x, hi.x, p.z, lo.z, hi.z, s, c);
    var ui, uk := UpperEnd(c, lo.x, hi.x), UpperEnd(s, lo.z, hi.z);
    TesterAt(b, s, c, ui, 0, uk);
    TestersWithin(b, s, c, 8, 4 * ui + uk);
    var li, lk := LowerEnd(c, lo.x, hi.x), LowerEnd(s, lo.z, hi.z);
    TesterAt(b, s, c, li, 0, lk);
    TestersWithin(b, s, c, 8, 4 * li + lk);
  }

  /** The turned z of a point of the box lies within the z bounds. */
  lemma ZWithin(b: AABB, s: real, c: real, p: Vector3)
    requires Within(b, p)
    ensures RotatedBox(b, s, c).min.z <= ToWorld(p, s, c).z <= RotatedBox(b, s, c).max.z
  {
    var lo, hi := b.min, b.max;
    TurnBetween(p.z, lo.z, hi.z, p.x, lo.x, hi.x, -s, c);
    var uk, ui := UpperEnd(c, lo.z, hi.z), UpperEnd(-s, lo.x, hi.x);
    TesterAt(b, s, c, ui, 0, uk);
    TestersWithin(b, s, c, 8, 4 * ui + uk);
    var lk, li := LowerEnd(c, lo.z, hi.z), LowerEnd(-s, lo.x, hi.x);
    TesterAt(b, s, c, li, 0, lk);
    TestersWithin(b, s, c, 8, 4 * li + lk);
  }

  /** The y of a point is unchanged by the turn and lies between the y of the
      corners (0, 0, 0) and (0, 1, 0). */
  lemma YWithin(b: AABB, s: real, c: real, p: Vector3)
    requires Within(b, p)
    ensures RotatedBox(b, s, c).min.y <= ToWorld(p, s, c).y <= RotatedBox(b, s, c).max.y
  {
    TesterAt(b, s, c, 0, 0, 0);
    TestersWithin(b, s, c, 8, 0);
    TesterAt(b, s, c, 0, 1, 0);
    TestersWithin(b, s, c, 8, 2);
  }

  /** RotateY's box encloses the turned image of every point of the wrapped
      object's box: each turned coordinate is a linear combination of x and z,
      which is largest and smallest at corners. */
  lemma RotatedBoxSound(b: AABB, s: real, c: real, p: Vector3)
    requires Within(b, p)
    ensures Within(RotatedBox(b, s, c), ToWorld(p, s, c))
  {
    XWithin(b, s, c, p);
    YWithin(b, s, c, p);
    ZWithin(b, s, c, p);
  }
}
