// What every Hitable::hit and Hitable::boundingBox promise, whatever the scene:
// reported hits lie in the query window and on the ray, a zero direction never
// hits, and the decorators compose as the source means them to.
module HitProperties {
  import opened Optional
  import opened Vectors
  import opened Rays
  import Aabbs
  import opened Materials
  import opened Spheres
  import opened Rectangles
  import opened Media
  import opened Hitables
  import opened Rotations

  /** A hit never moves the drand48() stream backwards. */
  lemma {:induction false} HitAdvances(h: Hitable, r: Ray, tMin: real, tMax: real, rec: HitRecord, env: Env, pos: nat)
    requires WellFormed(h)
    ensures Hit(h, r, tMin, tMax, rec, env, pos).next >= pos
    decreases h, 1
  {
    match h
    case Sphere(_, _, _) =>
    case MovingSphere(_, _, _, _, _, _) =>
    case Rect(_, _, _, _, _, _, _) =>
    case Box(_, _, faces) =>
      HitAdvances(faces, r, tMin, tMax, rec, env, pos);
    case HitableList(_) =>
      ListAdvances(h, 0, r, tMin, ListState(false, tMax, Blank, pos), env);
    case BVHNode(left, right, box) =>
      if Aabbs.SlabsFrom(box, r, 0, tMin, tMax).Some? {
        HitAdvances(left, r, tMin, tMax, Blank, env, pos);
        var hl := Hit(left, r, tMin, tMax, Blank, env, pos);
        HitAdvances(right, r, tMin, tMax, Blank, env, hl.next);
      }
    case FlipNormals(ptr) =>
      HitAdvances(ptr, r, tMin, tMax, rec, env, pos);
    case Translate(ptr, offset) =>
      HitAdvances(ptr, Ray(Sub(r.origin, offset), r.direction, r.time), tMin, tMax, rec, env, pos);
    case RotateY(ptr, s, c, _, _) =>
      HitAdvances(ptr, Ray(ToObject(r.origin, s, c), ToObject(r.direction, s, c), r.time), tMin, tMax, rec, env, pos);
    case ConstantMedium(boundary, _, _) =>
      HitAdvances(boundary, r, -FltMax, FltMax, Blank, env, pos + 1);
      var h1 := Hit(boundary, r, -FltMax, FltMax, Blank, env, pos + 1);
      if h1.found.Some? {
        HitAdvances(boundary, r, Reentry(h1.found.value.t), FltMax, Blank, env, h1.next);
      }
      MediumAdvances(h, r, tMin, tMax, rec, env, pos);
  }

  /** The ConstantMedium step of HitAdvances, given the boundary's. */
  lemma MediumAdvances(node: Hitable, r: Ray, tMin: real, tMax: real, rec: HitRecord, env: Env, pos: nat)
    requires node.ConstantMedium? && WellFormed(node)
    requires Hit(node.boundary, r, -FltMax, FltMax, Blank, env, pos + 1).next >= pos + 1
    requires var h1 := Hit(node.boundary, r, -FltMax, FltMax, Blank, env, pos + 1);
      h1.found.Some? ==> Hit(node.boundary, r, Reentry(h1.found.value.t), FltMax, Blank, env, h1.next).next >= h1.next
    ensures MediumOutcome(node, r, tMin, tMax, rec, env, pos).next >= pos
  {
    var h1 := Hit(node.boundary, r, -FltMax, FltMax, Blank, env, pos + 1);
    if h1.found.Some? {
      var h2 := Hit(node.boundary, r, Reentry(h1.found.value.t), FltMax, Blank, env, h1.next);
      if h2.found.Some? {
        var o := MediumHit(h1.found.value.t, h2.found.value.t, node.density, node.phaseFunction, r, tMin, tMax, rec, env, h2.next);
        assert MediumOutcome(node, r, tMin, tMax, rec, env, pos) == o;
      }
    }
  }

  lemma {:induction false} ListAdvances(parent: Hitable, i: nat, r: Ray, tMin: real, s: ListState, env: Env)
    requires parent.HitableList? && WellFormed(parent) && i <= |parent.list|
    ensures ListFold(parent, i, r, tMin, s, env).pos >= s.pos
    decreases parent, 0, |parent.list| - i
  {
    if i < |parent.list| {
      HitAdvances(parent.list[i], r, tMin, s.closest, s.temp, env, s.pos);
      ListAdvances(parent, i + 1, r, tMin, ListStep(parent, i, r, tMin, s, env), env);
    }
  }

  /** A reported hit lies in [tMin, tMax] and has a material that can scatter. A
      ray with a zero direction hits nothing: the sphere's `a` is 0, the
      rectangle's divisor is 0, and the decorators pass the zero direction on. */
  lemma {:induction false} HitWindow(h: Hitable, r: Ray, tMin: real, tMax: real, rec: HitRecord, env: Env, pos: nat)
    requires WellFormed(h)
    ensures r.direction == Zero ==> Hit(h, r, tMin, tMax, rec, env, pos).found.None?
    ensures Hit(h, r, tMin, tMax, rec, env, pos).found.Some? ==>
      tMin <= Hit(h, r, tMin, tMax, rec, env, pos).found.value.t <= tMax &&
      MaterialWellFormed(Hit(h, r, tMin, tMax, rec, env, pos).found.value.mat)
    decreases h, 1
  {
    match h
    case Sphere(_, _, _) =>
    case MovingSphere(_, _, _, _, _, _) =>
    case Rect(pl, _, _, _, _, _, _) =>
      assert r.direction == Zero ==> PlaneCoords(pl, r.direction).2 == 0.0;
    case Box(_, _, faces) =>
      HitWindow(faces, r, tMin, tMax, rec, env, pos);
    case HitableList(_) =>
      ListWindow(h, 0, r, tMin, ListState(false, tMax, Blank, pos), env);
    case BVHNode(left, right, box) =>
      if Aabbs.SlabsFrom(box, r, 0, tMin, tMax).Some? {
        HitWindow(left, r, tMin, tMax, Blank, env, pos);
        var hl := Hit(left, r, tMin, tMax, Blank, env, pos);
        HitWindow(right, r, tMin, tMax, Blank, env, hl.next);
      }
    case FlipNormals(ptr) =>
      HitWindow(ptr, r, tMin, tMax, rec, env, pos);
    case Translate(ptr, offset) =>
      HitWindow(ptr, Ray(Sub(r.origin, offset), r.direction, r.time), tMin, tMax, rec, env, pos);
    case RotateY(ptr, s, c, _, _) =>
      assert r.direction == Zero ==> ToObject(r.direction, s, c) == Zero;
      HitWindow(ptr, Ray(ToObject(r.origin, s, c), ToObject(r.direction, s, c), r.time), tMin, tMax, rec, env, pos);
    case ConstantMedium(boundary, _, _) =>
      HitWindow(boundary, r, -FltMax, FltMax, Blank, env, pos + 1);
  }

  /** The loop of HitableList::hit keeps closestSoFar at most where it started, and
      tempRec, once written, is a hit at closestSoFar in [tMin, closestSoFar]. */
  lemma {:induction false} ListWindow(parent: Hitable, i: nat, r: Ray, tMin: real, s: ListState, env: Env)
    requires parent.HitableList? && WellFormed(parent) && i <= |parent.list|
    requires s.hitAnything ==> s.temp.t == s.closest && tMin <= s.closest && MaterialWellFormed(s.temp.mat)
    ensures ListFold(parent, i, r, tMin, s, env).closest <= s.closest
    ensures s.hitAnything ==> ListFold(parent, i, r, tMin, s, env).hitAnything
    ensures r.direction == Zero && !s.hitAnything ==> !ListFold(parent, i, r, tMin, s, env).hitAnything
    ensures ListFold(parent, i, r, tMin, s, env).hitAnything ==>
      var o := ListFold(parent, i, r, tMin, s, env);
      o.temp.t == o.closest && tMin <= o.closest && MaterialWellFormed(o.temp.mat)
    decreases parent, 0, |parent.list| - i
  {
    if i < |parent.list| {
      HitWindow(parent.list[i], r, tMin, s.closest, s.temp, env, s.pos);
      ListWindow(parent, i + 1, r, tMin, ListStep(parent, i, r, tMin, s, env), env);
    }
  }

  /** Flipping the normals twice gives back the wrapped object's hits and box. */
  lemma FlipTwice(h: Hitable, r: Ray, tMin: real, tMax: real, rec: HitRecord, env: Env, pos: nat, t0: real, t1: real, box: Aabbs.AABB)
    requires WellFormed(h)
    ensures Hit(FlipNormals(FlipNormals(h)), r, tMin, tMax, rec, env, pos) == Hit(h, r, tMin, tMax, rec, env, pos)
    ensures BoundingBox(FlipNormals(FlipNormals(h)), t0, t1, box) == BoundingBox(h, t0, t1, box)
  {
    var o := Hit(h, r, tMin, tMax, rec, env, pos);
    var once := Hit(FlipNormals(h), r, tMin, tMax, rec, env, pos);
    assert once == FlipHit(FlipNormals(h), r, tMin, tMax, rec, env, pos);
    assert Hit(FlipNormals(FlipNormals(h)), r, tMin, tMax, rec, env, pos) == FlipHit(FlipNormals(FlipNormals(h)), r, tMin, tMax, rec, env, pos);
    if o.found.Some? {
      assert once.found == Some(o.found.value.(normal := Neg(o.found.value.normal)));
      assert o.found.value.(normal := Neg(Neg(o.found.value.normal))) == o.found.value;
    }
  }

  /** Translating by v and then by -v gives back the object's hits and box. */
  lemma TranslateRoundTrip(h: Hitable, v: Vector3, r: Ray, tMin: real, tMax: real, rec: HitRecord, env: Env, pos: nat,
                           t0: real, t1: real, box: Aabbs.AABB)
    requires WellFormed(h)
    ensures Hit(Translate(Translate(h, v), Neg(v)), r, tMin, tMax, rec, env, pos) == Hit(h, r, tMin, tMax, rec, env, pos)
    ensures BoundingBox(Translate(Translate(h, v), Neg(v)), t0, t1, box) == BoundingBox(h, t0, t1, box)
  {
    var r1 := Ray(Sub(r.origin, Neg(v)), r.direction, r.time);
    assert Ray(Sub(r1.origin, v), r1.direction, r1.time) == r;
    var o := Hit(h, r, tMin, tMax, rec, env, pos);
    var once := Hit(Translate(h, v), r1, tMin, tMax, rec, env, pos);
    assert once == TranslateHit(Translate(h, v), r1, tMin, tMax, rec, env, pos);
    assert Hit(Translate(Translate(h, v), Neg(v)), r, tMin, tMax, rec, env, pos)
        == TranslateHit(Translate(Translate(h, v), Neg(v)), r, tMin, tMax, rec, env, pos);
    if o.found.Some? {
      assert once.found == Some(o.found.value.(p := Add(o.found.value.p, v)));
      assert o.found.value.(p := Add(Add(o.found.value.p, v), Neg(v))) == o.found.value;
    }
    var q := BoundingBox(h, t0, t1, box);
    var qOnce := BoundingBox(Translate(h, v), t0, t1, box);
    if q.ok {
      assert qOnce == BoxQuery(true, Aabbs.AABB(Add(q.box.min, v), Add(q.box.max, v)));
      assert Aabbs.AABB(Add(Add(q.box.min, v), Neg(v)), Add(Add(q.box.max, v), Neg(v))) == q.box;
    }
  }

  /** A rotation by 0 degrees (sin 0, cos 1) leaves the object's hits unchanged. */
  lemma RotateByZero(h: Hitable, hasBox: bool, bBox: Aabbs.AABB, r: Ray, tMin: real, tMax: real, rec: HitRecord, env: Env, pos: nat)
    requires WellFormed(h)
    ensures Hit(RotateY(h, 0.0, 1.0, hasBox, bBox), r, tMin, tMax, rec, env, pos) == Hit(h, r, tMin, tMax, rec, env, pos)
  {
    var node := RotateY(h, 0.0, 1.0, hasBox, bBox);
    assert Hit(node, r, tMin, tMax, rec, env, pos) == RotateHit(node, r, tMin, tMax, rec, env, pos);
    TurnByZero(r.origin);
    TurnByZero(r.direction);
    assert Ray(ToObject(r.origin, 0.0, 1.0), ToObject(r.direction, 0.0, 1.0), r.time) == r;
    var o := Hit(h, r, tMin, tMax, rec, env, pos);
    if o.found.Some? {
      var hit := o.found.value;
      TurnByZero(hit.p);
      TurnByZero(hit.normal);
      assert hit.(p := ToWorld(hit.p, 0.0, 1.0), normal := ToWorld(hit.normal, 0.0, 1.0)) == hit;
    }
  }

  /** Every RotateY in the scene holds the sine and cosine of one angle, as its
      constructor computes them: sin^2 + cos^2 = 1. */
  predicate Rigid(h: Hitable) {
    match h
    case Sphere(_, _, _) => true
    case MovingSphere(_, _, _, _, _, _) => true
    case Rect(_, _, _, _, _, _, _) => true
    case Box(_, _, faces) => Rigid(faces)
    case HitableList(list) => forall i :: 0 <= i < |list| ==> Rigid(list[i])
    case BVHNode(left, right, _) => Rigid(left) && Rigid(right)
    case FlipNormals(ptr) => Rigid(ptr)
    case Translate(ptr, _) => Rigid(ptr)
    case RotateY(ptr, s, c, _, _) => UnitPair(s, c) && Rigid(ptr)
    case ConstantMedium(boundary, _, _) => Rigid(boundary)
  }

  /** A reported hit point is the point of the incoming ray at the reported t:
      the decorators move the ray and move the point back by the inverse. */
  lemma {:induction false} HitOnRay(h: Hitable, r: Ray, tMin: real, tMax: real, rec: HitRecord, env: Env, pos: nat)
    requires WellFormed(h) && Rigid(h)
    ensures Hit(h, r, tMin, tMax, rec, env, pos).found.Some? ==>
      Hit(h, r, tMin, tMax, rec, env, pos).found.value.p == PointAtParameter(r, Hit(h, r, tMin, tMax, rec, env, pos).found.value.t)
    decreases h, 1
  {
    match h
    case Sphere(_, _, _) =>
    case MovingSphere(_, _, _, _, _, _) =>
    case Rect(_, _, _, _, _, _, _) =>
    case Box(_, _, faces) =>
      HitOnRay(faces, r, tMin, tMax, rec, env, pos);
    case HitableList(_) =>
      ListOnRay(h, 0, r, tMin, ListState(false, tMax, Blank, pos), env);
    case BVHNode(left, right, box) =>
      if Aabbs.SlabsFrom(box, r, 0, tMin, tMax).Some? {
        HitOnRay(left, r, tMin, tMax, Blank, env, pos);
        var hl := Hit(left, r, tMin, tMax, Blank, env, pos);
        HitOnRay(right, r, tMin, tMax, Blank, env, hl.next);
      }
    case FlipNormals(ptr) =>
      HitOnRay(ptr, r, tMin, tMax, rec, env, pos);
    case Translate(ptr, offset) =>
      HitOnRay(ptr, Ray(Sub(r.origin, offset), r.direction, r.time), tMin, tMax, rec, env, pos);
      TranslateOnRay(h, r, tMin, tMax, rec, env, pos);
    case RotateY(ptr, s, c, _, _) =>
      HitOnRay(ptr, Ray(ToObject(r.origin, s, c), ToObject(r.direction, s, c), r.time), tMin, tMax, rec, env, pos);
      RotateOnRay(h, r, tMin, tMax, rec, env, pos);
    case ConstantMedium(_, _, _) =>
  }

  /** The Translate step of HitOnRay, given that of the wrapped object. */
  lemma TranslateOnRay(node: Hitable, r: Ray, tMin: real, tMax: real, rec: HitRecord, env: Env, pos: nat)
    requires node.Translate? && WellFormed(node)
    requires var o := Hit(node.ptr, Ray(Sub(r.origin, node.offset), r.direction, r.time), tMin, tMax, rec, env, pos);
      o.found.Some? ==> o.found.value.p == PointAtParameter(Ray(Sub(r.origin, node.offset), r.direction, r.time), o.found.value.t)
    ensures var o := TranslateHit(node, r, tMin, tMax, rec, env, pos);
      o.found.Some? ==> o.found.value.p == PointAtParameter(r, o.found.value.t)
  {
    var moved := Ray(Sub(r.origin, node.offset), r.direction, r.time);
    var inner := Hit(node.ptr, moved, tMin, tMax, rec, env, pos);
    if inner.found.Some? {
      var t := inner.found.value.t;
      assert TranslateHit(node, r, tMin, tMax, rec, env, pos).found.value.p == Add(PointAtParameter(moved, t), node.offset);
      ShiftBack(r.origin, node.offset, Scale(t, r.direction));
    }
  }

  /** Moving a point by -v and then by +v, with a step w in between, lands at
      origin + w. */
  lemma ShiftBack(origin: Vector3, v: Vector3, w: Vector3)
    ensures Add(Add(Sub(origin, v), w), v) == Add(origin, w)
  {
  }

  /** The RotateY step of HitOnRay, given that of the wrapped object. */
  lemma RotateOnRay(node: Hitable, r: Ray, tMin: real, tMax: real, rec: HitRecord, env: Env, pos: nat)
    requires node.RotateY? && WellFormed(node) && UnitPair(node.sinTheta, node.cosTheta)
    requires var turned := Ray(ToObject(r.origin, node.sinTheta, node.cosTheta), ToObject(r.direction, node.sinTheta, node.cosTheta), r.time);
      var o := Hit(node.ptr, turned, tMin, tMax, rec, env, pos);
      o.found.Some? ==> o.found.value.p == PointAtParameter(turned, o.found.value.t)
    ensures var o := RotateHit(node, r, tMin, tMax, rec, env, pos);
      o.found.Some? ==> o.found.value.p == PointAtParameter(r, o.found.value.t)
  {
    var s, c := node.sinTheta, node.cosTheta;
    var turned := Ray(ToObject(r.origin, s, c), ToObject(r.direction, s, c), r.time);
    var o := Hit(node.ptr, turned, tMin, tMax, rec, env, pos);
    if o.found.Some? {
      RotatedPoint(r, o.found.value.t, s, c);
    }
  }

  lemma {:induction false} ListOnRay(parent: Hitable, i: nat, r: Ray, tMin: real, s: ListState, env: Env)
    requires parent.HitableList? && WellFormed(parent) && Rigid(parent) && i <= |parent.list|
    requires s.hitAnything ==> s.temp.p == PointAtParameter(r, s.temp.t)
    ensures var o := ListFold(parent, i, r, tMin, s, env);
      o.hitAnything ==> o.temp.p == PointAtParameter(r, o.temp.t)
    decreases parent, 0, |parent.list| - i
  {
    if i < |parent.list| {
      HitOnRay(parent.list[i], r, tMin, s.closest, s.temp, env, s.pos);
      ListOnRay(parent, i + 1, r, tMin, ListStep(parent, i, r, tMin, s, env), env);
    }
  }

  // ------------------------------------------------------------ boxes

  /** boundingBox's answer does not depend on what the out-parameter held before:
      the flag never does, and neither does the box it writes on success. */
  lemma {:induction false} BoxQueryIndependent(h: Hitable, t0: real, t1: real, b1: Aabbs.AABB, b2: Aabbs.AABB)
    requires WellFormed(h)
    ensures BoundingBox(h, t0, t1, b1).ok == BoundingBox(h, t0, t1, b2).ok
    ensures BoundingBox(h, t0, t1, b1).ok ==> BoundingBox(h, t0, t1, b1).box == BoundingBox(h, t0, t1, b2).box
    decreases h, 1
  {
    match h
    case Sphere(_, _, _) =>
    case MovingSphere(_, _, _, _, _, _) =>
    case Rect(_, _, _, _, _, _, _) =>
    case Box(_, _, _) =>
    case HitableList(list) =>
      if |list| >= 1 {
        var first := BoundingBox(list[0], t0, t1, Aabbs.Unset);
        if first.ok {
          assert BoundingBox(h, t0, t1, b1) == ListBoxLoop(h, 1, t0, t1, first.box, first.box);
          assert BoundingBox(h, t0, t1, b2) == ListBoxLoop(h, 1, t0, t1, first.box, first.box);
        }
      }
    case BVHNode(_, _, _) =>
    case FlipNormals(ptr) => BoxQueryIndependent(ptr, t0, t1, b1, b2);
    case Translate(ptr, _) => BoxQueryIndependent(ptr, t0, t1, b1, b2);
    case RotateY(_, _, _, _, _) =>
    case ConstantMedium(boundary, _, _) => BoxQueryIndependent(boundary, t0, t1, b1, b2);
  }

  /** FlipNormals::hit answers the wrapped object's hit with the normal negated
      and nothing else changed; its box is the wrapped object's. */
  lemma FlipChangesOnlyNormal(h: Hitable, r: Ray, tMin: real, tMax: real, rec: HitRecord, env: Env, pos: nat,
                              t0: real, t1: real, box: Aabbs.AABB)
    requires WellFormed(h)
    ensures var o := Hit(h, r, tMin, tMax, rec, env, pos);
      var f := Hit(FlipNormals(h), r, tMin, tMax, rec, env, pos);
      f.next == o.next && (f.found.Some? <==> o.found.Some?) &&
      (o.found.Some? ==> f.found.value == o.found.value.(normal := Neg(o.found.value.normal)))
    ensures BoundingBox(FlipNormals(h), t0, t1, box) == BoundingBox(h, t0, t1, box)
  {
    assert Hit(FlipNormals(h), r, tMin, tMax, rec, env, pos) == FlipHit(FlipNormals(h), r, tMin, tMax, rec, env, pos);
  }

  /** Translate::hit asks the wrapped object about the ray moved by -offset and
      moves the reported point by +offset, keeping t, normal, material and (u, v);
      its box is the wrapped object's box moved by +offset. */
  lemma TranslateShifts(h: Hitable, v: Vector3, r: Ray, tMin: real, tMax: real, rec: HitRecord, env: Env, pos: nat,
                        t0: real, t1: real, box: Aabbs.AABB)
    requires WellFormed(h)
    ensures var o := Hit(h, Ray(Sub(r.origin, v), r.direction, r.time), tMin, tMax, rec, env, pos);
      var m := Hit(Translate(h, v), r, tMin, tMax, rec, env, pos);
      m.next == o.next && (m.found.Some? <==> o.found.Some?) &&
      (o.found.Some? ==> m.found.value == o.found.value.(p := Add(o.found.value.p, v)))
    ensures var q := BoundingBox(h, t0, t1, box);
      BoundingBox(Translate(h, v), t0, t1, box).ok == q.ok &&
      (q.ok ==> BoundingBox(Translate(h, v), t0, t1, box).box == Aabbs.AABB(Add(q.box.min, v), Add(q.box.max, v)))
  {
    assert Hit(Translate(h, v), r, tMin, tMax, rec, env, pos) == TranslateHit(Translate(h, v), r, tMin, tMax, rec, env, pos);
  }

  /** ConstantMedium::boundingBox is the boundary's answer, unchanged. */
  lemma MediumBoxIsBoundary(boundary: Hitable, density: real, phase: Material, t0: real, t1: real, box: Aabbs.AABB)
    requires WellFormed(ConstantMedium(boundary, density, phase))
    ensures BoundingBox(ConstantMedium(boundary, density, phase), t0, t1, box) == BoundingBox(boundary, t0, t1, box)
  {
  }
}
