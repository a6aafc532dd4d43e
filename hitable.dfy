// hitable.h, hitableList.h, box.h and constantMedium.h: the scene as one recursive
// value. The source's class hierarchy (Sphere, movingSphere, the rectangles, Box,
// HitableList, BVHNode, FlipNormals, Translate, RotateY, ConstantMedium) becomes
// the variants of `Hitable`; the scene is never changed once built, so hit and
// boundingBox are functions of it.
module Hitables {
  import opened Optional
  import opened Vectors
  import opened Rays
  import opened Draws
  import opened Aabbs
  import opened Materials
  import opened Spheres
  import opened Rectangles
  import opened Media
  import opened Rotations

  /** What a hit reads besides the scene and the ray: the <cmath> functions and the
      drand48() stream (only ConstantMedium draws). */
  datatype Env = Env(math: Math, drand: Stream)

  datatype Hitable =
    | Sphere(center: Vector3, radius: real, mat: Material)
    | MovingSphere(center0: Vector3, center1: Vector3, time0: real, time1: real, radius: real, mat: Material)
    | Rect(plane: Plane, a0: real, a1: real, b0: real, b1: real, k: real, mat: Material)
    | Box(pmin: Vector3, pmax: Vector3, faces: Hitable)
    | HitableList(list: seq<Hitable>)
    | BVHNode(left: Hitable, right: Hitable, box: AABB)
    | FlipNormals(ptr: Hitable)
    | Translate(ptr: Hitable, offset: Vector3)
    | RotateY(ptr: Hitable, sinTheta: real, cosTheta: real, hasBox: bool, bBox: AABB)
    | ConstantMedium(boundary: Hitable, density: real, phaseFunction: Material)

  /** The divisors the hits use are nonzero (radius, the rectangle's extents,
      time1 - time0, the density), the density is positive, and every material
      can scatter. */
  predicate WellFormed(h: Hitable) {
    match h
    case Sphere(_, radius, mat) => radius != 0.0 && MaterialWellFormed(mat)
    case MovingSphere(_, _, time0, time1, radius, mat) => time0 != time1 && radius != 0.0 && MaterialWellFormed(mat)
    case Rect(_, a0, a1, b0, b1, _, mat) => a0 != a1 && b0 != b1 && MaterialWellFormed(mat)
    case Box(_, _, faces) => WellFormed(faces)
    case HitableList(list) => forall i :: 0 <= i < |list| ==> WellFormed(list[i])
    case BVHNode(left, right, _) => WellFormed(left) && WellFormed(right)
    case FlipNormals(ptr) => WellFormed(ptr)
    case Translate(ptr, _) => WellFormed(ptr)
    case RotateY(ptr, _, _, _, _) => WellFormed(ptr)
    case ConstantMedium(boundary, density, phase) => WellFormed(boundary) && density > 0.0 && MaterialWellFormed(phase)
  }

  /** The result of hit(r, tMin, tMax, rec): the record written on `true` (None on
      `false`, when the caller's record is left as it was) and the position in the
      drand48() stream after the call. */
  datatype HitOutcome = HitOutcome(found: Option<HitRecord>, next: nat)

  /** The loop state of HitableList::hit: hitAnything, closestSoFar, tempRec, and
      the stream position. */
  datatype ListState = ListState(hitAnything: bool, closest: real, temp: HitRecord, pos: nat)

  /** The nearer of the two child records BVHNode::hit gets: the left one only
      when its t is strictly smaller. */
  function Nearer(l: Option<HitRecord>, r: Option<HitRecord>): (o: Option<HitRecord>)
    ensures o.None? <==> l.None? && r.None?
    ensures o.Some? ==> o == l || o == r
    ensures l.Some? && r.Some? ==> (o == l <==> l.value.t < r.value.t) || l == r
    ensures o.Some? && l.Some? ==> o.value.t <= l.value.t
    ensures o.Some? && r.Some? ==> o.value.t <= r.value.t
  {
    if l.Some? && r.Some? then
      if l.value.t < r.value.t then l else r
    else if l.Some? then l
    else r
  }

  /** Hitable::hit. `rec` is the record the caller passes in; primitives that do
      not write u and v (movingSphere, ConstantMedium) leave its values there. Each
      call reads drand48() draws from position `pos` on. */
  function Hit(h: Hitable, r: Ray, tMin: real, tMax: real, rec: HitRecord, env: Env, pos: nat): (o: HitOutcome)
    requires WellFormed(h)
    decreases h, 2
  {
    match h
    case Sphere(center, radius, mat) =>
      HitOutcome(SphereHit(center, radius, mat, r, tMin, tMax, env.math), pos)
    case MovingSphere(center0, center1, time0, time1, radius, mat) =>
      HitOutcome(MovingSphereHit(center0, center1, time0, time1, radius, mat, r, tMin, tMax, rec, env.math), pos)
    case Rect(pl, a0, a1, b0, b1, k, mat) =>
      HitOutcome(RectHit(pl, a0, a1, b0, b1, k, mat, r, tMin, tMax), pos)
    case Box(_, _, faces) => Hit(faces, r, tMin, tMax, rec, env, pos)
    case HitableList(_) => ListHit(h, r, tMin, tMax, env, pos)
    case BVHNode(_, _, _) => BVHHit(h, r, tMin, tMax, env, pos)
    case FlipNormals(_) => FlipHit(h, r, tMin, tMax, rec, env, pos)
    case Translate(_, _) => TranslateHit(h, r, tMin, tMax, rec, env, pos)
    case RotateY(_, _, _, _, _) => RotateHit(h, r, tMin, tMax, rec, env, pos)
    case ConstantMedium(_, _, _) => MediumOutcome(h, r, tMin, tMax, rec, env, pos)
  }

  /** HitableList::hit: the loop over the children from an unset tempRec. */
  function ListHit(node: Hitable, r: Ray, tMin: real, tMax: real, env: Env, pos: nat): (o: HitOutcome)
    requires node.HitableList? && WellFormed(node)
    decreases node, 1
  {
    // tempRec starts uninitialised
    var s := ListFold(node, 0, r, tMin, ListState(false, tMax, Blank, pos), env);
    HitOutcome(if s.hitAnything then Some(s.temp) else None, s.pos)
  }

  /** BVHNode::hit: nothing when the ray misses the node's box; otherwise both
      children are asked, left first, and the nearer hit wins. */
  function BVHHit(node: Hitable, r: Ray, tMin: real, tMax: real, env: Env, pos: nat): (o: HitOutcome)
    requires node.BVHNode? && WellFormed(node)
    decreases node, 1
  {
    if SlabsFrom(node.box, r, 0, tMin, tMax).None? then HitOutcome(None, pos)
    else
      // leftRec and rightRec start uninitialised
      var hl := Hit(node.left, r, tMin, tMax, Blank, env, pos);
      var hr := Hit(node.right, r, tMin, tMax, Blank, env, hl.next);
      HitOutcome(Nearer(hl.found, hr.found), hr.next)
  }

  /** FlipNormals::hit: the wrapped hit with the normal negated. */
  function FlipHit(node: Hitable, r: Ray, tMin: real, tMax: real, rec: HitRecord, env: Env, pos: nat): (o: HitOutcome)
    requires node.FlipNormals? && WellFormed(node)
    decreases node, 1
  {
    var o := Hit(node.ptr, r, tMin, tMax, rec, env, pos);
    if o.found.Some? then HitOutcome(Some(o.found.value.(normal := Neg(o.found.value.normal))), o.next)
    else o
  }

  /** Translate::hit: the wrapped hit of the ray moved by -offset, with the hit
      point moved back by +offset. */
  function TranslateHit(node: Hitable, r: Ray, tMin: real, tMax: real, rec: HitRecord, env: Env, pos: nat): (o: HitOutcome)
    requires node.Translate? && WellFormed(node)
    decreases node, 1
  {
    var o := Hit(node.ptr, Ray(Sub(r.origin, node.offset), r.direction, r.time), tMin, tMax, rec, env, pos);
    if o.found.Some? then HitOutcome(Some(o.found.value.(p := Add(o.found.value.p, node.offset))), o.next)
    else o
  }

  /** RotateY::hit: the wrapped hit of the ray turned into object space, with the
      hit point and normal turned back. */
  function RotateHit(node: Hitable, r: Ray, tMin: real, tMax: real, rec: HitRecord, env: Env, pos: nat): (o: HitOutcome)
    requires node.RotateY? && WellFormed(node)
    decreases node, 1
  {
    var s, c := node.sinTheta, node.cosTheta;
    var o := Hit(node.ptr, Ray(ToObject(r.origin, s, c), ToObject(r.direction, s, c), r.time), tMin, tMax, rec, env, pos);
    if o.found.Some? then
      var hit := o.found.value;
      HitOutcome(Some(hit.(p := ToWorld(hit.p, s, c), normal := ToWorld(hit.normal, s, c))), o.next)
    else o
  }

  /** ConstantMedium::hit: the boundary's entry over the whole line, its exit after
      the entry, then the clamps and the free flight. Draw `pos` is the dead `db`
      flag. */
  function MediumOutcome(node: Hitable, r: Ray, tMin: real, tMax: real, rec: HitRecord, env: Env, pos: nat): (o: HitOutcome)
    requires node.ConstantMedium? && WellFormed(node)
    decreases node, 1
  {
    // rec1 and rec2 start uninitialised
    var h1 := Hit(node.boundary, r, -FltMax, FltMax, Blank, env, pos + 1);
    if h1.found.None? then HitOutcome(None, h1.next)
    else
      var h2 := Hit(node.boundary, r, Reentry(h1.found.value.t), FltMax, Blank, env, h1.next);
      if h2.found.None? then HitOutcome(None, h2.next)
      else MediumHit(h1.found.value.t, h2.found.value.t, node.density, node.phaseFunction, r, tMin, tMax, rec, env, h2.next)
  }

  /** The parameter from which ConstantMedium::hit looks for the boundary's exit:
      just past the entry. */
  function Reentry(t: real): (t2: real)
    ensures t2 > t
  {
    t + 0.0001
  }

  /** The end of ConstantMedium::hit once the boundary has been entered at t1 and
      left at t2: the clamps, then (only if they leave a window) the free-flight
      draw at position `pos`. */
  function MediumHit(t1: real, t2: real, density: real, phase: Material, r: Ray, tMin: real, tMax: real,
                     rec: HitRecord, env: Env, pos: nat): (o: HitOutcome)
    requires density > 0.0
    ensures o.found.Some? ==> FFMax(tMin, 0.0) <= o.found.value.t < tMax
    ensures o.found.Some? ==> o.found.value.p == PointAtParameter(r, o.found.value.t)
    ensures o.found.Some? ==> o.found.value.normal == Vector3(1.0, 0.0, 0.0) && o.found.value.mat == phase
    ensures o.found.Some? ==> o.found.value.u == rec.u && o.found.value.v == rec.v
    ensures o.next == if MediumWindow(t1, t2, tMin, tMax).Some? then pos + 1 else pos
  {
    match MediumWindow(t1, t2, tMin, tMax)
    case None => HitOutcome(None, pos)
    case Some((entry, exit)) => FlightHit(entry, exit, density, phase, r, rec, env, pos)
  }

  /** The free flight through the window [entry, exit): one draw at `pos`, and a
      hit at the flight distance if it ends inside. The record keeps the caller's
      u and v. */
  function FlightHit(entry: real, exit: real, density: real, phase: Material, r: Ray,
                     rec: HitRecord, env: Env, pos: nat): (o: HitOutcome)
    requires density > 0.0
    ensures o.found.Some? ==> entry <= o.found.value.t < exit
    ensures o.found.Some? ==> o.found.value.p == PointAtParameter(r, o.found.value.t)
    ensures o.found.Some? ==> o.found.value.normal == Vector3(1.0, 0.0, 0.0) && o.found.value.mat == phase
    ensures o.found.Some? ==> o.found.value.u == rec.u && o.found.value.v == rec.v
    ensures o.next == pos + 1
  {
    var hitDistance := FlightDistance(density, env.math.negLog(env.drand(pos)));
    match FreeFlight(entry, exit, Length(r.direction, env.math), hitDistance)
    case None => HitOutcome(None, pos + 1)
    case Some(t) => HitOutcome(Some(HitRecord(t, PointAtParameter(r, t), Vector3(1.0, 0.0, 0.0), phase, rec.u, rec.v)), pos + 1)
  }

  /** One iteration of the loop of HitableList::hit: child i is asked for a hit in
      (tMin, closestSoFar) with tempRec as its record; on a hit, hitAnything is set,
      closestSoFar becomes the new t and tempRec the new record. */
  function ListStep(parent: Hitable, i: nat, r: Ray, tMin: real, s: ListState, env: Env): (o: ListState)
    requires parent.HitableList? && WellFormed(parent) && i < |parent.list|
    decreases parent, 0, 0
  {
    var o := Hit(parent.list[i], r, tMin, s.closest, s.temp, env, s.pos);
    if o.found.Some? then ListState(true, o.found.value.t, o.found.value, o.next) else s.(pos := o.next)
  }

  /** The loop of HitableList::hit from child i on. */
  function ListFold(parent: Hitable, i: nat, r: Ray, tMin: real, s: ListState, env: Env): (o: ListState)
    requires parent.HitableList? && WellFormed(parent) && i <= |parent.list|
    decreases parent, 0, |parent.list| - i + 1
  {
    if i == |parent.list| then s
    else ListFold(parent, i + 1, r, tMin, ListStep(parent, i, r, tMin, s, env), env)
  }

  /** The answer of boundingBox(t0, t1, box): its result and the box it leaves in
      the out-parameter (the caller's `box` where it writes none). */
  datatype BoxQuery = BoxQuery(ok: bool, box: AABB)

  /** Hitable::boundingBox. */
  function BoundingBox(h: Hitable, t0: real, t1: real, box: AABB): (q: BoxQuery)
    requires WellFormed(h)
    decreases h, 1
  {
    match h
    case Sphere(center, radius, _) => BoxQuery(true, SphereBox(center, radius))
    case MovingSphere(center0, center1, time0, time1, radius, _) =>
      BoxQuery(true, MovingSphereBox(center0, center1, time0, time1, radius, t0, t1))
    case Rect(pl, a0, a1, b0, b1, k, _) => BoxQuery(true, RectBox(pl, a0, a1, b0, b1, k))
    case Box(pmin, pmax, _) => BoxQuery(true, AABB(pmin, pmax))
    case HitableList(list) =>
      if |list| < 1 then BoxQuery(false, box)
      else
        // tempBox starts uninitialised
        var first := BoundingBox(list[0], t0, t1, Unset);
        if !first.ok then BoxQuery(false, box)
        else ListBoxLoop(h, 1, t0, t1, first.box, first.box)
    case BVHNode(_, _, b) => BoxQuery(true, b)
    case FlipNormals(ptr) => BoundingBox(ptr, t0, t1, box)
    case Translate(ptr, offset) =>
      var q := BoundingBox(ptr, t0, t1, box);
      if q.ok then BoxQuery(true, AABB(Add(q.box.min, offset), Add(q.box.max, offset))) else q
    case RotateY(_, _, _, hasBox, bBox) => BoxQuery(hasBox, bBox)
    case ConstantMedium(boundary, _, _) => BoundingBox(boundary, t0, t1, box)
  }

  /** The second loop of HitableList::boundingBox from iteration i on, with `acc`
      in the out-parameter and `temp` in tempBox. As written, every iteration asks
      list[0] (not list[i]) for its box. */
  function ListBoxLoop(parent: Hitable, i: nat, t0: real, t1: real, acc: AABB, temp: AABB): (q: BoxQuery)
    requires parent.HitableList? && WellFormed(parent) && 1 <= i <= |parent.list|
    decreases parent, 0, |parent.list| - i
  {
    if i == |parent.list| then BoxQuery(true, acc)
    else
      var q := BoundingBox(parent.list[0], t0, t1, temp);
      if q.ok then ListBoxLoop(parent, i + 1, t0, t1, SurroundingBox(acc, q.box), q.box)
      else BoxQuery(false, acc)
  }
}
