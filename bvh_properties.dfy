// Properties of BVH nodes (hitable.h): the boxes the constructor stores enclose
// the boxes of everything under them, and BVHNode::hit prunes by its box and
// answers the nearer of its children's hits.
module BvhProperties {
  import opened Optional
  import opened Rays
  import opened Draws
  import Aabbs
  import opened Materials
  import opened Hitables
  import opened HitProperties
  import opened BvhPlans
  import opened Bvh

  /** The stored box contains the left child's box; it contains the right child's
      box too when both children have one; and when the left child has none the
      right one is not consulted. */
  lemma NodeBoxEncloses(left: Hitable, right: Hitable, t0: real, t1: real)
    requires WellFormed(left) && WellFormed(right)
    ensures Aabbs.Contains(NodeBox(left, right, t0, t1), BoundingBox(left, t0, t1, Aabbs.Unset).box)
    ensures BoundingBox(left, t0, t1, Aabbs.Unset).ok && BoundingBox(right, t0, t1, Aabbs.Unset).ok ==>
      Aabbs.Contains(NodeBox(left, right, t0, t1), BoundingBox(right, t0, t1, Aabbs.Unset).box)
    ensures !BoundingBox(left, t0, t1, Aabbs.Unset).ok ==>
      NodeBox(left, right, t0, t1) == Aabbs.SurroundingBox(BoundingBox(left, t0, t1, Aabbs.Unset).box, Aabbs.Unset)
  {
  }

  /** Every element under the shape has a box over (t0, t1). */
  predicate LeavesHaveBoxes(s: Shape<Hitable>, t0: real, t1: real)
    requires LeavesWellFormed(s)
  {
    forall h :: h in Leaves(s) ==> BoundingBox(h, t0, t1, Aabbs.Unset).ok
  }

  /** When every element has a box, the box a node stores encloses the box of every
      element under it, so a ray that misses the node's box misses all their boxes. */
  lemma {:induction false} BoxesEnclose(s: Shape<Hitable>, t0: real, t1: real, h: Hitable)
    requires LeavesWellFormed(s) && LeavesHaveBoxes(s, t0, t1) && h in Leaves(s)
    ensures Aabbs.Contains(Node(s, t0, t1).box, BoundingBox(h, t0, t1, Aabbs.Unset).box)
  {
    match s
    case One(leaf) =>
      NodeBoxEncloses(leaf, leaf, t0, t1);
    case Two(first, second) =>
      NodeBoxEncloses(first, second, t0, t1);
    case Halves(left, right) =>
      var l := Node(left, t0, t1);
      var r := Node(right, t0, t1);
      assert BoundingBox(l, t0, t1, Aabbs.Unset).box == l.box;
      assert BoundingBox(r, t0, t1, Aabbs.Unset).box == r.box;
      NodeBoxEncloses(l, r, t0, t1);
      if h in Leaves(left) {
        BoxesEnclose(left, t0, t1, h);
      } else {
        BoxesEnclose(right, t0, t1, h);
      }
  }

  /** The node the constructor builds over a slice whose every element has a box
      encloses each element's box. */
  lemma BuildEncloses(seg: seq<Hitable>, t0: real, t1: real, sort: Sorter<Hitable>, drand: Stream, pos: nat, i: nat)
    requires |seg| >= 1 && AllWellFormed(seg)
    requires forall h :: h in seg ==> BoundingBox(h, t0, t1, Aabbs.Unset).ok
    requires i < |seg|
    ensures Aabbs.Contains(Build(seg, t0, t1, sort, drand, pos).box, BoundingBox(seg[i], t0, t1, Aabbs.Unset).box)
  {
    PlanLeaves(seg, sort, drand, pos);
    var shape := PlanOf(seg, sort, drand, pos).shape;
    assert seg[i] in multiset(seg);
    BoxesEnclose(shape, t0, t1, seg[i]);
  }

  /** BVHNode::boundingBox answers the stored box, whatever the window. */
  lemma NodeBoundingBox(node: Hitable, t0: real, t1: real, box: Aabbs.AABB)
    requires node.BVHNode? && WellFormed(node)
    ensures BoundingBox(node, t0, t1, box) == BoxQuery(true, node.box)
  {
  }

  /** BVHNode::hit on a ray that misses the node's box: no hit, and neither child is
      asked, so no draw is consumed. */
  lemma HitMissesBox(node: Hitable, r: Ray, tMin: real, tMax: real, rec: HitRecord, env: Env, pos: nat)
    requires node.BVHNode? && WellFormed(node)
    requires Aabbs.SlabsFrom(node.box, r, 0, tMin, tMax).None?
    ensures Hit(node, r, tMin, tMax, rec, env, pos) == HitOutcome(None, pos)
  {
  }

  /** BVHNode::hit on a ray that meets the node's box: both children are asked over
      the same window, left first; there is a hit exactly when one of them hits, it
      lies in the window, no child hit is nearer, and of two equally near hits the
      right child's wins. */
  lemma HitNearestChild(node: Hitable, r: Ray, tMin: real, tMax: real, rec: HitRecord, env: Env, pos: nat)
    requires node.BVHNode? && WellFormed(node)
    requires Aabbs.SlabsFrom(node.box, r, 0, tMin, tMax).Some?
    ensures var hl := Hit(node.left, r, tMin, tMax, Blank, env, pos);
      var hr := Hit(node.right, r, tMin, tMax, Blank, env, hl.next);
      var o := Hit(node, r, tMin, tMax, rec, env, pos);
      (o.found.Some? <==> hl.found.Some? || hr.found.Some?) &&
      (o.found.Some? ==> tMin <= o.found.value.t <= tMax) &&
      (o.found.Some? && hl.found.Some? ==> o.found.value.t <= hl.found.value.t) &&
      (o.found.Some? && hr.found.Some? ==> o.found.value.t <= hr.found.value.t) &&
      (hl.found.Some? && hr.found.Some? && hl.found.value.t == hr.found.value.t ==> o.found == hr.found) &&
      o.next == hr.next
  {
    var hl := Hit(node.left, r, tMin, tMax, Blank, env, pos);
    HitWindow(node.left, r, tMin, tMax, Blank, env, pos);
    HitWindow(node.right, r, tMin, tMax, Blank, env, hl.next);
  }
}
