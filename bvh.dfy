// hitable.h: the BVHNode constructor and its three comparators. The constructor
// draws an axis, sorts its slice of the array of Hitable* in place with qsort, and
// builds two children over the two halves; each node stores the box around its
// children. The node's hit and boundingBox are the BVHNode cases of
// Hitables.Hit and Hitables.BoundingBox.
module Bvh {
  import opened Optional
  import opened Vectors
  import opened Rays
  import opened Draws
  import Aabbs
  import opened Materials
  import opened Hitables
  import opened BvhPlans

  /** boxXCompare, boxYCompare and boxZCompare on `axis` 0, 1 and 2. Both operands are
      read from the first argument, so `b` plays no part: the box of `a` is asked
      twice (the second time only when the first answer is true, by the short-circuit
      `||`), both boxes starting as AABB(), and the result is -1 when the difference
      of the two min coordinates is negative, otherwise 1. */
  function Compare(a: Hitable, b: Hitable, axis: int): (c: int)
    requires 0 <= axis < 3 && WellFormed(a)
    ensures c == -1 || c == 1
  {
    var boxLeft := BoundingBox(a, 0.0, 0.0, Aabbs.Unset);
    var boxRight := if boxLeft.ok then BoundingBox(a, 0.0, 0.0, Aabbs.Unset).box else Aabbs.Unset;
    if At(boxLeft.box.min, axis) - At(boxRight.min, axis) < 0.0 then -1 else 1
  }

  /** Whatever the second element, every comparison of an element that has a box
      answers 1 ("greater"); the answer never depends on the second element. */
  lemma CompareIgnoresSecond(a: Hitable, b1: Hitable, b2: Hitable, axis: int)
    requires 0 <= axis < 3 && WellFormed(a)
    ensures Compare(a, b1, axis) == Compare(a, b2, axis)
    ensures BoundingBox(a, 0.0, 0.0, Aabbs.Unset).ok ==> Compare(a, b1, axis) == 1
  {
  }

  /** The box the constructor stores: boxLeft and boxRight start as AABB(); the right
      child is asked only when the left one answered true. */
  function NodeBox(left: Hitable, right: Hitable, t0: real, t1: real): (box: Aabbs.AABB)
    requires WellFormed(left) && WellFormed(right)
  {
    var boxLeft := BoundingBox(left, t0, t1, Aabbs.Unset);
    var boxRight := if boxLeft.ok then BoundingBox(right, t0, t1, Aabbs.Unset).box else Aabbs.Unset;
    Aabbs.SurroundingBox(boxLeft.box, boxRight)
  }

  /** Every element of the slice is well formed. */
  predicate AllWellFormed(s: seq<Hitable>) {
    forall h :: h in s ==> WellFormed(h)
  }

  /** Every element under a shape is well formed. */
  predicate LeavesWellFormed(s: Shape<Hitable>) {
    forall h :: h in Leaves(s) ==> WellFormed(h)
  }

  /** The BVHNode of a shape, each node storing the box around its children as the
      constructor computes it over (t0, t1). */
  function Node(s: Shape<Hitable>, t0: real, t1: real): (h: Hitable)
    requires LeavesWellFormed(s)
    ensures h.BVHNode? && WellFormed(h)
  {
    match s
    case One(leaf) => BVHNode(leaf, leaf, NodeBox(leaf, leaf, t0, t1))
    case Two(first, second) => BVHNode(first, second, NodeBox(first, second, t0, t1))
    case Halves(left, right) =>
      var l := Node(left, t0, t1);
      var r := Node(right, t0, t1);
      BVHNode(l, r, NodeBox(l, r, t0, t1))
  }

  /** The node BVHNode(l, n, time0, time1) constructs over the slice `seg`. */
  function Build(seg: seq<Hitable>, t0: real, t1: real, sort: Sorter<Hitable>, drand: Stream, pos: nat): (h: Hitable)
    requires |seg| >= 1 && AllWellFormed(seg)
    ensures h.BVHNode? && WellFormed(h)
  {
    PlanLeaves(seg, sort, drand, pos);
    Node(PlanOf(seg, sort, drand, pos).shape, t0, t1)
  }

  /** The constructor on the slice `seg` = l[lo..lo + n]: it sorts the slice in place,
      then builds the children, the second one over the upper half of the sorted
      slice. The node is the one Build describes, the slice is left as PlanOf says,
      and the rest of the array is untouched. For n == 0 the source recurses
      without end, so n >= 1 is required. */
  method NewBVHNode(l: array<Hitable>, lo: nat, n: nat, t0: real, t1: real, sort: Sorter<Hitable>,
                    drand: Stream, pos: nat, ghost seg: seq<Hitable>) returns (node: Hitable, next: nat)
    requires 1 <= n && lo + n <= l.Length
    requires l[lo..lo + n] == seg && AllWellFormed(seg)
    modifies l
    ensures node == Build(seg, t0, t1, sort, drand, pos)
    ensures next == PlanOf(seg, sort, drand, pos).next
    ensures l[..] == Splice(old(l[..]), lo, PlanOf(seg, sort, drand, pos).arranged, n)
    decreases n, 2
  {
    var sorted := sort(Axis(drand, pos), l[lo..lo + n]);
    BuildStep(seg, t0, t1, sort, drand, pos);
    SortInPlace(l, lo, sorted);
    var left, right;
    if n == 1 {
      left, right, next := l[lo], l[lo], pos + 1;
    } else if n == 2 {
      left, right, next := l[lo], l[lo + 1], pos + 1;
    } else {
      left, right, next := NewChildren(l, lo, n, t0, t1, sort, drand, pos + 1, sorted);
      SpliceOver(old(l[..]), lo, sorted, PlanOf(seg, sort, drand, pos).arranged, n);
    }
    var boxLeft := BoundingBox(left, t0, t1, Aabbs.Unset);
    var boxRight := Aabbs.Unset;
    if boxLeft.ok {
      boxRight := BoundingBox(right, t0, t1, Aabbs.Unset).box;
    }
    node := BVHNode(left, right, Aabbs.SurroundingBox(boxLeft.box, boxRight));
  }

  /** One level of Build: the sorted slice's one or two elements are the children,
      or the nodes built over its halves are. */
  lemma BuildStep(seg: seq<Hitable>, t0: real, t1: real, sort: Sorter<Hitable>, drand: Stream, pos: nat)
    requires |seg| >= 1 && AllWellFormed(seg)
    ensures var l := sort(Axis(drand, pos), seg);
      |l| == |seg| && AllWellFormed(l) &&
      var node := Build(seg, t0, t1, sort, drand, pos);
      (|seg| == 1 ==> node == BVHNode(l[0], l[0], NodeBox(l[0], l[0], t0, t1))) &&
      (|seg| == 2 ==> node == BVHNode(l[0], l[1], NodeBox(l[0], l[1], t0, t1))) &&
      (|seg| > 2 ==>
        var left := Build(l[..|seg| / 2], t0, t1, sort, drand, pos + 1);
        var right := Build(l[|seg| / 2..], t0, t1, sort, drand, PlanOf(l[..|seg| / 2], sort, drand, pos + 1).next);
        node == BVHNode(left, right, NodeBox(left, right, t0, t1)))
  {
    var l := sort(Axis(drand, pos), seg);
    SortedWellFormed(seg, l);
    PlanLeaves(seg, sort, drand, pos);
    if |seg| > 2 {
      PlanLeaves(l[..|seg| / 2], sort, drand, pos + 1);
      PlanLeaves(l[|seg| / 2..], sort, drand, PlanOf(l[..|seg| / 2], sort, drand, pos + 1).next);
    }
  }

  /** A rearrangement keeps the length and the well-formedness of every element. */
  lemma SortedWellFormed(s: seq<Hitable>, l: seq<Hitable>)
    requires AllWellFormed(s) && multiset(l) == multiset(s)
    ensures |l| == |s| && AllWellFormed(l)
  {
    assert |multiset(l)| == |multiset(s)|;
    forall h | h in l
      ensures WellFormed(h)
    {
      assert h in multiset(s);
    }
  }

  /** Both halves of a well-formed slice are well formed. */
  lemma HalvesWellFormed(seg: seq<Hitable>, h: nat)
    requires h <= |seg| && AllWellFormed(seg)
    ensures AllWellFormed(seg[..h]) && AllWellFormed(seg[h..])
  {
    forall x | x in seg[..h] ensures WellFormed(x) { assert x in seg; }
    forall x | x in seg[h..] ensures WellFormed(x) { assert x in seg; }
  }

  /** qsort's effect on the array: the slice from `lo` now holds `sorted`. */
  method SortInPlace(l: array<Hitable>, lo: nat, sorted: seq<Hitable>)
    requires lo + |sorted| <= l.Length
    modifies l
    ensures l[..] == Splice(old(l[..]), lo, sorted, |sorted|)
  {
    forall i | lo <= i < lo + |sorted| {
      l[i] := sorted[i - lo];
    }
    assert l[..] == Splice(old(l[..]), lo, sorted, |sorted|);
  }

  /** The two recursive constructions of BVHNode(l, n, ...) for n > 2, on the
      slice `seg` = l[lo..lo + n]: one over its lower half from draw `pos`, then one
      over the rest from where the first stopped. */
  method NewChildren(l: array<Hitable>, lo: nat, n: nat, t0: real, t1: real, sort: Sorter<Hitable>,
                     drand: Stream, pos: nat, ghost seg: seq<Hitable>)
    returns (left: Hitable, right: Hitable, next: nat)
    requires 3 <= n && lo + n <= l.Length
    requires l[lo..lo + n] == seg && AllWellFormed(seg)
    modifies l
    ensures left == Build(seg[..n / 2], t0, t1, sort, drand, pos)
    ensures right == Build(seg[n / 2..], t0, t1, sort, drand, PlanOf(seg[..n / 2], sort, drand, pos).next)
    ensures next == PlanOf(seg[n / 2..], sort, drand, PlanOf(seg[..n / 2], sort, drand, pos).next).next
    ensures l[..] == Splice(old(l[..]), lo, PlanOf(seg[..n / 2], sort, drand, pos).arranged +
      PlanOf(seg[n / 2..], sort, drand, PlanOf(seg[..n / 2], sort, drand, pos).next).arranged, n)
    decreases n, 1
  {
    var h := n / 2;
    ghost var w0 := l[..];
    HalvesWellFormed(seg, h);
    LowerSlice(w0, lo, h, n, seg);
    assert l[lo..lo + h] == seg[..h];
    var p;
    left, p := NewBVHNode(l, lo, h, t0, t1, sort, drand, pos, seg[..h]);
    right, next := NewRightChild(l, lo, n, t0, t1, sort, drand, pos, p, seg, w0);
  }

  /** The second construction of BVHNode(l, n, ...), over l + n / 2: the upper part
      of the slice `seg` = w0[lo..lo + n] is still in place after the first one
      rearranged the lower part, and once this one is done the whole slice holds the
      two arrangements in order. */
  method NewRightChild(l: array<Hitable>, lo: nat, n: nat, t0: real, t1: real, sort: Sorter<Hitable>,
                       drand: Stream, pos: nat, p: nat, ghost seg: seq<Hitable>, ghost w0: seq<Hitable>)
    returns (right: Hitable, next: nat)
    requires 3 <= n && lo + n <= l.Length == |w0|
    requires w0[lo..lo + n] == seg && AllWellFormed(seg[n / 2..])
    requires p == PlanOf(seg[..n / 2], sort, drand, pos).next
    requires l[..] == Splice(w0, lo, PlanOf(seg[..n / 2], sort, drand, pos).arranged, n / 2)
    modifies l
    ensures right == Build(seg[n / 2..], t0, t1, sort, drand, p)
    ensures next == PlanOf(seg[n / 2..], sort, drand, p).next
    ensures l[..] == Splice(w0, lo, PlanOf(seg[..n / 2], sort, drand, pos).arranged +
      PlanOf(seg[n / 2..], sort, drand, p).arranged, n)
    decreases n, 0
  {
    var h := n / 2;
    ghost var a := PlanOf(seg[..h], sort, drand, pos).arranged;
    ghost var b := PlanOf(seg[h..], sort, drand, p).arranged;
    ghost var w1 := l[..];
    UpperInPlace(w0, w1, lo, h, n, seg, a);
    assert l[lo + h..lo + n] == seg[h..];
    right, next := NewBVHNode(l, lo + h, n - h, t0, t1, sort, drand, p, seg[h..]);
    SpliceHalves(w0, w1, l[..], lo, h, n, a, b);
  }
}
