// The recursion of the BVHNode constructor (hitable.h) apart from the boxes: which
// axis each node draws, how qsort leaves the slice, which elements end up under
// which node, and how the slice is left once the whole construction is done. It is
// generic in the element type; Bvh puts the boxes on top.
module BvhPlans {
  import opened Draws

  /** qsort over a slice with the comparator of `axis`: the order it leaves depends
      on the C library's algorithm, so it is a parameter of the model; it rearranges
      the slice and nothing more. */
  type Sorter<!T(==,!new)> = f: (int, seq<T>) -> seq<T> |
    forall axis, s :: multiset(f(axis, s)) == multiset(s)
    witness (axis: int, s: seq<T>) => s

  /** The shape of a constructed node: a slice of one element (stored as both
      children), a slice of two, or two nodes built over the two halves. */
  datatype Shape<T> =
    | One(leaf: T)
    | Two(first: T, second: T)
    | Halves(left: Shape<T>, right: Shape<T>)

  /** A node's shape, the drand48 position after its construction, and the order
      in which the construction leaves the slice it was given. */
  datatype Plan<T> = Plan(shape: Shape<T>, next: nat, arranged: seq<T>)

  /** The elements a shape was built from, each counted once. */
  function Leaves<T(==,!new)>(s: Shape<T>): multiset<T> {
    match s
    case One(leaf) => multiset{leaf}
    case Two(first, second) => multiset{first, second}
    case Halves(left, right) => Leaves(left) + Leaves(right)
  }

  /** int(3 * drand48()): 0, 1 or 2. */
  function Axis(drand: Stream, pos: nat): (axis: int)
    ensures 0 <= axis < 3
  {
    ScaledDrawInRange(drand(pos), 2);
    Trunc(3.0 * drand(pos))
  }

  /** BVHNode(l, n, time0, time1) over the slice `seg` (n = |seg|): it draws its axis
      at `pos` and sorts the slice; one or two elements become its children, and
      otherwise its children are built over the lower n / 2 elements and then over
      the rest, with the draws that follow. */
  function PlanOf<T(==,!new)>(seg: seq<T>, sort: Sorter<T>, drand: Stream, pos: nat): (p: Plan<T>)
    requires |seg| >= 1
    ensures p.next > pos && |p.arranged| == |seg|
    decreases |seg|
  {
    var l := sort(Axis(drand, pos), seg);
    assert |multiset(l)| == |multiset(seg)|;
    var n := |l|;
    if n == 1 then Plan(One(l[0]), pos + 1, l)
    else if n == 2 then Plan(Two(l[0], l[1]), pos + 1, l)
    else
      var left := PlanOf(l[..n / 2], sort, drand, pos + 1);
      var right := PlanOf(l[n / 2..], sort, drand, left.next);
      Plan(Halves(left.shape, right.shape), right.next, left.arranged + right.arranged)
  }

  /** Every element of the slice is under the node exactly as often as it occurs in
      the slice, and the construction leaves the slice a rearrangement of itself. */
  lemma {:induction false} PlanLeaves<T(!new)>(seg: seq<T>, sort: Sorter<T>, drand: Stream, pos: nat)
    requires |seg| >= 1
    ensures Leaves(PlanOf(seg, sort, drand, pos).shape) == multiset(seg)
    ensures multiset(PlanOf(seg, sort, drand, pos).arranged) == multiset(seg)
    decreases |seg|
  {
    var l := sort(Axis(drand, pos), seg);
    assert |multiset(l)| == |multiset(seg)|;
    var n := |l|;
    if n == 1 {
      assert l == [l[0]];
    } else if n == 2 {
      assert l == [l[0], l[1]];
    } else {
      var left := PlanOf(l[..n / 2], sort, drand, pos + 1);
      PlanLeaves(l[..n / 2], sort, drand, pos + 1);
      PlanLeaves(l[n / 2..], sort, drand, left.next);
      SplitMultiset(l, n / 2);
    }
  }

  lemma SplitMultiset<T>(l: seq<T>, h: nat)
    requires h <= |l|
    ensures multiset(l) == multiset(l[..h]) + multiset(l[h..])
  {
    assert l == l[..h] + l[h..];
  }

  /** Number of nodes a shape has. */
  function Nodes<T>(s: Shape<T>): nat {
    match s
    case Halves(left, right) => 1 + Nodes(left) + Nodes(right)
    case _ => 1
  }

  /** Each node draws drand48 once, so a construction consumes one draw per node. */
  lemma {:induction false} PlanDraws<T(!new)>(seg: seq<T>, sort: Sorter<T>, drand: Stream, pos: nat)
    requires |seg| >= 1
    ensures PlanOf(seg, sort, drand, pos).next == pos + Nodes(PlanOf(seg, sort, drand, pos).shape)
    decreases |seg|
  {
    var l := sort(Axis(drand, pos), seg);
    assert |multiset(l)| == |multiset(seg)|;
    var n := |l|;
    if n > 2 {
      var left := PlanOf(l[..n / 2], sort, drand, pos + 1);
      PlanDraws(l[..n / 2], sort, drand, pos + 1);
      PlanDraws(l[n / 2..], sort, drand, left.next);
    }
  }

  /** Whatever the draws and the sort, a slice of one element gives a node over that
      element alone, the case in which the constructor stores it as both children. */
  lemma PlanOfOne<T(!new)>(x: T, sort: Sorter<T>, drand: Stream, pos: nat)
    ensures PlanOf([x], sort, drand, pos).shape == One(x)
  {
    var l := sort(Axis(drand, pos), [x]);
    assert |multiset(l)| == 1;
    assert l[0] in multiset([x]);
  }

  /** The array contents `w` with the n elements from `lo` on replaced by `a`. */
  function Splice<T>(w: seq<T>, lo: nat, a: seq<T>, n: nat): (r: seq<T>)
    requires lo + n <= |w| && |a| == n
    ensures |r| == |w| && r[lo..lo + n] == a
  {
    w[..lo] + a + w[lo + n..]
  }

  /** Replacing the lower h elements of a slice and then the rest replaces the whole
      slice by the two replacements in order; the first leaves the rest as it was. */
  lemma SpliceTwice<T>(w0: seq<T>, lo: nat, h: nat, n: nat, a: seq<T>, b: seq<T>)
    requires h <= n && lo + n <= |w0| && |a| == h && |b| == n - h
    ensures Splice(w0, lo, a, h)[lo + h..lo + n] == w0[lo + h..lo + n]
    ensures Splice(Splice(w0, lo, a, h), lo + h, b, n - h) == Splice(w0, lo, a + b, n)
  {
    var w1 := Splice(w0, lo, a, h);
    assert w1[lo + h..lo + n] == w0[lo + h..lo + n];
    assert w1[..lo + h] == w0[..lo] + a;
    assert w1[lo + n..] == w0[lo + n..];
  }

  /** The lower h elements of the slice `seg` = w[lo..lo + n] are seg[..h]. */
  lemma LowerSlice<T>(w: seq<T>, lo: nat, h: nat, n: nat, seg: seq<T>)
    requires h <= n && lo + n <= |w| && w[lo..lo + n] == seg
    ensures w[lo..lo + h] == seg[..h]
  {
    assert w[lo..lo + h] == w[lo..lo + n][..h];
  }

  /** For a slice `seg` = w0[lo..lo + n] cut at h: once its lower part is replaced
      by `a`, its upper part is still seg[h..]. */
  lemma UpperInPlace<T>(w0: seq<T>, w1: seq<T>, lo: nat, h: nat, n: nat, seg: seq<T>, a: seq<T>)
    requires h <= n && lo + n <= |w0| && |a| == h
    requires w0[lo..lo + n] == seg && w1 == Splice(w0, lo, a, h)
    ensures w1[lo + h..lo + n] == seg[h..]
  {
    SpliceTwice(w0, lo, h, n, a, seg[h..]);
    assert w0[lo + h..lo + n] == w0[lo..lo + n][h..];
  }

  /** Replacing the lower part of a slice by `a` and then its upper part by `b`
      leaves a + b in the slice. */
  lemma SpliceHalves<T>(w0: seq<T>, w1: seq<T>, w2: seq<T>, lo: nat, h: nat, n: nat, a: seq<T>, b: seq<T>)
    requires h <= n && lo + n <= |w0| && |a| == h && |b| == n - h
    requires w1 == Splice(w0, lo, a, h) && w2 == Splice(w1, lo + h, b, n - h)
    ensures w2 == Splice(w0, lo, a + b, n)
  {
    SpliceTwice(w0, lo, h, n, a, b);
  }

  /** Replacing a slice twice leaves the second replacement. */
  lemma SpliceOver<T>(w: seq<T>, lo: nat, a: seq<T>, b: seq<T>, n: nat)
    requires lo + n <= |w| && |a| == n && |b| == n
    ensures Splice(Splice(w, lo, a, n), lo, b, n) == Splice(w, lo, b, n)
  {
    var w1 := Splice(w, lo, a, n);
    assert w1[..lo] == w[..lo] && w1[lo + n..] == w[lo + n..];
  }
}
