// hitableList.h: the closest-hit loop of HitableList::hit and the box loop of
// HitableList::boundingBox, as the loops they are, proved equal to the recursive
// definitions the rest of the model uses (ListHit and the HitableList case of
// BoundingBox in module Hitables); and what the closest-hit loop promises.
module HitableLists {
  import opened Optional
  import opened Vectors
  import opened Rays
  import Aabbs
  import opened Materials
  import opened Spheres
  import opened Hitables
  import opened HitProperties
  import opened ListScans

  /** The loop state of HitableList::hit after the first i children. */
  function ListUpTo(parent: Hitable, i: nat, r: Ray, tMin: real, tMax: real, env: Env, pos: nat): ListState
    requires parent.HitableList? && WellFormed(parent) && i <= |parent.list|
  {
    if i == 0 then ListState(false, tMax, Blank, pos)
    else ListStep(parent, i - 1, r, tMin, ListUpTo(parent, i - 1, r, tMin, tMax, env, pos), env)
  }

  /** Child i's answer inside the loop: asked for (tMin, closestSoFar) with
      tempRec as its record, at the stream position the earlier children left. */
  function Asked(parent: Hitable, i: nat, r: Ray, tMin: real, tMax: real, env: Env, pos: nat): HitOutcome
    requires parent.HitableList? && WellFormed(parent) && i < |parent.list|
  {
    var s := ListUpTo(parent, i, r, tMin, tMax, env, pos);
    Hit(parent.list[i], r, tMin, s.closest, s.temp, env, s.pos)
  }

  /** Running the rest of the loop from the state after i children gives the state
      after all of them. */
  lemma {:induction false} FoldFromPrefix(parent: Hitable, i: nat, r: Ray, tMin: real, tMax: real, env: Env, pos: nat)
    requires parent.HitableList? && WellFormed(parent) && i <= |parent.list|
    ensures ListFold(parent, i, r, tMin, ListUpTo(parent, i, r, tMin, tMax, env, pos), env)
         == ListUpTo(parent, |parent.list|, r, tMin, tMax, env, pos)
    decreases |parent.list| - i
  {
    if i < |parent.list| {
      FoldFromPrefix(parent, i + 1, r, tMin, tMax, env, pos);
    }
  }

  /** HitableList::hit is the state after the last child. */
  lemma ListHitIsLastState(parent: Hitable, r: Ray, tMin: real, tMax: real, rec: HitRecord, env: Env, pos: nat)
    requires parent.HitableList? && WellFormed(parent)
    ensures var s := ListUpTo(parent, |parent.list|, r, tMin, tMax, env, pos);
      Hit(parent, r, tMin, tMax, rec, env, pos) == HitOutcome(if s.hitAnything then Some(s.temp) else None, s.pos)
  {
    FoldFromPrefix(parent, 0, r, tMin, tMax, env, pos);
  }

  /** HitableList::hit as written: the loop over the children, with tempRec,
      hitAnything and closestSoFar, writing rec on every hit. `rec0` is the
      caller's record, left as it was when nothing is hit. */
  method HitLoop(parent: Hitable, r: Ray, tMin: real, tMax: real, rec0: HitRecord, env: Env, pos: nat)
    returns (hitAnything: bool, rec: HitRecord, next: nat)
    requires parent.HitableList? && WellFormed(parent)
    ensures hitAnything <==> Hit(parent, r, tMin, tMax, rec0, env, pos).found.Some?
    ensures hitAnything ==> rec == Hit(parent, r, tMin, tMax, rec0, env, pos).found.value
    ensures !hitAnything ==> rec == rec0
    ensures next == Hit(parent, r, tMin, tMax, rec0, env, pos).next
  {
    var tempRec := Blank;
    hitAnything := false;
    var closestSoFar := tMax;
    rec := rec0;
    next := pos;
    for i := 0 to |parent.list|
      invariant ListState(hitAnything, closestSoFar, tempRec, next) == ListUpTo(parent, i, r, tMin, tMax, env, pos)
      invariant hitAnything ==> rec == tempRec
      invariant !hitAnything ==> rec == rec0
    {
      var o := Hit(parent.list[i], r, tMin, closestSoFar, tempRec, env, next);
      next := o.next;
      if o.found.Some? {
        hitAnything := true;
        tempRec := o.found.value;
        closestSoFar := tempRec.t;
        rec := tempRec;
      }
    }
    ListHitIsLastState(parent, r, tMin, tMax, rec0, env, pos);
  }

  /** The answers of the first i children, in order. */
  function Answers(parent: Hitable, i: nat, r: Ray, tMin: real, tMax: real, env: Env, pos: nat): (ans: seq<Option<HitRecord>>)
    requires parent.HitableList? && WellFormed(parent) && i <= |parent.list|
    ensures |ans| == i
  {
    seq(i, k requires 0 <= k < i => Asked(parent, k, r, tMin, tMax, env, pos).found)
  }

  /** The answers of the first i children are those of the first i - 1, then child
      i - 1's. */
  lemma AnswersSnoc(parent: Hitable, i: nat, r: Ray, tMin: real, tMax: real, env: Env, pos: nat)
    requires parent.HitableList? && WellFormed(parent) && 0 < i <= |parent.list|
    ensures Answers(parent, i, r, tMin, tMax, env, pos)
         == Answers(parent, i - 1, r, tMin, tMax, env, pos) + [Asked(parent, i - 1, r, tMin, tMax, env, pos).found]
  {
    SnocOf(Answers(parent, i, r, tMin, tMax, env, pos), Answers(parent, i - 1, r, tMin, tMax, env, pos),
           Asked(parent, i - 1, r, tMin, tMax, env, pos).found);
  }

  /** A sequence one longer than b, starting with b and ending in x, is b + [x]. */
  lemma SnocOf<T>(a: seq<T>, b: seq<T>, x: T)
    requires |a| == |b| + 1 && a[..|b|] == b && a[|b|] == x
    ensures a == b + [x]
  {
    assert a == a[..|b|] + [a[|b|]];
  }

  /** The loop state after i children is the bookkeeping of their answers. */
  lemma {:induction false} StateIsScan(parent: Hitable, i: nat, r: Ray, tMin: real, tMax: real, env: Env, pos: nat)
    requires parent.HitableList? && WellFormed(parent) && i <= |parent.list|
    ensures var s := ListUpTo(parent, i, r, tMin, tMax, env, pos);
      Scan(s.hitAnything, s.closest, s.temp) == ScanOf(Answers(parent, i, r, tMin, tMax, env, pos), tMax)
    decreases i
  {
    if i > 0 {
      var prev := ListUpTo(parent, i - 1, r, tMin, tMax, env, pos);
      var o := Asked(parent, i - 1, r, tMin, tMax, env, pos);
      StateIsScan(parent, i - 1, r, tMin, tMax, env, pos);
      assert ListUpTo(parent, i, r, tMin, tMax, env, pos) == ListStep(parent, i - 1, r, tMin, prev, env);
      AnswersSnoc(parent, i, r, tMin, tMax, env, pos);
      ScanStep(prev, o.found, o.next, Answers(parent, i - 1, r, tMin, tMax, env, pos), tMax);
    }
  }

  /** One turn of the loop keeps the state equal to the bookkeeping of the answers. */
  lemma ScanStep(prev: ListState, a: Option<HitRecord>, next: nat, before: seq<Option<HitRecord>>, tMax: real)
    requires Scan(prev.hitAnything, prev.closest, prev.temp) == ScanOf(before, tMax)
    ensures var s := if a.Some? then ListState(true, a.value.t, a.value, next) else prev.(pos := next);
      Scan(s.hitAnything, s.closest, s.temp) == ScanOf(before + [a], tMax)
  {
    ScanOfPrefix(before, a, tMax);
  }

  /** Every child answers inside the window it is asked for. */
  lemma AnswersHonoured(parent: Hitable, i: nat, r: Ray, tMin: real, tMax: real, env: Env, pos: nat)
    requires parent.HitableList? && WellFormed(parent) && i <= |parent.list|
    ensures Honoured(Answers(parent, i, r, tMin, tMax, env, pos), tMin, tMax)
  {
    var ans := Answers(parent, i, r, tMin, tMax, env, pos);
    forall k | 0 <= k < |ans| && ans[k].Some?
      ensures tMin <= ans[k].value.t <= ScanOf(ans[..k], tMax).closest
    {
      AnswersPrefix(parent, i, k, r, tMin, tMax, env, pos);
      AskedInWindow(parent, k, r, tMin, tMax, env, pos);
    }
  }

  /** Answer k in the answers of the first i children is child k's, after the
      answers of the first k. */
  lemma AnswersPrefix(parent: Hitable, i: nat, k: nat, r: Ray, tMin: real, tMax: real, env: Env, pos: nat)
    requires parent.HitableList? && WellFormed(parent) && k < i <= |parent.list|
    ensures var ans := Answers(parent, i, r, tMin, tMax, env, pos);
      ans[k] == Asked(parent, k, r, tMin, tMax, env, pos).found &&
      ans[..k] == Answers(parent, k, r, tMin, tMax, env, pos)
  {
    assert Answers(parent, i, r, tMin, tMax, env, pos)[..k] == Answers(parent, k, r, tMin, tMax, env, pos);
  }

  /** Child i answers inside [tMin, closestSoFar]. */
  lemma AskedInWindow(parent: Hitable, i: nat, r: Ray, tMin: real, tMax: real, env: Env, pos: nat)
    requires parent.HitableList? && WellFormed(parent) && i < |parent.list|
    ensures var o := Asked(parent, i, r, tMin, tMax, env, pos);
      o.found.Some? ==> tMin <= o.found.value.t <= ScanOf(Answers(parent, i, r, tMin, tMax, env, pos), tMax).closest
  {
    var prev := ListUpTo(parent, i, r, tMin, tMax, env, pos);
    HitWindow(parent.list[i], r, tMin, prev.closest, prev.temp, env, prev.pos);
    StateIsScan(parent, i, r, tMin, tMax, env, pos);
  }

  /** One more answer inside its window keeps all answers inside theirs. */
  lemma NextHonoured(init: seq<Option<HitRecord>>, a: Option<HitRecord>, tMin: real, tMax: real)
    requires Honoured(init, tMin, tMax)
    requires a.Some? ==> tMin <= a.value.t <= ScanOf(init, tMax).closest
    ensures Honoured(init + [a], tMin, tMax)
  {
    var ans := init + [a];
    forall k | 0 <= k < |ans| && ans[k].Some?
      ensures tMin <= ans[k].value.t <= ScanOf(ans[..k], tMax).closest
    {
      if k < |init| {
        assert ans[k] == init[k] && ans[..k] == init[..k];
      } else {
        assert ans[..k] == init;
      }
    }
  }

  /** What HitableList::hit promises, about the answers its children give in the
      loop: false exactly when none of them is a hit; otherwise the record of the
      last child that hit, whose t lies in [tMin, tMax] and is the least t among
      all the answers. */
  lemma ListHitClosest(parent: Hitable, r: Ray, tMin: real, tMax: real, rec: HitRecord, env: Env, pos: nat)
    requires parent.HitableList? && WellFormed(parent)
    ensures var o := Hit(parent, r, tMin, tMax, rec, env, pos);
      var ans := Answers(parent, |parent.list|, r, tMin, tMax, env, pos);
      (o.found.None? <==> forall k :: 0 <= k < |ans| ==> ans[k].None?) &&
      (o.found.Some? ==> tMin <= o.found.value.t <= tMax) &&
      (o.found.Some? ==> exists k :: LastHit(ans, k, o.found.value)) &&
      (o.found.Some? ==> forall k :: 0 <= k < |ans| && ans[k].Some? ==> o.found.value.t <= ans[k].value.t)
  {
    var n := |parent.list|;
    var ans := Answers(parent, n, r, tMin, tMax, env, pos);
    ListHitIsLastState(parent, r, tMin, tMax, rec, env, pos);
    StateIsScan(parent, n, r, tMin, tMax, env, pos);
    AnswersHonoured(parent, n, r, tMin, tMax, env, pos);
    ScanAny(ans, tMax);
    ScanLeast(ans, tMin, tMax);
    if ScanOf(ans, tMax).hitAnything {
      ScanLast(ans, tMax);
    }
  }

  /** Each child is asked with closestSoFar as its upper bound: tMax for the first
      one, then never larger than for the one before. */
  lemma {:induction false} ClosestNonIncreasing(parent: Hitable, i: nat, r: Ray, tMin: real, tMax: real, env: Env, pos: nat)
    requires parent.HitableList? && WellFormed(parent) && i < |parent.list|
    ensures ListUpTo(parent, 0, r, tMin, tMax, env, pos).closest == tMax
    ensures ListUpTo(parent, i + 1, r, tMin, tMax, env, pos).closest <= ListUpTo(parent, i, r, tMin, tMax, env, pos).closest
  {
    var prev := ListUpTo(parent, i, r, tMin, tMax, env, pos);
    HitWindow(parent.list[i], r, tMin, prev.closest, prev.temp, env, prev.pos);
  }

  // ------------------------------------------------------------ the box loop

  /** HitableList::boundingBox as written: false for an empty list or when the
      first child has no box; then, for i from 1, list[0] is asked again (not
      list[i]) and its box merged in. `box0` is the caller's box. */
  method BoundingBoxLoop(parent: Hitable, t0: real, t1: real, box0: Aabbs.AABB) returns (ok: bool, box: Aabbs.AABB)
    requires parent.HitableList? && WellFormed(parent)
    ensures BoxQuery(ok, box) == BoundingBox(parent, t0, t1, box0)
  {
    var list := parent.list;
    if |list| < 1 {
      return false, box0;
    }
    var tempBox := Aabbs.Unset;
    var first := BoundingBox(list[0], t0, t1, tempBox);
    tempBox := first.box;
    if !first.ok {
      return false, box0;
    }
    box := tempBox;
    for i := 1 to |list|
      invariant ListBoxLoop(parent, i, t0, t1, box, tempBox) == BoundingBox(parent, t0, t1, box0)
    {
      var q := BoundingBox(list[0], t0, t1, tempBox);
      tempBox := q.box;
      if q.ok {
        box := Aabbs.SurroundingBox(box, tempBox);
      } else {
        return false, box;
      }
    }
    ok := true;
  }

  /** Merging list[0]'s own box into itself leaves it as it is, from any iteration
      on. */
  lemma {:induction false} LoopKeepsFirst(parent: Hitable, i: nat, t0: real, t1: real, temp: Aabbs.AABB)
    requires parent.HitableList? && WellFormed(parent) && 1 <= i <= |parent.list|
    requires BoundingBox(parent.list[0], t0, t1, Aabbs.Unset).ok
    ensures ListBoxLoop(parent, i, t0, t1, BoundingBox(parent.list[0], t0, t1, Aabbs.Unset).box, temp)
         == BoxQuery(true, BoundingBox(parent.list[0], t0, t1, Aabbs.Unset).box)
    decreases |parent.list| - i
  {
    var first := BoundingBox(parent.list[0], t0, t1, Aabbs.Unset);
    if i < |parent.list| {
      BoxQueryIndependent(parent.list[0], t0, t1, temp, Aabbs.Unset);
      Aabbs.SurroundingIdempotent(first.box);
      LoopKeepsFirst(parent, i + 1, t0, t1, BoundingBox(parent.list[0], t0, t1, temp).box);
    }
  }

  /** Because the loop asks list[0] every time, the list's box is exactly its first
      child's: it exists exactly when the list is not empty and the first child has
      one. */
  lemma ListBoxIsFirst(parent: Hitable, t0: real, t1: real, box: Aabbs.AABB)
    requires parent.HitableList? && WellFormed(parent)
    ensures BoundingBox(parent, t0, t1, box).ok <==>
      |parent.list| >= 1 && BoundingBox(parent.list[0], t0, t1, Aabbs.Unset).ok
    ensures BoundingBox(parent, t0, t1, box).ok ==>
      BoundingBox(parent, t0, t1, box).box == BoundingBox(parent.list[0], t0, t1, Aabbs.Unset).box
  {
    if |parent.list| >= 1 && BoundingBox(parent.list[0], t0, t1, Aabbs.Unset).ok {
      var first := BoundingBox(parent.list[0], t0, t1, Aabbs.Unset);
      LoopKeepsFirst(parent, 1, t0, t1, first.box);
    }
  }

  /** So the box of a list need not enclose its second child: for unit spheres at
      the origin and at (10, 0, 0) it is the first sphere's box. */
  lemma ListBoxMissesSecondChild()
    ensures var second := Sphere(Vector3(10.0, 0.0, 0.0), 1.0, Metal(Zero, 0.0));
      var list := HitableList([Sphere(Zero, 1.0, Metal(Zero, 0.0)), second]);
      WellFormed(list) && BoundingBox(list, 0.0, 1.0, Aabbs.Unset).ok &&
      !Aabbs.Contains(BoundingBox(list, 0.0, 1.0, Aabbs.Unset).box, BoundingBox(second, 0.0, 1.0, Aabbs.Unset).box)
  {
    var second := Sphere(Vector3(10.0, 0.0, 0.0), 1.0, Metal(Zero, 0.0));
    var list := HitableList([Sphere(Zero, 1.0, Metal(Zero, 0.0)), second]);
    ListBoxIsFirst(list, 0.0, 1.0, Aabbs.Unset);
  }
}
