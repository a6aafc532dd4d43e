// The bookkeeping of HitableList::hit (hitableList.h) on its own: given the
// answers the children gave, in order, the loop keeps hitAnything, closestSoFar
// and tempRec. What the loop promises follows from this bookkeeping alone, and
// from the children answering inside the window they are asked for.
module ListScans {
  import opened Optional
  import opened Materials

  /** hitAnything, closestSoFar and tempRec. */
  datatype Scan = Scan(hitAnything: bool, closest: real, temp: HitRecord)

  /** The bookkeeping after the given answers: a hit replaces the record and
      lowers closestSoFar to its t, a miss changes nothing. */
  function ScanOf(answers: seq<Option<HitRecord>>, tMax: real): Scan
    decreases |answers|
  {
    if |answers| == 0 then Scan(false, tMax, Blank)
    else
      var last := answers[|answers| - 1];
      if last.Some? then Scan(true, last.value.t, last.value)
      else ScanOf(answers[..|answers| - 1], tMax)
  }

  /** Every answer lies in the window it was asked for: [tMin, closestSoFar]. */
  predicate Honoured(answers: seq<Option<HitRecord>>, tMin: real, tMax: real) {
    forall k :: 0 <= k < |answers| && answers[k].Some? ==>
      tMin <= answers[k].value.t <= ScanOf(answers[..k], tMax).closest
  }

  /** hitAnything is true exactly when some answer is a hit. */
  lemma {:induction false} ScanAny(answers: seq<Option<HitRecord>>, tMax: real)
    ensures ScanOf(answers, tMax).hitAnything <==> exists k :: 0 <= k < |answers| && answers[k].Some?
    decreases |answers|
  {
    if |answers| > 0 {
      var init := answers[..|answers| - 1];
      ScanAny(init, tMax);
      if answers[|answers| - 1].None? {
        if exists k :: 0 <= k < |answers| && answers[k].Some? {
          var k :| 0 <= k < |answers| && answers[k].Some?;
          assert init[k] == answers[k];
        }
      }
    }
  }

  /** Answer k is `hit` and every later answer is a miss. */
  predicate LastHit(answers: seq<Option<HitRecord>>, k: int, hit: HitRecord) {
    0 <= k < |answers| && answers[k] == Some(hit) && forall m :: k < m < |answers| ==> answers[m].None?
  }

  /** Once something was hit, tempRec is the last answer that was a hit. */
  lemma {:induction false} ScanLast(answers: seq<Option<HitRecord>>, tMax: real)
    requires ScanOf(answers, tMax).hitAnything
    ensures exists k :: LastHit(answers, k, ScanOf(answers, tMax).temp)
    decreases |answers|
  {
    var n := |answers|;
    if answers[n - 1].None? {
      var init := answers[..n - 1];
      ScanLast(init, tMax);
      var k :| LastHit(init, k, ScanOf(init, tMax).temp);
      assert answers[k] == init[k];
      assert forall m :: k < m < n ==> answers[m].None? by {
        forall m | k < m < n - 1
          ensures answers[m].None?
        {
          assert answers[m] == init[m];
        }
      }
      assert LastHit(answers, k, ScanOf(answers, tMax).temp);
    } else {
      assert LastHit(answers, n - 1, ScanOf(answers, tMax).temp);
    }
  }

  /** When every answer lies in its window, closestSoFar starts at tMax, never
      grows, is tempRec's t once something was hit, lies in [tMin, tMax] then, and
      is no larger than the t of any answer. */
  lemma {:induction false} ScanLeast(answers: seq<Option<HitRecord>>, tMin: real, tMax: real)
    requires Honoured(answers, tMin, tMax)
    ensures ScanOf(answers, tMax).closest <= tMax
    ensures ScanOf(answers, tMax).hitAnything ==>
      ScanOf(answers, tMax).temp.t == ScanOf(answers, tMax).closest && tMin <= ScanOf(answers, tMax).closest
    ensures forall k :: 0 <= k < |answers| && answers[k].Some? ==> ScanOf(answers, tMax).closest <= answers[k].value.t
    decreases |answers|
  {
    var n := |answers|;
    if n > 0 {
      var init := answers[..n - 1];
      assert Honoured(init, tMin, tMax) by {
        forall k | 0 <= k < |init| && init[k].Some?
          ensures tMin <= init[k].value.t <= ScanOf(init[..k], tMax).closest
        {
          assert init[k] == answers[k] && init[..k] == answers[..k];
        }
      }
      ScanLeast(init, tMin, tMax);
      assert answers[..n - 1] == init;
      forall k | 0 <= k < n && answers[k].Some?
        ensures ScanOf(answers, tMax).closest <= answers[k].value.t
      {
        if k < n - 1 {
          assert answers[k] == init[k];
        }
      }
    }
  }

  /** The scan of a prefix is the scan of the first answers. */
  lemma ScanOfPrefix(answers: seq<Option<HitRecord>>, a: Option<HitRecord>, tMax: real)
    ensures (answers + [a])[..|answers|] == answers
    ensures ScanOf(answers + [a], tMax) ==
      if a.Some? then Scan(true, a.value.t, a.value) else ScanOf(answers, tMax)
  {
    assert (answers + [a])[..|answers|] == answers;
  }
}
