// constantMedium.h: the clamping of the boundary's entry and exit parameters and
// the free-flight test of ConstantMedium::hit. The boundary queries themselves
// are part of the hit of the whole scene (module Hitables).
module Media {
  import opened Optional
  import opened Aabbs

  /** The entry and exit parameters after the clamps: entry raised to tMin, exit
      lowered to tMax, no hit when entry >= exit, then entry raised to 0. */
  function MediumWindow(t1: real, t2: real, tMin: real, tMax: real): (w: Option<(real, real)>)
    ensures w.None? <==> FFMax(t1, tMin) >= FFMin(t2, tMax)
    ensures w.Some? ==> w.value.0 == FFMax(FFMax(t1, tMin), 0.0) && w.value.1 == FFMin(t2, tMax)
    ensures w.Some? ==> tMin <= w.value.0 && 0.0 <= w.value.0 && w.value.1 <= tMax
    ensures w.Some? && tMin >= 0.0 ==> w.value.0 < w.value.1
  {
    var entry := if t1 < tMin then tMin else t1;
    var exit := if t2 > tMax then tMax else t2;
    if entry >= exit then None
    else Some((if entry < 0.0 then 0.0 else entry, exit))
  }

  /** hitDistance = -(1/density) * log(drand48()), with -log(draw) >= 0 given. */
  function FlightDistance(density: real, negLogDraw: real): (hd: real)
    requires density > 0.0 && negLogDraw >= 0.0
    ensures hd >= 0.0
  {
    var inv := 1.0 / density;
    assert inv > 0.0;
    assert inv * negLogDraw >= 0.0 * negLogDraw;
    inv * negLogDraw
  }

  /** The free-flight decision: with distance (exit - entry) * |d| inside the
      boundary and a drawn flight distance hd >= 0, a hit at entry + hd / |d| when
      hd is shorter. A zero direction has no distance inside, so no hit. */
  function FreeFlight(entry: real, exit: real, len: real, hd: real): (t: Option<real>)
    requires len >= 0.0 && hd >= 0.0
    ensures t.Some? <==> hd < (exit - entry) * len
    ensures t.Some? ==> len > 0.0 && t.value == entry + hd / len
    ensures t.Some? ==> entry <= t.value < exit
  {
    if hd < (exit - entry) * len then
      assert len != 0.0;
      FlightBound(entry, exit, len, hd);
      Some(entry + hd / len)
    else
      None
  }

  /** hd < (exit - entry) * len with len > 0 and hd >= 0 puts entry + hd / len in
      [entry, exit). */
  lemma FlightBound(entry: real, exit: real, len: real, hd: real)
    requires len > 0.0 && hd >= 0.0 && hd < (exit - entry) * len
    ensures entry <= entry + hd / len < exit
  {
    DivCompare(hd, len, exit - entry);
    DivCompare(hd, len, 0.0);
  }

  /** Lines 27 to 37 of ConstantMedium::hit as the source runs them, on the
      parameters rec1.t and rec2.t of the two boundary hits: the clamps step by
      step, then the flight distance. `drawn` tells whether the source reached
      the drand48() call; `flight` is the distance that draw yields. */
  method ClampAndFly(rec1T: real, rec2T: real, tMin: real, tMax: real, len: real, flight: real)
    returns (t: Option<real>, drawn: bool)
    requires len >= 0.0 && flight >= 0.0
    ensures drawn <==> MediumWindow(rec1T, rec2T, tMin, tMax).Some?
    ensures drawn ==> t == FreeFlight(MediumWindow(rec1T, rec2T, tMin, tMax).value.0,
                                      MediumWindow(rec1T, rec2T, tMin, tMax).value.1, len, flight)
    ensures !drawn ==> t.None?
    ensures t.Some? ==> FFMax(tMin, 0.0) <= t.value < tMax
  {
    var entry := rec1T;
    var exit := rec2T;
    if entry < tMin {
      entry := tMin;
    }
    if exit > tMax {
      exit := tMax;
    }
    if entry >= exit {
      return None, false;
    }
    if entry < 0.0 {
      entry := 0.0;
    }
    assert MediumWindow(rec1T, rec2T, tMin, tMax) == Some((entry, exit));
    assert FFMax(tMin, 0.0) <= entry && exit <= tMax;
    var distanceInsideBoundary := (exit - entry) * len;
    drawn := true;
    if flight < distanceInsideBoundary {
      FlightBound(entry, exit, len, flight);
      t := Some(entry + flight / len);
    } else {
      t := None;
    }
    assert t == FreeFlight(entry, exit, len, flight);
  }
}
