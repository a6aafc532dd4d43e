// main.cpp, color(): the recursive integrator. A ray that hits nothing in
// (0.001, FLT_MAX) is black; a hit gives the material's emission, plus the
// attenuated colour of the scattered ray while the depth is below 50 and the
// material scatters.
module Integrator {
  import opened Optional
  import opened Vectors
  import opened Rays
  import opened Textures
  import opened Materials
  import opened Hitables
  import opened HitProperties

  /** The nearest distance color() accepts a hit at: hits closer than this are
      ignored so that a scattered ray does not hit its own origin. */
  const TMin: real := 0.001

  /** The recursion stops scattering at this depth. */
  const MaxDepth: nat := 50

  /** A colour and the drand48 position after the hits that produced it. */
  datatype Traced = Traced(color: Vector3, next: nat)

  /** color(r, world, depth). The world's hits read drand48 from `pos` on; the
      bounce at depth d uses bounces(d), the rand() draws randomInUnitSphere and
      Dielectric consume there. A miss is black; at depth 50 or more, or when the
      material absorbs the ray, the result is the emission alone. */
  function Color(r: Ray, world: Hitable, depth: nat, env: Env, pos: nat, bounces: nat -> Bounce): (o: Traced)
    requires WellFormed(world)
    ensures Hit(world, r, TMin, FltMax, Blank, env, pos).found.None? ==> o == Traced(Zero, Hit(world, r, TMin, FltMax, Blank, env, pos).next)
    ensures o.next >= pos
    decreases MaxDepth - depth
  {
    var h := Hit(world, r, TMin, FltMax, Blank, env, pos);
    HitWindow(world, r, TMin, FltMax, Blank, env, pos);
    HitAdvances(world, r, TMin, FltMax, Blank, env, pos);
    if h.found.None? then Traced(Zero, h.next)
    else
      var rec := h.found.value;
      var emitted := Emitted(rec.mat, rec.u, rec.v, rec.p, env.math);
      if depth < MaxDepth then
        match Scatter(rec.mat, r, rec, bounces(depth), env.math)
        case Some((attenuation, scattered)) =>
          var rest := Color(scattered, world, depth + 1, env, h.next, bounces);
          Traced(Add(emitted, Mul(attenuation, rest.color)), rest.next)
        case None => Traced(emitted, h.next)
      else Traced(emitted, h.next)
  }

  /** From depth 50 on, scatter is never asked (the && short-circuits): the colour is
      the emission of what the ray hits, black on a miss. */
  lemma ColorAtMaxDepth(r: Ray, world: Hitable, depth: nat, env: Env, pos: nat, bounces: nat -> Bounce)
    requires WellFormed(world) && depth >= MaxDepth
    ensures var h := Hit(world, r, TMin, FltMax, Blank, env, pos);
      h.found.Some? ==>
        MaterialWellFormed(h.found.value.mat) &&
        Color(r, world, depth, env, pos, bounces) ==
          Traced(Emitted(h.found.value.mat, h.found.value.u, h.found.value.v, h.found.value.p, env.math), h.next)
  {
    HitWindow(world, r, TMin, FltMax, Blank, env, pos);
  }

  /** A hit on a light: DiffuseLight never scatters, so the colour is its emission,
      at any depth. */
  lemma ColorOfLight(r: Ray, world: Hitable, depth: nat, env: Env, pos: nat, bounces: nat -> Bounce)
    requires WellFormed(world)
    requires Hit(world, r, TMin, FltMax, Blank, env, pos).found.Some?
    requires Hit(world, r, TMin, FltMax, Blank, env, pos).found.value.mat.DiffuseLight?
    ensures var rec := Hit(world, r, TMin, FltMax, Blank, env, pos).found.value;
      TextureWellFormed(rec.mat.emit) &&
      Color(r, world, depth, env, pos, bounces).color == Value(rec.mat.emit, rec.u, rec.v, rec.p, env.math)
  {
    HitWindow(world, r, TMin, FltMax, Blank, env, pos);
  }

  /** A hit on anything but a light adds no emission: the colour is the attenuated
      colour of the scattered ray, or black when the ray is absorbed or the depth
      is exhausted. */
  lemma ColorOfSurface(r: Ray, world: Hitable, depth: nat, env: Env, pos: nat, bounces: nat -> Bounce)
    requires WellFormed(world)
    requires Hit(world, r, TMin, FltMax, Blank, env, pos).found.Some?
    requires !Hit(world, r, TMin, FltMax, Blank, env, pos).found.value.mat.DiffuseLight?
    ensures var h := Hit(world, r, TMin, FltMax, Blank, env, pos);
      var rec := h.found.value;
      MaterialWellFormed(rec.mat) && r.direction != Zero &&
      var s := Scatter(rec.mat, r, rec, bounces(depth), env.math);
      Color(r, world, depth, env, pos, bounces).color ==
        if depth < MaxDepth && s.Some?
        then Mul(s.value.0, Color(s.value.1, world, depth + 1, env, h.next, bounces).color)
        else Zero
  {
    var h := Hit(world, r, TMin, FltMax, Blank, env, pos);
    HitWindow(world, r, TMin, FltMax, Blank, env, pos);
    var rec := h.found.value;
    var emitted := Emitted(rec.mat, rec.u, rec.v, rec.p, env.math);
    assert emitted == Zero;
    var s := Scatter(rec.mat, r, rec, bounces(depth), env.math);
    if depth < MaxDepth && s.Some? {
      var rest := Color(s.value.1, world, depth + 1, env, h.next, bounces);
      assert Color(r, world, depth, env, pos, bounces) == Traced(Add(emitted, Mul(s.value.0, rest.color)), rest.next);
      assert Add(Zero, Mul(s.value.0, rest.color)) == Mul(s.value.0, rest.color);
    } else {
      assert Color(r, world, depth, env, pos, bounces) == Traced(emitted, h.next);
    }
  }

  /** No ray color() casts into the world ever hits a light. */
  ghost predicate Unlit(world: Hitable, env: Env)
    requires WellFormed(world)
  {
    forall p: nat, r: Ray :: Hit(world, r, TMin, FltMax, Blank, env, p).found.Some? ==>
      !Hit(world, r, TMin, FltMax, Blank, env, p).found.value.mat.DiffuseLight?
  }

  /** A scene without lights is black: no path ever picks up emission. */
  lemma {:induction false} DarkSceneIsBlack(r: Ray, world: Hitable, depth: nat, env: Env, pos: nat, bounces: nat -> Bounce)
    requires WellFormed(world) && Unlit(world, env)
    ensures Color(r, world, depth, env, pos, bounces).color == Zero
    decreases MaxDepth - depth
  {
    var h := Hit(world, r, TMin, FltMax, Blank, env, pos);
    if h.found.Some? {
      assert !h.found.value.mat.DiffuseLight?;
      ColorOfSurface(r, world, depth, env, pos, bounces);
      var rec := h.found.value;
      var s := Scatter(rec.mat, r, rec, bounces(depth), env.math);
      if depth < MaxDepth && s.Some? {
        DarkSceneIsBlack(s.value.1, world, depth + 1, env, h.next, bounces);
        assert Mul(s.value.0, Zero) == Zero;
      }
    }
  }
}
