// material.h: random directions, reflection and refraction, emission, and the
// scatter decision of each material. The hit record lives here because every
// material reads it and every hitable writes it.
module Materials {
  import opened Optional
  import opened Vectors
  import opened Rays
  import opened Draws
  import opened Textures

  // ---------------------------------------------------------------- randomInUnitSphere

  /** One candidate of randomInUnitSphere: 2 * (three randomFloat draws) - (1, 1, 1),
      its three draws read from position pos on. */
  function Candidate(rand: nat -> RandFloat, pos: nat): Vector3 {
    Sub(Scale(2.0, Vector3(rand(pos), rand(pos + 1), rand(pos + 2))), One)
  }

  /** Attempt k of the do-while loop (reading draws 3k to 3k + 2) is accepted. */
  predicate Accepts(rand: nat -> RandFloat, pos: nat, k: nat) {
    SquaredLength(Candidate(rand, pos + 3 * k)) < 1.0
  }

  /** randomInUnitSphere: draw candidates until one lies strictly inside the unit
      sphere. The loop ends only if some attempt is accepted, which the caller
      states; it then returns the FIRST accepted candidate and the number of
      attempts made (3 draws each). */
  method RandomInUnitSphere(rand: nat -> RandFloat, pos: nat) returns (p: Vector3, attempts: nat)
    requires exists k: nat :: Accepts(rand, pos, k)
    ensures SquaredLength(p) < 1.0
    ensures attempts >= 1 && p == Candidate(rand, pos + 3 * (attempts - 1))
    ensures forall k: nat :: k < attempts - 1 ==> !Accepts(rand, pos, k)
  {
    ghost var last: nat :| Accepts(rand, pos, last);
    var k: nat := 0;
    p := Candidate(rand, pos);
    while SquaredLength(p) >= 1.0
      invariant k <= last
      invariant p == Candidate(rand, pos + 3 * k)
      invariant forall j: nat :: j < k ==> !Accepts(rand, pos, j)
      decreases last - k
    {
      k := k + 1;
      p := Candidate(rand, pos + 3 * k);
    }
    attempts := k + 1;
  }

  /** A point strictly inside the unit sphere: what randomInUnitSphere returns. */
  type InSphere = p: Vector3 | SquaredLength(p) < 1.0 witness Zero

  /** The random inputs a material consumes at one bounce: the point that
      randomInUnitSphere returns and one randomFloat draw (Dielectric's). */
  datatype Bounce = Bounce(inSphere: InSphere, draw: RandFloat)

  // ---------------------------------------------------------------- reflect, refract, schlick

  function Reflect(v: Vector3, n: Vector3): Vector3 {
    Sub(v, Scale(2.0 * Dot(v, n), n))
  }

  lemma DotSubScale(v: Vector3, s: real, n: Vector3)
    ensures Dot(Sub(v, Scale(s, n)), n) == Dot(v, n) - s * Dot(n, n)
  {
  }

  /** For a unit normal, reflection negates the component along the normal. */
  lemma ReflectNegatesNormalPart(v: Vector3, n: Vector3)
    requires Dot(n, n) == 1.0
    ensures Dot(Reflect(v, n), n) == -Dot(v, n)
  {
    DotSubScale(v, 2.0 * Dot(v, n), n);
  }

  /** For a unit normal, reflecting twice gives back the vector. */
  lemma ReflectInvolution(v: Vector3, n: Vector3)
    requires Dot(n, n) == 1.0
    ensures Reflect(Reflect(v, n), n) == v
  {
    ReflectNegatesNormalPart(v, n);
  }

  /** The discriminant refract tests: 1 - eta^2 (1 - dt^2), dt the cosine between
      the unit direction and the normal. */
  function RefractDiscriminant(v: Vector3, n: Vector3, niOverNT: real, m: Math): real
    requires v != Zero
  {
    var dt := Dot(UnitVector(v, m), n);
    1.0 - niOverNT * niOverNT * (1.0 - dt * dt)
  }

  /** refract: Some(refracted) exactly when the discriminant is positive; None is
      `return false` with `refracted` left as it was. */
  function Refract(v: Vector3, n: Vector3, niOverNT: real, m: Math): (r: Option<Vector3>)
    requires v != Zero
    ensures r.Some? <==> RefractDiscriminant(v, n, niOverNT, m) > 0.0
  {
    var uv := UnitVector(v, m);
    var dt := Dot(uv, n);
    var discriminant := RefractDiscriminant(v, n, niOverNT, m);
    if discriminant > 0.0 then
      Some(Sub(Scale(niOverNT, Sub(uv, Scale(dt, n))), Scale(m.sqrt(discriminant), n)))
    else
      None
  }

  /** Schlick's approximation of the reflectance, with pow from <cmath>. */
  function Schlick(cosine: real, refIdx: real, m: Math): real
    requires refIdx != -1.0
  {
    var r0 := (1.0 - refIdx) / (1.0 + refIdx);
    var r0sq := r0 * r0;
    r0sq + (1.0 - r0sq) * m.pow(1.0 - cosine, 5.0)
  }

  /** For a unit normal, the vector refract writes keeps eta times the tangential part
      of the unit direction (Snell's law) and has normal component -sqrt(discriminant),
      the side opposite to n. */
  lemma RefractedVector(v: Vector3, n: Vector3, niOverNT: real, m: Math)
    requires v != Zero && Dot(n, n) == 1.0
    requires Refract(v, n, niOverNT, m).Some?
    ensures var r := Refract(v, n, niOverNT, m).value;
      var uv := UnitVector(v, m);
      Dot(r, n) == -(m.sqrt(RefractDiscriminant(v, n, niOverNT, m)) as real) &&
      Sub(r, Scale(Dot(r, n), n)) == Scale(niOverNT, Sub(uv, Scale(Dot(uv, n), n)))
  {
    var uv := UnitVector(v, m);
    var root: real := m.sqrt(RefractDiscriminant(v, n, niOverNT, m));
    var r := Refract(v, n, niOverNT, m).value;
    assert r == Sub(Scale(niOverNT, Sub(uv, Scale(Dot(uv, n), n))), Scale(root, n));
    SnellParts(uv, n, niOverNT, root, r);
  }

  /** The algebra behind RefractedVector: eta times the tangential part of u, minus
      root along the unit normal n, has normal component -root and tangential part
      eta times u's. */
  lemma SnellParts(u: Vector3, n: Vector3, eta: real, root: real, r: Vector3)
    requires Dot(n, n) == 1.0
    requires r == Sub(Scale(eta, Sub(u, Scale(Dot(u, n), n))), Scale(root, n))
    ensures Dot(r, n) == -root
    ensures Sub(r, Scale(Dot(r, n), n)) == Scale(eta, Sub(u, Scale(Dot(u, n), n)))
  {
    var tangent := Sub(u, Scale(Dot(u, n), n));
    DotSubScale(u, Dot(u, n), n);
    DotScale(eta, tangent, n);
    DotSubScale(Scale(eta, tangent), root, n);
  }

  lemma DotScale(s: real, a: Vector3, n: Vector3)
    ensures Dot(Scale(s, a), n) == s * Dot(a, n)
  {
  }

  // ---------------------------------------------------------------- materials

  datatype Material =
    | Lambertian(albedo: Texture)
    | Metal(albedoColor: Vector3, fuzz: real)
    | Dielectric(refIdx: real)
    | DiffuseLight(emit: Texture)
    | Isotropic(albedo: Texture)

  /** The Metal constructor: fuzz is f below 1 and 1 otherwise, with no lower clamp. */
  function NewMetal(a: Vector3, f: real): (mat: Material)
    ensures mat.Metal? && mat.albedoColor == a
    ensures mat.fuzz <= 1.0
    ensures f < 1.0 ==> mat.fuzz == f
    ensures f >= 1.0 ==> mat.fuzz == 1.0
  {
    Metal(a, if f < 1.0 then f else 1.0)
  }

  /** Textures that value() can read, and a refractive index that Dielectric can
      divide by (1.0 / refIDX) and that schlick can divide by (1 + refIDX). */
  predicate MaterialWellFormed(mat: Material) {
    match mat
    case Lambertian(albedo) => TextureWellFormed(albedo)
    case Metal(_, _) => true
    case Dielectric(refIdx) => refIdx != 0.0 && refIdx != -1.0
    case DiffuseLight(emit) => TextureWellFormed(emit)
    case Isotropic(albedo) => TextureWellFormed(albedo)
  }

  /** HitRecord: the parameter of the hit, the point, the normal, the material, and
      the surface coordinates. */
  datatype HitRecord = HitRecord(t: real, p: Vector3, normal: Vector3, mat: Material, u: real, v: real)

  /** The value of a HitRecord the caller declared and never wrote (C++ leaves it
      uninitialised); the model fixes it. */
  const Blank := HitRecord(0.0, Zero, Zero, Lambertian(Constant(Zero)), 0.0, 0.0)

  /** The value of a Vector3 declared and never written. */
  const UnsetVector := Zero

  /** Material::emitted: black, except for DiffuseLight, which emits its texture. */
  function Emitted(mat: Material, u: real, v: real, p: Vector3, m: Math): (e: Vector3)
    requires MaterialWellFormed(mat)
    ensures mat.DiffuseLight? ==> e == Value(mat.emit, u, v, p, m)
    ensures !mat.DiffuseLight? ==> e == Zero
  {
    match mat
    case DiffuseLight(emit) => Value(emit, u, v, p, m)
    case _ => Zero
  }

  /** Lambertian::scatter: towards rec.p + rec.normal + a random point, keeping the
      incoming ray's time. */
  function LambertianScatter(albedo: Texture, rIn: Ray, rec: HitRecord, b: Bounce, m: Math): (s: (Vector3, Ray))
    requires TextureWellFormed(albedo)
    ensures s.0 == Value(albedo, rec.u, rec.v, rec.p, m)
    ensures s.1.origin == rec.p && s.1.time == rIn.time
    ensures s.1.direction == Add(rec.normal, b.inSphere)
  {
    var target := Add(Add(rec.p, rec.normal), b.inSphere);
    (Value(albedo, rec.u, rec.v, rec.p, m), NewRay(rec.p, Sub(target, rec.p), rIn.time))
  }

  /** Metal::scatter: the mirror direction of the unit incoming direction, perturbed
      by fuzz times a random point; a ray at time 0. */
  function MetalScattered(fuzz: real, rIn: Ray, rec: HitRecord, b: Bounce, m: Math): (r: Ray)
    requires rIn.direction != Zero
    ensures r.origin == rec.p && r.time == 0.0
    ensures r.direction == Add(Reflect(UnitVector(rIn.direction, m), rec.normal), Scale(fuzz, b.inSphere))
  {
    var reflected := Reflect(UnitVector(rIn.direction, m), rec.normal);
    NewRay(rec.p, Add(reflected, Scale(fuzz, b.inSphere)))
  }

  /** With fuzz 0 the metal is a perfect mirror: the scattered direction is the
      reflection of the unit incoming direction. */
  lemma MetalMirror(rIn: Ray, rec: HitRecord, b: Bounce, m: Math)
    requires rIn.direction != Zero
    ensures MetalScattered(0.0, rIn, rec, b, m).direction == Reflect(UnitVector(rIn.direction, m), rec.normal)
  {
    assert Scale(0.0, b.inSphere) == Zero;
  }

  /** The outward normal, eta and cosine that Dielectric::scatter picks, by the side
      from which the ray arrives. */
  function DielectricSetup(refIdx: real, rIn: Ray, rec: HitRecord, m: Math): (s: (Vector3, real, real))
    requires rIn.direction != Zero && refIdx != 0.0
    ensures Dot(rIn.direction, rec.normal) > 0.0 ==> s.0 == Neg(rec.normal) && s.1 == refIdx
    ensures Dot(rIn.direction, rec.normal) <= 0.0 ==> s.0 == rec.normal && s.1 == 1.0 / refIdx
    ensures Dot(rIn.direction, rec.normal) > 0.0 ==> s.2 == refIdx * Dot(rIn.direction, rec.normal) / Length(rIn.direction, m)
    ensures Dot(rIn.direction, rec.normal) <= 0.0 ==> s.2 == -Dot(rIn.direction, rec.normal) / Length(rIn.direction, m)
  {
    var len := Length(rIn.direction, m);
    if Dot(rIn.direction, rec.normal) > 0.0 then
      (Neg(rec.normal), refIdx, refIdx * Dot(rIn.direction, rec.normal) / len)
    else
      (rec.normal, 1.0 / refIdx, -Dot(rIn.direction, rec.normal) / len)
  }

  /** Dielectric::scatter. Where refraction is impossible the reflection probability
      is 1 and `refracted` is never written, so a draw of exactly 1 (rand() ==
      RAND_MAX) selects the unset vector. */
  function DielectricScattered(refIdx: real, rIn: Ray, rec: HitRecord, b: Bounce, m: Math): (r: Ray)
    requires rIn.direction != Zero && refIdx != 0.0 && refIdx != -1.0
    ensures r.origin == rec.p && r.time == 0.0
    ensures Refract(rIn.direction, DielectricSetup(refIdx, rIn, rec, m).0, DielectricSetup(refIdx, rIn, rec, m).1, m).None? ==>
      r == if b.draw < 1.0 then NewRay(rec.p, Reflect(rIn.direction, rec.normal)) else NewRay(rec.p, UnsetVector)
    ensures var setup := DielectricSetup(refIdx, rIn, rec, m);
      var refracted := Refract(rIn.direction, setup.0, setup.1, m);
      refracted.Some? ==>
        r == if b.draw < Schlick(setup.2, refIdx, m) then NewRay(rec.p, Reflect(rIn.direction, rec.normal))
             else NewRay(rec.p, refracted.value)
  {
    var reflected := Reflect(rIn.direction, rec.normal);
    var setup := DielectricSetup(refIdx, rIn, rec, m);
    var refracted := Refract(rIn.direction, setup.0, setup.1, m);
    var reflectProb := if refracted.Some? then Schlick(setup.2, refIdx, m) else 1.0;
    if b.draw < reflectProb then NewRay(rec.p, reflected)
    else NewRay(rec.p, if refracted.Some? then refracted.value else UnsetVector)
  }

  /** Material::scatter: Some((attenuation, scattered)) where the source returns true. */
  function Scatter(mat: Material, rIn: Ray, rec: HitRecord, b: Bounce, m: Math): (s: Option<(Vector3, Ray)>)
    requires MaterialWellFormed(mat) && rIn.direction != Zero
    ensures mat.DiffuseLight? ==> s.None?
    ensures mat.Lambertian? || mat.Dielectric? || mat.Isotropic? ==> s.Some?
    ensures s.Some? ==> s.value.1.origin == rec.p
    ensures mat.Metal? ==> (s.Some? <==> Dot(MetalScattered(mat.fuzz, rIn, rec, b, m).direction, rec.normal) > 0.0)
    ensures mat.Metal? && s.Some? ==> s.value.0 == mat.albedoColor
    ensures mat.Metal? && s.Some? ==> s.value.1 == MetalScattered(mat.fuzz, rIn, rec, b, m)
    ensures mat.Dielectric? ==> s.value.1 == DielectricScattered(mat.refIdx, rIn, rec, b, m)
    ensures mat.Lambertian? ==> s.value == LambertianScatter(mat.albedo, rIn, rec, b, m)
    ensures mat.Isotropic? ==> s.value.1 == NewRay(rec.p, b.inSphere)
    ensures mat.Dielectric? ==> s.value.0 == One
    ensures (mat.Lambertian? || mat.Isotropic?) ==> s.value.0 == Value(mat.albedo, rec.u, rec.v, rec.p, m)
  {
    match mat
    case Lambertian(albedo) => Some(LambertianScatter(albedo, rIn, rec, b, m))
    case Metal(albedo, fuzz) =>
      var scattered := MetalScattered(fuzz, rIn, rec, b, m);
      if Dot(scattered.direction, rec.normal) > 0.0 then Some((albedo, scattered)) else None
    case Dielectric(refIdx) => Some((One, DielectricScattered(refIdx, rIn, rec, b, m)))
    case DiffuseLight(_) => None
    case Isotropic(albedo) => Some((Value(albedo, rec.u, rec.v, rec.p, m), NewRay(rec.p, b.inSphere)))
  }
}
