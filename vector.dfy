// Vector algebra over exact reals, and the transcendental functions of <cmath>.
// vector.h itself is not part of this model: the operations below are the ones
// its callers use (+, -, unary -, scalar *, componentwise *, /, dot, length,
// unitVector, operator[]), written over `real` so that the geometry is exact.
module Vectors {

  type NonNeg = x: real | x >= 0.0

  /** The length of a vector. vector.h computes it as the square root of the
      squared length; here it is injected, and all that is assumed of it is that it
      is never negative and is positive on every nonzero vector. */
  type LengthFn = f: Vector3 -> NonNeg | forall v :: v != Zero ==> f(v) > 0.0
    witness (v: Vector3) => if v == Zero then 0.0 else 1.0

  /** The functions the renderer takes from <cmath> and vector.h, injected. `sqrt`
      is never negative; `pow` is pow (Schlick's fifth power); `negLog(u)` is -log(u), never negative for the draws u in
      [0, 1) it is applied to; `sphereUV` is getSphereUV of sphere.h (atan2, asin). */
  datatype Math = Math(
    sqrt: real -> NonNeg,
    length: LengthFn,
    sin: real -> real,
    cos: real -> real,
    negLog: real -> NonNeg,
    pow: (real, real) -> real,
    sphereUV: Vector3 -> (real, real))

  /** FLT_MAX, the largest finite single-precision float. */
  const FltMax: real := 340282346638528859811704183484516925440.0

  /** M_PI as the source's double constant. */
  const Pi: real := 3.141592653589793

  datatype Vector3 = Vector3(x: real, y: real, z: real)

  const Zero := Vector3(0.0, 0.0, 0.0)
  const One := Vector3(1.0, 1.0, 1.0)

  function Add(a: Vector3, b: Vector3): Vector3 {
    Vector3(a.x + b.x, a.y + b.y, a.z + b.z)
  }

  function Sub(a: Vector3, b: Vector3): Vector3 {
    Vector3(a.x - b.x, a.y - b.y, a.z - b.z)
  }

  function Neg(a: Vector3): Vector3 {
    Vector3(-a.x, -a.y, -a.z)
  }

  function Scale(s: real, a: Vector3): Vector3 {
    Vector3(s * a.x, s * a.y, s * a.z)
  }

  /** Componentwise product (operator* on two vectors). */
  function Mul(a: Vector3, b: Vector3): Vector3 {
    Vector3(a.x * b.x, a.y * b.y, a.z * b.z)
  }

  function Div(a: Vector3, s: real): Vector3
    requires s != 0.0
  {
    Vector3(a.x / s, a.y / s, a.z / s)
  }

  function Dot(a: Vector3, b: Vector3): real {
    a.x * b.x + a.y * b.y + a.z * b.z
  }

  function SquaredLength(a: Vector3): (r: real)
    ensures r >= 0.0
  {
    SquareNonNeg(a.x);
    SquareNonNeg(a.y);
    SquareNonNeg(a.z);
    Dot(a, a)
  }

  lemma SquareNonNeg(r: real)
    ensures r * r >= 0.0
  {
    if r < 0.0 {
      assert r * r == (-r) * (-r);
    }
  }

  function Length(a: Vector3, m: Math): (r: real)
    ensures r >= 0.0
    ensures a != Zero ==> r > 0.0
  {
    var len: NonNeg := m.length(a);
    assert a != Zero ==> len > 0.0;
    len
  }

  function UnitVector(a: Vector3, m: Math): Vector3
    requires a != Zero
  {
    Div(a, Length(a, m))
  }

  /** operator[] on a vector: component 0, 1 or 2. */
  function At(a: Vector3, c: int): real
    requires 0 <= c < 3
  {
    if c == 0 then a.x else if c == 1 then a.y else a.z
  }

  /** The vector with component c replaced by r (an assignment `a[c] = r`). */
  function With(a: Vector3, c: int, r: real): (b: Vector3)
    requires 0 <= c < 3
    ensures At(b, c) == r
    ensures forall d :: 0 <= d < 3 && d != c ==> At(b, d) == At(a, d)
  {
    if c == 0 then a.(x := r) else if c == 1 then a.(y := r) else a.(z := r)
  }
}
