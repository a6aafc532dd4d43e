// The renderer's two random sources, both injected. drand48() returns a double in
// [0, 1); material.h's randomFloat() is rand()/RAND_MAX, in [0, 1] with 1 included.
// A drand48 stream is a function from positions to draws, read from a position
// that the caller threads through.
module Draws {

  type Drand = x: real | 0.0 <= x < 1.0

  type Stream = nat -> Drand

  type RandFloat = x: real | 0.0 <= x <= 1.0

  /** Truncation toward zero, as a C++ conversion from float to int does. */
  function Trunc(x: real): (n: int)
    ensures x >= 0.0 ==> n == x.Floor
    ensures x < 0.0 ==> n == -((-x).Floor)
    ensures x >= 0.0 ==> n as real <= x < n as real + 1.0
    ensures x < 0.0 ==> n as real - 1.0 < x <= n as real
  {
    if x >= 0.0 then x.Floor else -((-x).Floor)
  }

  /** int(drand48() * (i + 1)) for i >= 0: the product is not negative, so the
      conversion is its floor, and it lies in [0, i]. */
  lemma ScaledDrawInRange(d: Drand, i: nat)
    ensures Trunc(d * (i + 1) as real) == (d * (i + 1) as real).Floor
    ensures 0 <= (d * (i + 1) as real).Floor <= i
  {
    var k := (i + 1) as real;
    assert d * k < k by {
      assert (1.0 - d) * k > 0.0;
    }
  }
}
