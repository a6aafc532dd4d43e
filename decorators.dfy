// The constructor of RotateY (hitable.h): the angle turned into a sine and a
// cosine, the wrapped object's box asked for once, and the turned box.
module Decorators {
  import opened Vectors
  import opened Aabbs
  import opened Hitables
  import opened Rotations

  /** RotateY::RotateY(p, angle). sin and cos are the injected <cmath> functions;
      the wrapped object's box is asked for the time interval [0, 1] with bBox
      still unset, and the corner loop runs on whatever bBox then holds. */
  method NewRotateY(p: Hitable, angle: real, m: Math) returns (h: Hitable)
    requires WellFormed(p)
    ensures h.RotateY? && h.ptr == p && WellFormed(h)
    ensures h.sinTheta == m.sin(Pi / 180.0 * angle) && h.cosTheta == m.cos(Pi / 180.0 * angle)
    ensures h.hasBox == BoundingBox(p, 0.0, 1.0, Unset).ok
    ensures h.bBox == RotatedBox(BoundingBox(p, 0.0, 1.0, Unset).box, h.sinTheta, h.cosTheta)
    ensures Valid(h.bBox)
    ensures BoundingBox(h, 0.0, 1.0, Unset) == BoxQuery(h.hasBox, h.bBox)
  {
    var radians := Pi / 180.0 * angle;
    var sinTheta := m.sin(radians);
    var cosTheta := m.cos(radians);
    var q := BoundingBox(p, 0.0, 1.0, Unset);
    var box := TurnBox(q.box, sinTheta, cosTheta);
    RotatedBoxValid(q.box, sinTheta, cosTheta);
    h := RotateY(p, sinTheta, cosTheta, q.ok, box);
  }
}
