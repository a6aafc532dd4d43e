// box.h: the constructor of Box fills a six-slot array with the faces; hit asks
// the list of faces, and boundingBox answers with the two corners given.
module Boxes {
  import opened Vectors
  import opened Rays
  import Aabbs
  import opened Materials
  import opened Rectangles
  import opened Hitables

  /** Box::Box(p0, p1, ptr): faces at z = p1.z and z = p0.z, y = p1.y and
      y = p0.y, x = p1.x and x = p0.x, in that order, each rectangle spanning the
      box on its two other axes and made of `mat`; the faces on the p0 side are
      wrapped in FlipNormals. */
  method NewBox(p0: Vector3, p1: Vector3, mat: Material) returns (h: Hitable)
    ensures h.Box? && h.pmin == p0 && h.pmax == p1
    ensures h.faces.HitableList? && |h.faces.list| == 6
    ensures forall i :: 0 <= i < 6 ==> (h.faces.list[i].FlipNormals? <==> i % 2 == 1)
    ensures forall i :: 0 <= i < 6 ==> Face(h.faces.list[i]).Rect? && Face(h.faces.list[i]).mat == mat
    ensures Face(h.faces.list[0]) == Rect(XY, p0.x, p1.x, p0.y, p1.y, p1.z, mat)
    ensures Face(h.faces.list[1]) == Rect(XY, p0.x, p1.x, p0.y, p1.y, p0.z, mat)
    ensures Face(h.faces.list[2]) == Rect(XZ, p0.x, p1.x, p0.z, p1.z, p1.y, mat)
    ensures Face(h.faces.list[3]) == Rect(XZ, p0.x, p1.x, p0.z, p1.z, p0.y, mat)
    ensures Face(h.faces.list[4]) == Rect(YZ, p0.y, p1.y, p0.z, p1.z, p1.x, mat)
    ensures Face(h.faces.list[5]) == Rect(YZ, p0.y, p1.y, p0.z, p1.z, p0.x, mat)
  {
    var list := new Hitable[6];
    list[0] := Rect(XY, p0.x, p1.x, p0.y, p1.y, p1.z, mat);
    list[1] := FlipNormals(Rect(XY, p0.x, p1.x, p0.y, p1.y, p0.z, mat));
    list[2] := Rect(XZ, p0.x, p1.x, p0.z, p1.z, p1.y, mat);
    list[3] := FlipNormals(Rect(XZ, p0.x, p1.x, p0.z, p1.z, p0.y, mat));
    list[4] := Rect(YZ, p0.y, p1.y, p0.z, p1.z, p1.x, mat);
    list[5] := FlipNormals(Rect(YZ, p0.y, p1.y, p0.z, p1.z, p0.x, mat));
    h := Box(p0, p1, HitableList(list[..]));
  }

  /** The rectangle of a face, inside its FlipNormals if it has one. */
  function Face(h: Hitable): Hitable {
    if h.FlipNormals? then h.ptr else h
  }

  /** A box is well formed exactly when it has an extent on every axis and its
      material is: then each face has nonzero extents. */
  lemma BoxWellFormed(p0: Vector3, p1: Vector3, mat: Material, faces: seq<Hitable>)
    requires |faces| == 6
    requires forall i :: 0 <= i < 6 ==> (faces[i].FlipNormals? <==> i % 2 == 1)
    requires Face(faces[0]) == Rect(XY, p0.x, p1.x, p0.y, p1.y, p1.z, mat)
    requires Face(faces[1]) == Rect(XY, p0.x, p1.x, p0.y, p1.y, p0.z, mat)
    requires Face(faces[2]) == Rect(XZ, p0.x, p1.x, p0.z, p1.z, p1.y, mat)
    requires Face(faces[3]) == Rect(XZ, p0.x, p1.x, p0.z, p1.z, p0.y, mat)
    requires Face(faces[4]) == Rect(YZ, p0.y, p1.y, p0.z, p1.z, p1.x, mat)
    requires Face(faces[5]) == Rect(YZ, p0.y, p1.y, p0.z, p1.z, p0.x, mat)
    ensures WellFormed(Box(p0, p1, HitableList(faces))) <==>
      p0.x != p1.x && p0.y != p1.y && p0.z != p1.z && MaterialWellFormed(mat)
  {
    var h := Box(p0, p1, HitableList(faces));
    if p0.x != p1.x && p0.y != p1.y && p0.z != p1.z && MaterialWellFormed(mat) {
      forall i | 0 <= i < 6
        ensures WellFormed(faces[i])
      {
        assert WellFormed(Face(faces[i]));
      }
    } else {
      if p0.x == p1.x || p0.y == p1.y || !MaterialWellFormed(mat) {
        assert !WellFormed(faces[0]);
      } else {
        assert !WellFormed(Face(faces[2]));
        assert !WellFormed(faces[2]);
      }
    }
  }

  /** Box::boundingBox always succeeds with the corners (p0, p1), whatever the faces'
      own boxes are. */
  lemma BoxBoundingBox(p0: Vector3, p1: Vector3, faces: Hitable, t0: real, t1: real, box: Aabbs.AABB)
    requires WellFormed(faces)
    ensures BoundingBox(Box(p0, p1, faces), t0, t1, box) == BoxQuery(true, Aabbs.AABB(p0, p1))
  {
  }

  /** Box::hit is the hit of the list of its faces, with the same window, record
      and draws. */
  lemma BoxHitIsFacesHit(p0: Vector3, p1: Vector3, faces: Hitable, r: Ray, t0: real, t1: real,
                         rec: HitRecord, env: Env, pos: nat)
    requires WellFormed(faces)
    ensures Hit(Box(p0, p1, faces), r, t0, t1, rec, env, pos) == Hit(faces, r, t0, t1, rec, env, pos)
  {
  }
}
