/**
  Axis-aligned bounding boxes, as far as the layout uses them: the box of one mesh,
  the union of several, and a box's size and centre.
 */
module Bounds {

  datatype Vec3 = Vec3(x: real, y: real, z: real)

  function Min(a: real, b: real): real
  {
    if a <= b then a else b
  }

  function Max(a: real, b: real): real
  {
    if a <= b then b else a
  }

  /** A box given by its minimum and maximum corners. */
  datatype Box = Box(lo: Vec3, hi: Vec3)
  {
    /** The corners are ordered on every axis (the box of any real object is). */
    predicate Valid()
    {
      lo.x <= hi.x && lo.y <= hi.y && lo.z <= hi.z
    }

    function Size(): Vec3
    {
      Vec3(hi.x - lo.x, hi.y - lo.y, hi.z - lo.z)
    }

    function Center(): Vec3
    {
      Vec3((lo.x + hi.x) / 2.0, (lo.y + hi.y) / 2.0, (lo.z + hi.z) / 2.0)
    }

    /** This box lies inside `outer` on every axis. */
    predicate Within(outer: Box)
    {
      && outer.lo.x <= lo.x && hi.x <= outer.hi.x
      && outer.lo.y <= lo.y && hi.y <= outer.hi.y
      && outer.lo.z <= lo.z && hi.z <= outer.hi.z
    }

    /** The same box moved by `d`. */
    function Translate(d: Vec3): Box
    {
      Box(Vec3(lo.x + d.x, lo.y + d.y, lo.z + d.z), Vec3(hi.x + d.x, hi.y + d.y, hi.z + d.z))
    }
  }

  /** The union of two boxes: the smallest box containing both. */
  function Union(a: Box, b: Box): (u: Box)
    ensures a.Within(u) && b.Within(u)
    ensures u.lo.x == a.lo.x || u.lo.x == b.lo.x
    ensures u.hi.x == a.hi.x || u.hi.x == b.hi.x
    ensures u.lo.y == a.lo.y || u.lo.y == b.lo.y
    ensures u.hi.y == a.hi.y || u.hi.y == b.hi.y
    ensures u.lo.z == a.lo.z || u.lo.z == b.lo.z
    ensures u.hi.z == a.hi.z || u.hi.z == b.hi.z
    ensures a.Valid() ==> u.Valid()
  {
    Box(Vec3(Min(a.lo.x, b.lo.x), Min(a.lo.y, b.lo.y), Min(a.lo.z, b.lo.z)),
        Vec3(Max(a.hi.x, b.hi.x), Max(a.hi.y, b.hi.y), Max(a.hi.z, b.hi.z)))
  }

  /**
    The union of a non-empty sequence of boxes, accumulated left to right as the
    source's loop of `union` calls does. It contains every box, and each of its x and z
    faces is a face of one of them.
   */
  function UnionAll(boxes: seq<Box>): (u: Box)
    requires |boxes| > 0
    ensures forall i :: 0 <= i < |boxes| ==> boxes[i].Within(u)
    ensures exists i :: 0 <= i < |boxes| && u.lo.x == boxes[i].lo.x
    ensures exists i :: 0 <= i < |boxes| && u.hi.x == boxes[i].hi.x
    ensures exists i :: 0 <= i < |boxes| && u.lo.z == boxes[i].lo.z
    ensures exists i :: 0 <= i < |boxes| && u.hi.z == boxes[i].hi.z
    ensures boxes[0].Valid() ==> u.Valid()
    decreases |boxes|
  {
    if |boxes| == 1 then boxes[0]
    else
      var n := |boxes| - 1;
      var front := UnionAll(boxes[..n]);
      var u := Union(front, boxes[n]);
      assert forall i :: 0 <= i < n ==> boxes[..n][i] == boxes[i];
      u
  }

  /**
    When every box's x faces lie in [a, b] and some box reaches each end, the union
    spans exactly [a, b] along x; likewise along z.
   */
  lemma UnionAllSpanX(boxes: seq<Box>, a: real, b: real, j: int, k: int)
    requires 0 <= j < |boxes| && 0 <= k < |boxes|
    requires forall i :: 0 <= i < |boxes| ==> a <= boxes[i].lo.x && boxes[i].hi.x <= b
    requires boxes[j].lo.x == a && boxes[k].hi.x == b
    ensures UnionAll(boxes).lo.x == a && UnionAll(boxes).hi.x == b
  {
  }

  lemma UnionAllSpanZ(boxes: seq<Box>, a: real, b: real, j: int, k: int)
    requires 0 <= j < |boxes| && 0 <= k < |boxes|
    requires forall i :: 0 <= i < |boxes| ==> a <= boxes[i].lo.z && boxes[i].hi.z <= b
    requires boxes[j].lo.z == a && boxes[k].hi.z == b
    ensures UnionAll(boxes).lo.z == a && UnionAll(boxes).hi.z == b
  {
  }
}
