/**
  Placement of the comparison object beside the bills (positionComparisonModel), and
  the shape of the bills' bounding box that placement is measured from.
 */
module Placement {
  import opened Bounds
  import opened Grid
  import opened Stacks

  /** Where the comparison object goes when no bills are drawn. */
  const NoBillsPosition: Vec3 := Vec3(5.0, 0.0, 0.0)

  /** The gap left between bills and object, as a fraction of the wider of the two. */
  const GapFactor: real := 0.2

  /** The world-space boxes of the drawn stacks' meshes. */
  function MeshBoxes(stacks: seq<Stack>): (boxes: seq<Box>)
    ensures |boxes| == |stacks|
    ensures forall i :: 0 <= i < |stacks| ==> boxes[i] == stacks[i].MeshBox()
  {
    seq(|stacks|, i requires 0 <= i < |stacks| => stacks[i].MeshBox())
  }

  /** The gap positionComparisonModel leaves: 20% of the wider of the bills and the object. */
  function Gap(bills: Box, model: Box): (gap: real)
    ensures gap >= GapFactor * bills.Size().x && gap >= GapFactor * model.Size().x
    ensures gap == GapFactor * bills.Size().x || gap == GapFactor * model.Size().x
    ensures bills.Valid() ==> gap >= 0.0
  {
    Max(bills.Size().x, model.Size().x) * GapFactor
  }

  /**
    positionComparisonModel: the new position of an object whose current world box is
    `model` and whose position is `position`. With no bills it goes to (5, 0, 0);
    otherwise it moves along x to just right of the bills' box, leaving the gap, and
    along z to the bills' centre, keeping its height.
   */
  function PositionComparisonModel(billBoxes: seq<Box>, model: Box, position: Vec3): (p: Vec3)
    ensures |billBoxes| == 0 ==> p == NoBillsPosition
    ensures |billBoxes| > 0 ==>
              var bills := UnionAll(billBoxes);
              && p.y == position.y
              && p.x - model.Size().x / 2.0 == bills.hi.x + Gap(bills, model)
              && p.z == bills.Center().z
  {
    if |billBoxes| == 0 then NoBillsPosition
    else
      var bills := UnionAll(billBoxes);
      var spacing := Gap(bills, model);
      Vec3(bills.hi.x + spacing + model.Size().x / 2.0, position.y, bills.Center().z)
  }

  /** An object whose box is centred on its own position in x and z. */
  predicate CentredOn(model: Box, position: Vec3)
  {
    model.Center().x == position.x && model.Center().z == position.z
  }

  /** The object's box once the object is moved from `position` to `p`. */
  function Moved(model: Box, position: Vec3, p: Vec3): Box
  {
    model.Translate(Vec3(p.x - position.x, p.y - position.y, p.z - position.z))
  }

  /**
    For an object centred on its origin, the placed object lies entirely to the right of
    every bill, separated from the bills' box by exactly the gap, and is centred on the
    bills in z; it keeps its size.
   */
  lemma {:induction false} ComparisonBesideBills(billBoxes: seq<Box>, model: Box, position: Vec3)
    requires |billBoxes| > 0
    requires forall i :: 0 <= i < |billBoxes| ==> billBoxes[i].Valid()
    requires model.Valid() && CentredOn(model, position)
    ensures var bills := UnionAll(billBoxes);
            var placed := Moved(model, position, PositionComparisonModel(billBoxes, model, position));
            && placed.lo.x == bills.hi.x + Gap(bills, model)
            && placed.Size() == model.Size()
            && placed.Center().z == bills.Center().z
            && forall i :: 0 <= i < |billBoxes| ==> billBoxes[i].hi.x <= placed.lo.x
  {
    var bills := UnionAll(billBoxes);
    var p := PositionComparisonModel(billBoxes, model, position);
    var placed := Moved(model, position, p);
    assert placed.lo.x == model.lo.x + (p.x - position.x);
    assert model.lo.x == position.x - model.Size().x / 2.0;
  }

  /** The half-extent of the layout along x and z: the outermost cell centre plus half a bill. */
  function HalfWidth(g: Grid): real
  {
    Offset(g.columns - 1, g.columns, SpacingX) + BillWidth / 2.0
  }

  function HalfDepth(g: Grid): real
  {
    Offset(g.rows - 1, g.rows, SpacingZ) + BillHeight / 2.0
  }

  /** The stacks sit on the grid's centred positions in row-major order, as RenderBills draws them. */
  ghost predicate OnGrid(g: Grid, stacks: seq<Stack>)
    requires g.Valid()
  {
    && |stacks| == g.Cells()
    && forall i :: 0 <= i < |stacks| ==>
         stacks[i].x == Offset(i % g.columns, g.columns, SpacingX) &&
         stacks[i].z == Offset(i / g.columns, g.rows, SpacingZ)
  }

  /** Every stack lies between the first and the last column and row. */
  lemma {:induction false} StackWithinLayout(g: Grid, stacks: seq<Stack>, i: int)
    requires g.Valid() && OnGrid(g, stacks) && 0 <= i < |stacks|
    ensures -HalfWidth(g) <= stacks[i].MeshBox().lo.x && stacks[i].MeshBox().hi.x <= HalfWidth(g)
    ensures -HalfDepth(g) <= stacks[i].MeshBox().lo.z && stacks[i].MeshBox().hi.z <= HalfDepth(g)
  {
    RowInRange(g, i);
    OffsetSymmetric(i % g.columns, g.columns - 1, g.columns, SpacingX);
    OffsetSymmetric(0, i % g.columns, g.columns, SpacingX);
    OffsetSymmetric(i / g.columns, g.rows - 1, g.rows, SpacingZ);
    OffsetSymmetric(0, i / g.columns, g.rows, SpacingZ);
  }

  /**
    The bills' bounding box is centred on the origin in x and z: it spans exactly
    [-HalfWidth, HalfWidth] along x and [-HalfDepth, HalfDepth] along z, the outer
    edges of the first and last columns and rows.
   */
  lemma {:induction false} LayoutBoxCentred(g: Grid, stacks: seq<Stack>)
    requires g.Valid() && OnGrid(g, stacks)
    ensures var u := UnionAll(MeshBoxes(stacks));
            && u.lo.x == -HalfWidth(g) && u.hi.x == HalfWidth(g)
            && u.lo.z == -HalfDepth(g) && u.hi.z == HalfDepth(g)
            && u.Center().x == 0.0 && u.Center().z == 0.0
  {
    LayoutCorners(g, stacks);
    LayoutBoxX(g, stacks);
    LayoutBoxZ(g, stacks);
  }

  /** The x faces of the bills' box are the outer faces of the first and last columns. */
  lemma {:induction false} LayoutBoxX(g: Grid, stacks: seq<Stack>)
    requires g.Valid() && OnGrid(g, stacks)
    ensures var u := UnionAll(MeshBoxes(stacks));
            u.lo.x == -HalfWidth(g) && u.hi.x == HalfWidth(g)
  {
    var boxes := MeshBoxes(stacks);
    forall i | 0 <= i < |stacks|
      ensures -HalfWidth(g) <= boxes[i].lo.x && boxes[i].hi.x <= HalfWidth(g)
    {
      StackWithinLayout(g, stacks, i);
    }
    LayoutCorners(g, stacks);
    UnionAllSpanX(boxes, -HalfWidth(g), HalfWidth(g), 0, g.columns - 1);
  }

  /** The z faces of the bills' box are the outer faces of the first and last rows. */
  lemma {:induction false} LayoutBoxZ(g: Grid, stacks: seq<Stack>)
    requires g.Valid() && OnGrid(g, stacks)
    ensures var u := UnionAll(MeshBoxes(stacks));
            u.lo.z == -HalfDepth(g) && u.hi.z == HalfDepth(g)
  {
    var boxes := MeshBoxes(stacks);
    forall i | 0 <= i < |stacks|
      ensures -HalfDepth(g) <= boxes[i].lo.z && boxes[i].hi.z <= HalfDepth(g)
    {
      StackWithinLayout(g, stacks, i);
    }
    LayoutCorners(g, stacks);
    UnionAllSpanZ(boxes, -HalfDepth(g), HalfDepth(g), 0, g.Cells() - 1);
  }

  /**
    The stack at row-major position 0 has the outermost -x and -z faces, the last
    stack of row 0 the outermost +x face, and the last stack the outermost +z face.
   */
  lemma {:induction false} LayoutCorners(g: Grid, stacks: seq<Stack>)
    requires g.Valid() && OnGrid(g, stacks)
    ensures stacks[0].MeshBox().lo.x == -HalfWidth(g)
    ensures stacks[0].MeshBox().lo.z == -HalfDepth(g)
    ensures stacks[g.columns - 1].MeshBox().hi.x == HalfWidth(g)
    ensures stacks[g.Cells() - 1].MeshBox().hi.z == HalfDepth(g)
  {
    IndexInRange(g, 0, 0);
    IndexInRange(g, 0, g.columns - 1);
    IndexInRange(g, g.rows - 1, g.columns - 1);
    LastIndex(g);
    OffsetSymmetric(0, 0, g.columns, SpacingX);
    OffsetSymmetric(0, 0, g.rows, SpacingZ);
  }

  /**
    Beside the drawn layout, a centred comparison object ends up on the z = 0 axis,
    its near face HalfWidth plus the gap to the right of the origin.
   */
  lemma {:induction false} ComparisonBesideLayout(g: Grid, stacks: seq<Stack>, model: Box, position: Vec3)
    requires g.Valid() && OnGrid(g, stacks)
    requires forall i :: 0 <= i < |stacks| ==> stacks[i].MeshBox().Valid()
    requires model.Valid() && CentredOn(model, position)
    ensures var boxes := MeshBoxes(stacks);
            var p := PositionComparisonModel(boxes, model, position);
            var placed := Moved(model, position, p);
            && p.z == 0.0
            && placed.lo.x == HalfWidth(g) + Gap(UnionAll(boxes), model)
            && placed.lo.x > HalfWidth(g) > 0.0
  {
    var boxes := MeshBoxes(stacks);
    LayoutBoxCentred(g, stacks);
    ComparisonBesideBills(boxes, model, position);
    OffsetSymmetric(0, g.columns - 1, g.columns, SpacingX);
  }
}
