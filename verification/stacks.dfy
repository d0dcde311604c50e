/**
  The stacks renderBills draws: one mesh per grid cell, built from a shared box
  geometry of one full stack scaled vertically to the cell's bill count, standing on
  the ground plane.
 */
module Stacks {
  import opened Amount
  import opened Grid
  import opened Distribution
  import opened Bounds

  /** The height of the shared geometry: one stack of 100 bills. */
  const StandardStackHeight: real := BillThickness * BillsPerStack as real

  /** A drawn stack: its mesh's centre, its vertical scale, and the bills it stands for. */
  datatype Stack = Stack(x: real, y: real, z: real, scaleY: real, billCount: int)
  {
    /** The world-space box of the scaled mesh. */
    function MeshBox(): Box
    {
      var halfY := StandardStackHeight * scaleY / 2.0;
      Box(Vec3(x - BillWidth / 2.0, y - halfY, z - BillHeight / 2.0),
          Vec3(x + BillWidth / 2.0, y + halfY, z + BillHeight / 2.0))
    }
  }

  /**
    createVisualStack: a stack of `bills` bills whose bottom is at height y. Scaling the
    100-bill geometry by bills/100 and lifting it by half its height makes the mesh
    exactly one bill thickness per bill tall, standing on y, and one bill wide and
    deep around (x, z).
   */
  function VisualStack(x: real, y: real, z: real, bills: int): (s: Stack)
    ensures s.billCount == bills
    ensures s.MeshBox().lo.y == y
    ensures s.MeshBox().hi.y == y + BillThickness * bills as real
    ensures s.MeshBox().Center().x == x && s.MeshBox().Center().z == z
    ensures s.MeshBox().Size().x == BillWidth && s.MeshBox().Size().z == BillHeight
    ensures bills >= 0 ==> s.MeshBox().Valid()
  {
    var stackHeight := BillThickness * bills as real;
    var scaleY := stackHeight / StandardStackHeight;
    Stack(x, y + stackHeight / 2.0, z, scaleY, bills)
  }

  /** Total bills over the drawn stacks. */
  function TotalStackBills(stacks: seq<Stack>): int
  {
    if |stacks| == 0 then 0 else TotalStackBills(stacks[..|stacks| - 1]) + stacks[|stacks| - 1].billCount
  }

  /** The grid renderBills picks for numBills > 0 bills, given the two float-derived suggestions. */
  function LayoutGrid(numBills: nat, layersFor: int -> int, columnsFor: int -> Pos): (g: Grid)
    requires numBills > 0
    ensures g.Valid()
    ensures var p := StacksPerLayer(NumStacks(numBills), layersFor(NumStacks(numBills)));
            && (g.rows < MaxGridZ ==> g.Cells() >= p)
            && (g.rows < MaxGridZ ==> (g.rows - 1) * g.columns < p)
            && (g.rows == MaxGridZ ==> (MaxGridZ - 1) * g.columns < p)
            && (g.columns < MaxGridX ==> g.columns == columnsFor(p))
            && (g.columns == MaxGridX ==> columnsFor(p) >= MaxGridX)
  {
    var numStacks := NumStacks(numBills);
    ChooseGrid(numStacks, layersFor(numStacks), columnsFor)
  }

  /** The base bills of every cell of that grid: completeLayersCount stacks' worth. */
  function BaseBills(numBills: nat, g: Grid): (b: int)
    requires g.Valid()
    ensures b >= 0 && b % BillsPerStack == 0
  {
    SplitLayers(numBills, g).completeLayers * BillsPerStack
  }

  /**
    The stack-creation loop of renderBills: one stack per grid position, in the
    positions' order, each standing on the ground at the position's x and z with the
    position's bills; the stacks hold as many bills as the positions.
   */
  method CreateStacks(cells: seq<Cell>) returns (stacks: seq<Stack>)
    ensures |stacks| == |cells|
    ensures forall i :: 0 <= i < |cells| ==>
              stacks[i].x == cells[i].x && stacks[i].z == cells[i].z && stacks[i].billCount == cells[i].bills
    ensures forall i :: 0 <= i < |cells| ==>
              stacks[i] == VisualStack(cells[i].x, 0.0, cells[i].z, cells[i].bills)
    ensures TotalStackBills(stacks) == TotalBills(cells)
  {
    stacks := [];
    var stacksCreated := 0;
    while stacksCreated < |cells|
      invariant 0 <= stacksCreated <= |cells|
      invariant |stacks| == stacksCreated
      invariant forall i :: 0 <= i < stacksCreated ==>
                  stacks[i] == VisualStack(cells[i].x, 0.0, cells[i].z, cells[i].bills)
      invariant TotalStackBills(stacks) == TotalBills(cells[..stacksCreated])
    {
      var c := cells[stacksCreated];
      var s := VisualStack(c.x, 0.0, c.z, c.bills);
      assert (stacks + [s])[..stacksCreated] == stacks;
      assert cells[..stacksCreated + 1][..stacksCreated] == cells[..stacksCreated];
      stacks := stacks + [s];
      stacksCreated := stacksCreated + 1;
    }
    assert cells[..stacksCreated] == cells;
  }

  /**
    renderBills, from the selected amount to the drawn stacks. Nothing is drawn when the
    normalised amount has no positive bill count; otherwise exactly one stack per grid
    cell is drawn (empty ones included), in row-major order at the cell's centred
    position, standing on the ground, every stack within one full stack of the base
    count, and the stacks together hold exactly the normalised number of bills.
   */
  method RenderBills(input: Number, layersFor: int -> int, columnsFor: int -> Pos) returns (stacks: seq<Stack>)
    ensures TotalStackBills(stacks) == BillsToDraw(Normalise(input))
    ensures |stacks| == 0 <==> BillsToDraw(Normalise(input)) == 0
    ensures |stacks| <= MaxGridX * MaxGridZ
    ensures |stacks| > 0 ==> DrawnLayout(BillsToDraw(Normalise(input)), layersFor, columnsFor, stacks)
  {
    var amount := Normalise(input);
    var numBills := BillsToDraw(amount);
    if numBills <= 0 {
      return [];
    }
    stacks := DrawBills(numBills, layersFor, columnsFor);
  }

  /**
    The stacks renderBills draws for n > 0 bills: one per cell of the chosen grid, in
    row-major order at the cell's centred position, standing on the ground, each
    holding the base count plus its share of the remainder and exactly that tall.
   */
  predicate DrawnLayout(n: nat, layersFor: int -> int, columnsFor: int -> Pos, stacks: seq<Stack>)
    requires n > 0
  {
    var g := LayoutGrid(n, layersFor, columnsFor);
    && |stacks| == g.Cells()
    && forall i :: 0 <= i < |stacks| ==>
         && stacks[i].x == Offset(i % g.columns, g.columns, SpacingX)
         && stacks[i].z == Offset(i / g.columns, g.rows, SpacingZ)
         && stacks[i].MeshBox().lo.y == 0.0
         && BaseBills(n, g) <= stacks[i].billCount <= BaseBills(n, g) + BillsPerStack
         && stacks[i].billCount == BaseBills(n, g) + Share(SplitLayers(n, g).remaining, i)
         && stacks[i].MeshBox().hi.y == BillThickness * stacks[i].billCount as real
  }

  /** The drawing half of renderBills, once there is a positive number of bills. */
  method DrawBills(numBills: nat, layersFor: int -> int, columnsFor: int -> Pos) returns (stacks: seq<Stack>)
    requires numBills > 0
    ensures TotalStackBills(stacks) == numBills
    ensures 0 < |stacks| <= MaxGridX * MaxGridZ
    ensures DrawnLayout(numBills, layersFor, columnsFor, stacks)
  {
    var g := LayoutGrid(numBills, layersFor, columnsFor);
    var cells := Distribute(numBills, g);
    stacks := CreateStacks(cells);
    MulMonotone(1, g.columns, g.rows);
    MulMonotone(g.rows, MaxGridZ, g.columns);
    MulMonotone(g.columns, MaxGridX, MaxGridZ);
    StacksOnGrid(g, cells, stacks);
  }

  /**
    Stacks made one per cell, from cells laid out in row-major order, stand at the
    centred offsets of their row-major index, on the ground, as tall as their bills.
   */
  lemma {:induction false} StacksOnGrid(g: Grid, cells: seq<Cell>, stacks: seq<Stack>)
    requires g.Valid() && |cells| == g.Cells() && |stacks| == |cells|
    requires forall i :: 0 <= i < |cells| ==>
               0 <= cells[i].row < g.rows && 0 <= cells[i].col < g.columns &&
               g.Index(cells[i].row, cells[i].col) == i &&
               cells[i].x == Offset(cells[i].col, g.columns, SpacingX) &&
               cells[i].z == Offset(cells[i].row, g.rows, SpacingZ)
    requires forall i :: 0 <= i < |cells| ==>
               stacks[i] == VisualStack(cells[i].x, 0.0, cells[i].z, cells[i].bills)
    ensures forall i :: 0 <= i < |stacks| ==>
              && stacks[i].x == Offset(i % g.columns, g.columns, SpacingX)
              && stacks[i].z == Offset(i / g.columns, g.rows, SpacingZ)
              && stacks[i].billCount == cells[i].bills
              && stacks[i].MeshBox().lo.y == 0.0
              && stacks[i].MeshBox().hi.y == BillThickness * stacks[i].billCount as real
  {
    forall i | 0 <= i < |stacks|
      ensures stacks[i].x == Offset(i % g.columns, g.columns, SpacingX)
      ensures stacks[i].z == Offset(i / g.columns, g.rows, SpacingZ)
    {
      IndexInRange(g, cells[i].row, cells[i].col);
    }
  }

  /**
    The number of layers renderBills computes, ceil(numStacks / cells), is the height
    of the pile: completeLayersCount, plus one exactly when a partial layer is left over.
   */
  lemma {:induction false} NumLayersIsPileHeight(numBills: nat, g: Grid)
    requires g.Valid() && numBills > 0
    ensures var s := SplitLayers(numBills, g);
            CeilDiv(NumStacks(numBills), g.Cells()) ==
              if s.remaining == 0 then s.completeLayers else s.completeLayers + 1
  {
    var s := SplitLayers(numBills, g);
    MulMonotone(1, g.columns, g.rows);
    var full := s.completeLayers * g.Cells();
    assert numBills == full * BillsPerStack + s.remaining;
    if s.remaining == 0 {
      WholeLayers(numBills, g.Cells(), s.completeLayers);
    } else {
      PartialLayer(numBills, g.Cells(), s.completeLayers, s.remaining);
    }
  }

  /** A pile of exactly c whole layers of `cells` full stacks is c layers high. */
  lemma {:induction false} WholeLayers(numBills: int, cells: int, c: int)
    requires cells >= 1 && c >= 0 && numBills == (c * cells) * BillsPerStack
    ensures CeilDiv(CeilDiv(numBills, BillsPerStack), cells) == c
  {
    var full := c * cells;
    CeilDivUnique(numBills, BillsPerStack, full);
    CeilDivUnique(full, cells, c);
  }

  /** c whole layers plus 0 < r < cells*100 bills make a pile c + 1 layers high. */
  lemma {:induction false} PartialLayer(numBills: int, cells: int, c: int, r: int)
    requires cells >= 1 && c >= 0 && 0 < r < cells * BillsPerStack
    requires numBills == (c * cells) * BillsPerStack + r
    ensures CeilDiv(CeilDiv(numBills, BillsPerStack), cells) == c + 1
  {
    var full := c * cells;
    var t := CeilDiv(r, BillsPerStack);
    assert 1 <= t <= cells by {
      assert (t - 1) * BillsPerStack < cells * BillsPerStack;
    }
    CeilDivUnique(numBills, BillsPerStack, full + t);
    assert (c + 1) * cells == full + cells;
    CeilDivUnique(full + t, cells, c + 1);
  }

  /**
    Hence no stack is taller than numLayers full stacks, and the first cell, where the
    partial layer starts, is taller than numLayers - 1 of them.
   */
  lemma {:induction false} LayersMatchPile(numBills: nat, g: Grid)
    requires g.Valid() && numBills > 0
    ensures var s := SplitLayers(numBills, g);
            var numLayers := CeilDiv(NumStacks(numBills), g.Cells());
            && (numLayers - 1) * BillsPerStack < BaseBills(numBills, g) + Share(s.remaining, 0)
            && forall i :: 0 <= i ==> BaseBills(numBills, g) + Share(s.remaining, i) <= numLayers * BillsPerStack
  {
    var s := SplitLayers(numBills, g);
    NumLayersIsPileHeight(numBills, g);
    assert s.remaining == 0 ==> s.completeLayers != 0 by {
      assert s.completeLayers == 0 ==> numBills == s.remaining;
    }
    PileBounds(s.completeLayers, s.remaining, CeilDiv(NumStacks(numBills), g.Cells()));
  }

  /** The bounds of LayersMatchPile, for c complete layers and a remainder r. */
  lemma PileBounds(c: int, r: int, layers: int)
    requires c >= 0 && r >= 0 && (r == 0 ==> c >= 1)
    requires layers == if r == 0 then c else c + 1
    ensures (layers - 1) * BillsPerStack < c * BillsPerStack + Share(r, 0)
    ensures forall i :: 0 <= i ==> c * BillsPerStack + Share(r, i) <= layers * BillsPerStack
  {
    assert layers * BillsPerStack == c * BillsPerStack + (if r == 0 then 0 else BillsPerStack);
    assert (layers - 1) * BillsPerStack == layers * BillsPerStack - BillsPerStack;
  }

  /** Math.ceil(a / b) is the only q with (q-1)*b < a <= q*b. */
  lemma {:induction false} CeilDivUnique(a: int, b: int, q: int)
    requires b > 0 && (q - 1) * b < a <= q * b
    ensures CeilDiv(a, b) == q
  {
    var q' := CeilDiv(a, b);
    assert (q - q') * b == q * b - q' * b;
    SmallMultipleIsZero(q - q', b);
  }
}
