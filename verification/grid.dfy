/**
  Grid sizing and cell placement for the bill stacks drawn by renderBills.

  The number of columns suggested by the bill's aspect ratio (a float square root)
  and the number of layers suggested by the target height (a float cube root) are
  parameters: `columnsFor` and `layersFor`. Everything built from them is the
  integer and exact-real arithmetic of renderBills.
 */
module Grid {

  /** Bills in one full stack. */
  const BillsPerStack: int := 100

  /** Caps on the number of columns (x) and rows (z) of the grid. */
  const MaxGridX: int := 75
  const MaxGridZ: int := 150

  /** Bill dimensions in scene units (width along x, height along z, thickness along y). */
  const BillWidth: real := 1.56
  const BillHeight: real := 0.663
  const BillThickness: real := 0.0011

  /** Distance between neighbouring cell centres: the bill size plus a 15% gap. */
  const SpacingX: real := BillWidth * 1.15
  const SpacingZ: real := BillHeight * 1.15

  /** A positive integer, as the ceiling of a square root of a positive value always is. */
  type Pos = n: int | n >= 1 witness 1

  /** Math.ceil(a / b) for a positive divisor. */
  function CeilDiv(a: int, b: int): (q: int)
    requires b > 0
    ensures (q - 1) * b < a <= q * b
  {
    var f := (-a) / b;
    assert f * b <= -a < f * b + b;
    -f
  }

  /** The number of stacks needed for numBills bills: (s-1)*100 < numBills <= s*100. */
  function NumStacks(numBills: nat): (s: nat)
    ensures (s - 1) * BillsPerStack < numBills <= s * BillsPerStack
    ensures numBills > 0 ==> s >= 1
  {
    CeilDiv(numBills, BillsPerStack)
  }

  /** The grid: `columns` is gridX (along x), `rows` is gridZ (along z). */
  datatype Grid = Grid(columns: int, rows: int)
  {
    predicate Valid()
    {
      1 <= columns <= MaxGridX && 1 <= rows <= MaxGridZ
    }

    function Cells(): (n: int)
      ensures columns >= 1 && rows >= 1 ==> n >= columns && n >= rows
    {
      assert columns >= 1 && rows >= 1 ==> columns * rows >= columns && columns * rows >= rows by {
        if columns >= 1 && rows >= 1 {
          MulMonotone(1, columns, rows);
          MulMonotone(1, rows, columns);
        }
      }
      columns * rows
    }

    /** The row-major position of (row, col); positions inside the grid map into [0, Cells()). */
    function Index(row: int, col: int): (k: int)
      ensures 0 <= row < rows && 0 <= col < columns ==> 0 <= k < Cells()
    {
      assert 0 <= row < rows && 0 <= col < columns ==> 0 <= row * columns + col < Cells() by {
        if 0 <= row < rows && 0 <= col < columns {
          MulMonotone(row, rows - 1, columns);
        }
      }
      row * columns + col
    }
  }

  /**
    How many stacks one layer has to hold: all of them, or, when the target height
    calls for more than one layer, an equal share per layer rounded up.
   */
  function StacksPerLayer(numStacks: int, layersNeeded: int): (p: int)
    requires numStacks >= 1
    ensures 1 <= p <= numStacks
    ensures layersNeeded > 1 ==> (p - 1) * layersNeeded < numStacks <= p * layersNeeded
    ensures layersNeeded <= 1 ==> p == numStacks
  {
    if layersNeeded > 1 then
      CeilDivBetween(numStacks, layersNeeded);
      CeilDiv(numStacks, layersNeeded)
    else
      numStacks
  }

  /** Dividing a positive count by a positive divisor and rounding up gives 1 .. a. */
  lemma {:induction false} CeilDivBetween(a: int, b: int)
    requires a >= 1 && b >= 1
    ensures 1 <= CeilDiv(a, b) <= a
  {
    var q := CeilDiv(a, b);
    if q <= 0 {
      MulMonotone(0, -q, b);
    } else {
      MulMonotone(1, b, q - 1);
    }
  }

  /**
    Columns for a layer of `stacks` stacks (capped), then as many rows as those columns
    need (capped). A cap is taken only when the uncapped value reaches it.
   */
  function FitGrid(stacks: int, columnsFor: int -> Pos): (g: Grid)
    requires stacks >= 1
    ensures g.Valid()
    ensures g.rows < MaxGridZ ==> g.Cells() >= stacks && (g.rows - 1) * g.columns < stacks
    ensures g.columns < MaxGridX ==> g.columns == columnsFor(stacks)
    ensures g.columns == MaxGridX ==> columnsFor(stacks) >= MaxGridX
    ensures g.rows == MaxGridZ ==> (MaxGridZ - 1) * g.columns < stacks
  {
    var gridX := if columnsFor(stacks) < MaxGridX then columnsFor(stacks) as int else MaxGridX;
    var gridZ := CeilDiv(stacks, gridX);
    Grid(gridX, if gridZ < MaxGridZ then gridZ else MaxGridZ)
  }

  /**
    The grid renderBills settles on: first fitted to all stacks, then, if more than one
    layer is needed, fitted again to the stacks of one layer. Both dimensions stay
    within their caps; unless the row cap is hit, the grid holds a whole layer and has
    no spare row; unless the column cap is hit, the columns are the suggested ones.
   */
  function ChooseGrid(numStacks: int, layersNeeded: int, columnsFor: int -> Pos): (g: Grid)
    requires numStacks >= 1
    ensures g.Valid()
    ensures g.rows < MaxGridZ ==> g.Cells() >= StacksPerLayer(numStacks, layersNeeded)
    ensures g.rows < MaxGridZ ==> (g.rows - 1) * g.columns < StacksPerLayer(numStacks, layersNeeded)
    ensures g.columns < MaxGridX ==> g.columns == columnsFor(StacksPerLayer(numStacks, layersNeeded))
    ensures g.columns == MaxGridX ==> columnsFor(StacksPerLayer(numStacks, layersNeeded)) >= MaxGridX
    ensures g.rows == MaxGridZ ==> (MaxGridZ - 1) * g.columns < StacksPerLayer(numStacks, layersNeeded)
  {
    var first := FitGrid(numStacks, columnsFor);
    if layersNeeded > 1 then FitGrid(CeilDiv(numStacks, layersNeeded), columnsFor) else first
  }

  /** The centre offset of index i among count evenly spaced positions centred on 0. */
  function Offset(i: int, count: int, spacing: real): real
  {
    (i as real - (count - 1) as real / 2.0) * spacing
  }

  /** Mirrored indices sit at negated offsets, and offsets grow with the index. */
  lemma OffsetSymmetric(i: int, j: int, count: int, spacing: real)
    requires spacing > 0.0
    ensures Offset(count - 1 - i, count, spacing) == -Offset(i, count, spacing)
    ensures i < j <==> Offset(i, count, spacing) < Offset(j, count, spacing)
  {
  }

  /** One grid position: its row and column, the x/z centre and the bills stacked there. */
  datatype Cell = Cell(row: int, col: int, x: real, z: real, bills: int)

  /** Row-major indexing is a bijection between the rectangle and [0, columns*rows). */
  lemma {:induction false} IndexInRange(g: Grid, row: int, col: int)
    requires 0 <= row < g.rows && 0 <= col < g.columns
    ensures g.Index(row, col) / g.columns == row
    ensures g.Index(row, col) % g.columns == col
  {
    DivModUnique(g.Index(row, col), g.columns, row, col);
  }

  /** The last row-major position is the cell in the last row and last column. */
  lemma LastIndex(g: Grid)
    ensures g.Index(g.rows - 1, g.columns - 1) == g.Cells() - 1
  {
    assert (g.rows - 1) * g.columns == g.rows * g.columns - g.columns;
  }

  /** Euclidean division is determined by its defining equation. */
  lemma {:induction false} DivModUnique(a: int, b: int, q: int, r: int)
    requires b > 0 && 0 <= r < b && a == q * b + r
    ensures a / b == q && a % b == r
  {
    var q', r' := a / b, a % b;
    DivMod(a, b);
    var d := q - q';
    assert d * b == r' - r by {
      assert q * b - q' * b == (q - q') * b;
    }
    SmallMultipleIsZero(d, b);
  }

  /** The only multiple of b strictly between -b and b is 0. */
  lemma {:induction false} SmallMultipleIsZero(d: int, b: int)
    requires b > 0 && -b < d * b < b
    ensures d == 0
  {
  }

  /** Multiplying by a non-negative factor keeps the order. */
  lemma {:induction false} MulMonotone(a: int, b: int, c: int)
    requires 0 <= a <= b && c >= 0
    ensures 0 <= a * c <= b * c
  {
    assert b * c == a * c + (b - a) * c;
  }

  /** The defining equation of Euclidean division by a positive divisor. */
  lemma DivMod(a: int, b: int)
    requires b > 0
    ensures a == (a / b) * b + a % b && 0 <= a % b < b
  {
  }

  /** Quotient bounds: an index below columns*rows has a row below rows. */
  lemma {:induction false} RowInRange(g: Grid, i: int)
    requires g.columns >= 1 && 0 <= i < g.Cells()
    ensures 0 <= i / g.columns < g.rows
    ensures g.Index(i / g.columns, i % g.columns) == i
  {
    DivMod(i, g.columns);
  }

  /** The cell at row-major index i, before any remainder is added. */
  function BaseCell(g: Grid, i: int, bills: int): Cell
    requires g.columns >= 1
  {
    var row, col := i / g.columns, i % g.columns;
    Cell(row, col, Offset(col, g.columns, SpacingX), Offset(row, g.rows, SpacingZ), bills)
  }

  /**
    The first nested loop of renderBills: every (row, col) of the grid, in row-major
    order, at its centred position, holding `bills` bills.
   */
  function BaseLayer(g: Grid, bills: int): (cells: seq<Cell>)
    requires g.Valid()
    ensures |cells| == g.Cells()
    ensures forall i :: 0 <= i < |cells| ==> cells[i].bills == bills
    ensures forall i :: 0 <= i < |cells| ==>
              0 <= cells[i].row < g.rows && 0 <= cells[i].col < g.columns &&
              g.Index(cells[i].row, cells[i].col) == i
  {
    var cells := seq(g.Cells(), i requires 0 <= i < g.Cells() => BaseCell(g, i, bills));
    assert forall i :: 0 <= i < |cells| ==>
              0 <= cells[i].row < g.rows && 0 <= cells[i].col < g.columns &&
              g.Index(cells[i].row, cells[i].col) == i by {
      forall i | 0 <= i < |cells|
        ensures 0 <= cells[i].row < g.rows && 0 <= cells[i].col < g.columns &&
                g.Index(cells[i].row, cells[i].col) == i
      {
        RowInRange(g, i);
      }
    }
    cells
  }

  /**
    The layout holds exactly one cell per (row, col): the cell at Index(row, col) has
    that row and column and sits at its centred offsets, and no two cells share a key.
   */
  lemma {:induction false} BaseLayerCoversGrid(g: Grid, bills: int, row: int, col: int)
    requires g.Valid()
    requires 0 <= row < g.rows && 0 <= col < g.columns
    ensures var cells := BaseLayer(g, bills);
            var c := cells[g.Index(row, col)];
            c.row == row && c.col == col &&
            c.x == Offset(col, g.columns, SpacingX) && c.z == Offset(row, g.rows, SpacingZ)
  {
    var k := g.Index(row, col);
    IndexInRange(g, row, col);
    var cells := BaseLayer(g, bills);
    assert cells[k] == BaseCell(g, k, bills);
    assert k / g.columns == row;
    assert k % g.columns == col;
    assert cells[k].row == row;
    assert cells[k].col == col;
  }

  /** Distinct positions of the base layer carry distinct (row, col) keys. */
  lemma {:induction false} BaseLayerKeysDistinct(g: Grid, bills: int, i: int, j: int)
    requires g.Valid()
    requires 0 <= i < g.Cells() && 0 <= j < g.Cells() && i != j
    ensures var cells := BaseLayer(g, bills);
            cells[i].row != cells[j].row || cells[i].col != cells[j].col
  {
    var cells := BaseLayer(g, bills);
    assert g.Index(cells[i].row, cells[i].col) == i;
    assert g.Index(cells[j].row, cells[j].col) == j;
  }

  /**
    The layout is centred on the origin: the cell at row-major index i and the one at
    the mirrored index (that is, at (rows-1-row, columns-1-col)) sit at negated positions.
   */
  lemma {:induction false} BaseLayerCentred(g: Grid, bills: int, i: int)
    requires g.Valid()
    requires 0 <= i < g.Cells()
    ensures var cells := BaseLayer(g, bills);
            var m := cells[g.Cells() - 1 - i];
            m.row == g.rows - 1 - cells[i].row && m.col == g.columns - 1 - cells[i].col &&
            m.x == -cells[i].x && m.z == -cells[i].z
  {
    var cells := BaseLayer(g, bills);
    var row, col := cells[i].row, cells[i].col;
    var mrow, mcol := g.rows - 1 - row, g.columns - 1 - col;
    assert g.Index(row, col) == i;
    MirrorIndex(g, row, col);
    BaseLayerCoversGrid(g, bills, mrow, mcol);
    OffsetSymmetric(col, col, g.columns, SpacingX);
    OffsetSymmetric(row, row, g.rows, SpacingZ);
  }

  /** The mirrored position (rows-1-row, columns-1-col) has the mirrored row-major index. */
  lemma {:induction false} MirrorIndex(g: Grid, row: int, col: int)
    ensures g.Index(g.rows - 1 - row, g.columns - 1 - col) == g.Cells() - 1 - g.Index(row, col)
  {
    assert (g.rows - 1 - row) * g.columns == g.rows * g.columns - g.columns - row * g.columns;
  }
}
