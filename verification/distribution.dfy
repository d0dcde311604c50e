/**
  Distribution of bills over the grid: every cell first receives the bills of the
  complete layers, then the leftover bills go out in row-major order, at most one
  full stack per cell, until none remain.
 */
module Distribution {
  import opened Grid

  /**
    The extra bills the remainder loop hands to the cell at row-major index i when it
    starts with `remaining` bills: the cells before i have used up 100 each, and this
    cell takes at most one stack of what is left.
   */
  function Share(remaining: int, i: int): (extra: int)
    ensures 0 <= extra <= BillsPerStack
  {
    var left := remaining - BillsPerStack * i;
    if left <= 0 then 0 else if left < BillsPerStack then left else BillsPerStack
  }

  /** What is left after cells 0 .. k-1 have taken their share. */
  function LeftAfter(remaining: int, k: int): int
  {
    var left := remaining - BillsPerStack * k;
    if left <= 0 then 0 else left
  }

  /** The cell at position i once its share of the remainder has been added. */
  function WithShare(c: Cell, remaining: int, i: int): Cell
  {
    c.(bills := c.bills + Share(remaining, i))
  }

  /** The cells before position k have their share; the rest are as they were. */
  ghost predicate FilledUpTo(filled: seq<Cell>, cells: seq<Cell>, remaining: int, k: int)
  {
    && |filled| == |cells|
    && forall i :: 0 <= i < |cells| ==>
         filled[i] == if i < k then WithShare(cells[i], remaining, i) else cells[i]
  }

  /**
    The inner loop of renderBills' remainder distribution, over one row whose cells sit
    at positions start .. start+width-1: each cell in turn takes min(100, leftover) until
    the row ends or nothing is left. Every cell it reaches gets exactly its share, and
    it stops early only when the leftover is used up.
   */
  method FillRow(cells: seq<Cell>, remaining: int, filled: seq<Cell>, leftover: int, start: int, width: int)
    returns (filled': seq<Cell>, leftover': int, next: int)
    requires 0 <= start && 0 <= width && start + width <= |cells|
    requires FilledUpTo(filled, cells, remaining, start)
    requires leftover == LeftAfter(remaining, start)
    ensures start <= next <= start + width
    ensures next < start + width ==> leftover' == 0
    ensures FilledUpTo(filled', cells, remaining, next)
    ensures leftover' == LeftAfter(remaining, next)
  {
    filled', leftover' := filled, leftover;
    var col := 0;
    while col < width && leftover' > 0
      invariant 0 <= col <= width
      invariant FilledUpTo(filled', cells, remaining, start + col)
      invariant leftover' == LeftAfter(remaining, start + col)
    {
      var k := start + col;
      var stackBills := if BillsPerStack < leftover' then BillsPerStack else leftover';
      assert stackBills == Share(remaining, k);
      leftover' := leftover' - stackBills;
      filled' := filled'[k := filled'[k].(bills := filled'[k].bills + stackBills)];
      col := col + 1;
    }
    next := start + col;
  }

  /**
    The second nested loop of renderBills. Starting from `remaining` leftover bills it
    walks the cells row by row, each time adding min(100, remaining) bills to the cell
    and stopping as soon as nothing remains. Each cell receives exactly its Share and
    nothing else about it changes; what is still undistributed at the end is whatever
    exceeded one full stack per cell.
   */
  method DistributeRemainder(g: Grid, cells: seq<Cell>, remaining: int) returns (filled: seq<Cell>, leftover: int)
    requires g.Valid() && |cells| == g.Cells()
    ensures |filled| == |cells|
    ensures forall i :: 0 <= i < |cells| ==> filled[i] == WithShare(cells[i], remaining, i)
    ensures leftover == if remaining <= 0 then remaining else LeftAfter(remaining, |cells|)
    ensures remaining >= 0 ==> leftover >= 0
    ensures remaining <= BillsPerStack * |cells| ==> leftover <= 0
  {
    filled := cells;
    leftover := remaining;
    if leftover > 0 {
      var row := 0;
      var k := 0;  // the row-major position reached, Index(row, 0) while bills remain
      while row < g.rows && leftover > 0
        invariant 0 <= row <= g.rows
        invariant 0 <= k <= |cells|
        invariant leftover > 0 ==> k == row * g.columns
        invariant FilledUpTo(filled, cells, remaining, k)
        invariant leftover == LeftAfter(remaining, k)
      {
        MulMonotone(row + 1, g.rows, g.columns);
        filled, leftover, k := FillRow(cells, remaining, filled, leftover, k, g.columns);
        row := row + 1;
      }
      // Either every row was walked, or nothing was left after position k.
      if leftover <= 0 {
        RestUntouched(cells, filled, remaining, k);
      }
    } else {
      RestUntouched(cells, filled, remaining, 0);
    }
  }

  /**
    Once nothing is left at position k, the cells from k on are exactly as if they had
    taken their (empty) share, so every cell holds its share.
   */
  lemma {:induction false} RestUntouched(cells: seq<Cell>, filled: seq<Cell>, remaining: int, k: int)
    requires 0 <= k <= |cells|
    requires FilledUpTo(filled, cells, remaining, k)
    requires LeftAfter(remaining, k) == 0
    ensures forall i :: 0 <= i < |cells| ==> filled[i] == WithShare(cells[i], remaining, i)
    ensures LeftAfter(remaining, |cells|) == 0
  {
    forall i | k <= i < |cells|
      ensures Share(remaining, i) == 0
    {
      NothingLeftBeyond(remaining, k, i);
    }
    NothingLeftBeyond(remaining, k, |cells|);
  }

  /** Once nothing is left at position k, no later position gets a share. */
  lemma NothingLeftBeyond(remaining: int, k: int, i: int)
    requires LeftAfter(remaining, k) == 0 && k <= i
    ensures Share(remaining, i) == 0 && LeftAfter(remaining, i) == 0
  {
  }

  /** Total bills over a sequence of cells. */
  function TotalBills(cells: seq<Cell>): int
  {
    if |cells| == 0 then 0 else TotalBills(cells[..|cells| - 1]) + cells[|cells| - 1].bills
  }

  /** Total of the shares handed to cells 0 .. n-1. */
  function SharesUpTo(remaining: int, n: nat): int
  {
    if n == 0 then 0 else SharesUpTo(remaining, n - 1) + Share(remaining, n - 1)
  }

  /** The shares of the first n cells add up to the remainder, or to n full stacks if that is less. */
  lemma {:induction false} SharesTotal(remaining: nat, n: nat)
    ensures SharesUpTo(remaining, n) ==
              if remaining <= BillsPerStack * n then remaining else BillsPerStack * n
  {
    if n > 0 {
      SharesTotal(remaining, n - 1);
    }
  }

  /**
    A grid whose cell i holds `base` bills plus its share of `remaining` holds
    |cells| * base plus the shares' total.
   */
  lemma {:induction false} TotalOfBaseAndShares(cells: seq<Cell>, base: int, remaining: int)
    requires forall i :: 0 <= i < |cells| ==> cells[i].bills == base + Share(remaining, i)
    ensures TotalBills(cells) == |cells| * base + SharesUpTo(remaining, |cells|)
  {
    if |cells| > 0 {
      var n := |cells| - 1;
      TotalOfBaseAndShares(cells[..n], base, remaining);
    }
  }

  /** n * (c * b) == c * (n * b). */
  lemma MulCommutes(n: int, c: int, b: int)
    ensures n * (c * b) == c * (n * b)
  {
  }

  /** Conservation: with the split renderBills computes, the cells hold exactly numBills. */
  lemma {:induction false} DistributionConserves(numBills: nat, g: Grid, cells: seq<Cell>)
    requires g.Valid() && |cells| == g.Cells()
    requires forall i :: 0 <= i < |cells| ==>
               cells[i].bills == SplitLayers(numBills, g).completeLayers * BillsPerStack +
                                 Share(SplitLayers(numBills, g).remaining, i)
    ensures TotalBills(cells) == numBills
  {
    var s := SplitLayers(numBills, g);
    var base := s.completeLayers * BillsPerStack;
    TotalOfBaseAndShares(cells, base, s.remaining);
    SharesTotal(s.remaining, |cells|);
    MulCommutes(|cells|, s.completeLayers, BillsPerStack);
  }

  /** The split of numBills into complete layers plus a remainder, as renderBills computes it. */
  datatype Split = Split(completeLayers: int, remaining: int)

  /**
    completeLayersCount = floor(numBills / billsPerCompleteLayer) and the remainder is
    what the complete layers leave: never negative, and always less than one layer.
   */
  function SplitLayers(numBills: nat, g: Grid): (s: Split)
    requires g.Valid()
    ensures s.completeLayers >= 0
    ensures numBills == s.completeLayers * (g.Cells() * BillsPerStack) + s.remaining
    ensures 0 <= s.remaining < g.Cells() * BillsPerStack
  {
    var perLayer := g.Cells() * BillsPerStack;
    var complete := numBills / perLayer;
    FloorSplit(numBills, perLayer);
    Split(complete, numBills - complete * perLayer)
  }

  /** Math.floor(n / d) for n >= 0 leaves a remainder in [0, d). */
  lemma FloorSplit(n: nat, d: int)
    requires d > 0
    ensures n / d >= 0 && 0 <= n - (n / d) * d < d
  {
    DivMod(n, d);
  }

  /**
    The whole of renderBills' distribution for a grid: the base layer with
    completeLayersCount*100 bills per cell, then the remainder loop.
   */
  method Distribute(numBills: nat, g: Grid) returns (cells: seq<Cell>)
    requires g.Valid()
    ensures |cells| == g.Cells()
    ensures TotalBills(cells) == numBills
    ensures forall i :: 0 <= i < |cells| ==>
              var base := SplitLayers(numBills, g).completeLayers * BillsPerStack;
              base <= cells[i].bills <= base + BillsPerStack
    ensures forall i :: 0 <= i < |cells| ==>
              0 <= cells[i].row < g.rows && 0 <= cells[i].col < g.columns &&
              g.Index(cells[i].row, cells[i].col) == i &&
              cells[i].x == Offset(cells[i].col, g.columns, SpacingX) &&
              cells[i].z == Offset(cells[i].row, g.rows, SpacingZ)
    ensures forall i :: 0 <= i < |cells| ==>
              cells[i].bills == SplitLayers(numBills, g).completeLayers * BillsPerStack +
                                Share(SplitLayers(numBills, g).remaining, i)
  {
    var split := SplitLayers(numBills, g);
    var base := BaseLayer(g, split.completeLayers * BillsPerStack);
    var leftover;
    cells, leftover := DistributeRemainder(g, base, split.remaining);
    DistributionConserves(numBills, g, cells);
    forall i | 0 <= i < |cells|
      ensures cells[i].x == Offset(cells[i].col, g.columns, SpacingX)
      ensures cells[i].z == Offset(cells[i].row, g.rows, SpacingZ)
    {
      BaseLayerCoversGrid(g, split.completeLayers * BillsPerStack, cells[i].row, cells[i].col);
    }
  }

  /**
    Fill order: the extra bills never increase along row-major order, every cell before
    a partially filled one got a full stack, at most one cell gets a partial extra, and
    the extras reach every cell before the remainder runs out.
   */
  lemma {:induction false} FillOrder(remaining: int, i: int, j: int)
    requires 0 <= i < j
    ensures Share(remaining, j) <= Share(remaining, i)
    ensures 0 < Share(remaining, j) ==> Share(remaining, i) == BillsPerStack
    ensures 0 < Share(remaining, i) < BillsPerStack ==> Share(remaining, j) == 0
  {
    assert BillsPerStack * i + BillsPerStack <= BillsPerStack * j;
  }

  /** The shares hand out the remainder exactly when it fits in one stack per cell. */
  lemma {:induction false} RemainderExhausted(remaining: nat, n: nat)
    ensures SharesUpTo(remaining, n) == remaining <==> remaining <= BillsPerStack * n
    ensures LeftAfter(remaining, n) == remaining - SharesUpTo(remaining, n)
  {
    SharesTotal(remaining, n);
  }
}
