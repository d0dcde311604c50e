# Bill-stack layout of the money visualiser, in Dafny

The visualiser draws a chosen dollar amount as $100 bills in a 3D scene. This project
models the part of it that is arithmetic rather than rendering:

- **Amount normalisation** (`Amount`). The parsed amount is normalised: NaN becomes 0,
  the value is rounded to the nearest $100 with a half going up, and the result is
  capped at $500,000,000,000. The number of bills to draw follows from that.
- **Grid sizing** (`Grid`). Bills go 100 to a stack. The stacks stand on a grid of
  `gridX` columns (at most 75) by `gridZ` rows (at most 150). `gridZ` is a ceiling
  division, so unless a cap is hit the grid holds one layer of stacks.
- **Bill distribution** (`Distribution`). Every cell first gets `completeLayersCount`
  stacks. The leftover bills then go out in row-major order, at most one stack per
  cell, until none are left. This is the method `DistributeRemainder`, which keeps
  the source's nested loop.
- **Stacks** (`Stacks`). Each stack is one 100-bill box scaled in height and standing
  on the ground. `RenderBills` composes the whole pipeline, from the parsed amount to
  the list of drawn stacks.
- **Comparison placement** (`Placement`, `Bounds`). The comparison object goes to the
  right of the bills' bounding box with a gap, centred on the bills in z. The bills'
  box is itself centred on the origin.

The parsed amount is `Number = NaN | PosInfinity | NegInfinity | Finite(real)`. Finite
values are exact reals. Bill counts are unbounded integers: every count in the source
stays below 2^53, so a double holds it exactly.

The grid's suggested column count comes from `Math.sqrt`, and the layer count from a
cube root. Both are parameters: `columnsFor: int -> Pos` and `layersFor: int -> int`.
Everything computed from them follows the source exactly.

An amount from $50 up to, but not including, $150 rounds to $100 and draws one stack of one bill
(visualizer.js:313, 317, 324). Only amounts below $50, and zero, negative or
minus-infinite ones, draw nothing (`Amount.Normalise`, `Amount.BillsToDraw`).

## Model

| member | source | states |
|---|---|---|
| Amount.RoundHalfUp | visualizer.js:313 | Math.round returns the integer n with n - 1/2 <= x < n + 1/2, so a half rounds up |
| Amount.Normalise | visualizer.js:309-314 | NaN gives 0 and +infinity gives the cap. -infinity stays -infinity. A finite value below cap + 50 goes to the multiple of 100 in [v - 50, v + 50). Values at or above cap + 50 give the cap. The result is a whole number of bills, never above 500,000,000,000 |
| Amount.NearestHundredUnique | visualizer.js:313 | at most one multiple of 100 lies in [v - 50, v + 50), so Normalise's postcondition fixes its result |
| Amount.NormaliseIdempotent | visualizer.js:845-850 | visualize stores an already-normalised amount, and renderBills' own normalisation leaves it unchanged |
| Amount.BillsToDraw | visualizer.js:317-324 | bills are drawn exactly when the normalised amount is a positive finite value, and then amount = 100 * bills. There are at most 5,000,000,000 bills |
| Amount.OneTrillionIsCapped | visualizer.js:314 | $1,000,000,000,000 is capped to $500,000,000,000, which is 5,000,000,000 bills |
| Grid.CeilDiv | visualizer.js:335 | Math.ceil(a / b) is the q with (q - 1) * b < a <= q * b |
| Grid.NumStacks | visualizer.js:334-335 | numStacks = ceil(numBills / 100): (s - 1) * 100 < numBills <= s * 100, and s >= 1 when there are bills |
| Grid.StacksPerLayer | visualizer.js:433-434 | with more than one layer, each layer holds ceil(numStacks / layersNeeded) stacks, enough to cover all stacks; otherwise it holds all of them |
| Grid.FitGrid | visualizer.js:422-426 | 1 <= gridX <= 75 and 1 <= gridZ <= 150. Below the row cap, gridX * gridZ covers the stacks with no spare row. Below the column cap, gridX is the suggested column count. Each cap is taken only when the uncapped value reaches it: gridX = 75 only if the suggestion is >= 75, gridZ = 150 only if 149 rows cannot hold the stacks |
| Grid.ChooseGrid | visualizer.js:420-440 | the same bounds, cover property and caps-only-when-needed property for the grid finally chosen, measured against the stacks of one layer |
| Grid.OffsetSymmetric | visualizer.js:462-463 | offsets (i - (n - 1) / 2) * spacing of mirrored indices are negatives of each other and increase strictly with the index |
| Grid.BaseLayer | visualizer.js:459-474 | gridX * gridZ cells, each holding the base count, each with a (row, col) inside the grid whose row-major position is its index |
| Grid.BaseLayerCoversGrid | visualizer.js:459-474 | every (row, col) of the grid has a cell, at its centred x and z offsets |
| Grid.BaseLayerKeysDistinct | visualizer.js:464-467 | no two cells share a `row,col` key, so the map holds exactly one entry per grid position |
| Grid.BaseLayerCentred | visualizer.js:462-463 | cell (row, col) and cell (gridZ-1-row, gridX-1-col) sit at negated positions |
| Distribution.Share | visualizer.js:481 | a cell's extra bills are between 0 and 100 |
| Distribution.FillRow | visualizer.js:479-486 | the inner loop gives each cell it reaches exactly its share and leaves the others alone. It stops early only when nothing is left |
| Distribution.DistributeRemainder | visualizer.js:477-488 | after the partial-layer loop, cell i holds its old count plus Share(remaining, i) and nothing else about it changed. The leftover is never negative and is 0 when the remainder fits one stack per cell |
| Distribution.SharesTotal | visualizer.js:478-486 | the shares of n cells add up to min(remaining, 100 * n) |
| Distribution.SplitLayers | visualizer.js:453-456 | numBills = completeLayersCount * (cells * 100) + remainingBills with 0 <= remainingBills < cells * 100 |
| Distribution.DistributionConserves | visualizer.js:453-488 | the bills over all cells add up to numBills |
| Distribution.Distribute | visualizer.js:453-488 | gridX * gridZ cells in row-major order at their centred offsets. Each holds completeLayersCount * 100 bills plus its share, so between that base and one stack more. Together they hold numBills |
| Distribution.FillOrder | visualizer.js:478-486 | extras never increase in row-major order. Every cell before one with extras has a full 100. At most one cell has a partial extra strictly between 0 and 100 |
| Distribution.RemainderExhausted | visualizer.js:477-488 | the shares hand out the whole remainder exactly when it fits one stack per cell, and the loop's leftover is what the shares did not take |
| Stacks.VisualStack | visualizer.js:609-647 | the scaled 100-bill mesh has its bottom at y and is exactly bills * 0.0011 tall. It is one bill wide and deep, centred on (x, z), and records the bill count |
| Stacks.CreateStacks | visualizer.js:500-518 | one stack per grid position, including empty ones, in map order, at the position's x and z with its bill count, standing on the ground. The stacks hold as many bills as the positions |
| Stacks.RenderBills | visualizer.js:309-518 | no stacks when there is nothing to draw. Otherwise gridX * gridZ stacks (at most 11,250) at their centred row-major positions, on the ground, each within one stack of the base count. Stack i holds the base count plus its row-major share of the remainder, and is exactly that many bills * 0.0011 tall. Together they hold exactly the normalised number of bills |
| Stacks.DrawBills | visualizer.js:334-518 | for n > 0 bills: between 1 and 11,250 stacks laid out as `DrawnLayout` says (one per cell of the chosen grid, row-major, centred, on the ground, base count plus row-major share, exactly as tall as their bills), holding n bills in total |
| Stacks.StacksOnGrid | visualizer.js:500-518 | a stack made from the cell at row-major index i stands at that index's centred column and row offsets, on the ground, with the cell's bills and bills * 0.0011 tall |
| Stacks.LayoutGrid | visualizer.js:334-440 | for n > 0 bills the grid is within its caps; below the row cap it holds one layer of ceil(n / 100) stacks split over layersNeeded(numStacks) layers, with no spare row, and below the column cap its columns are the suggestion for that layer. Each cap is taken only when the uncapped value reaches it |
| Stacks.NumLayersIsPileHeight | visualizer.js:446-456 | numLayers = ceil(numStacks / (gridX * gridZ)) equals completeLayersCount, plus one exactly when a remainder is left |
| Stacks.LayersMatchPile | visualizer.js:446-488 | no stack is taller than numLayers full stacks, and the first cell is taller than numLayers - 1 of them |
| Bounds.Union | visualizer.js:1010 | the union contains both boxes, and each of its x, y and z faces is a face of one of them |
| Bounds.UnionAll | visualizer.js:1005-1011 | the accumulated union contains every box, and each of its x and z faces is some box's face |
| Placement.Gap | visualizer.js:1028 | the gap is 20% of the wider of the bills' box and the object, never below 20% of either, and not negative |
| Placement.PositionComparisonModel | visualizer.js:1001-1038 | with no bills the object goes to (5, 0, 0). Otherwise the object's left edge (centre minus half its width) is at the bills' max x plus the gap, its z is the bills' centre z, and its height is kept |
| Placement.ComparisonBesideBills | visualizer.js:1027-1036 | an object centred on its origin ends up with its near face exactly the gap to the right of the bills' box, so right of every bill. It keeps its size and is centred on the bills in z |
| Placement.LayoutBoxCentred | visualizer.js:1005-1011 | the box of the drawn stacks spans [-HalfWidth, HalfWidth] in x and [-HalfDepth, HalfDepth] in z, so it is centred on the origin |
| Placement.ComparisonBesideLayout | visualizer.js:1027-1036 | beside a drawn layout, a centred object lands at z = 0 with its near face HalfWidth plus the gap right of the origin, strictly outside the bills |

## Left out

- Parsing the selected string (`parseFloat`) happens before the model. `Number` is its
  result. Negative zero is not distinguished from zero, which draws nothing either way.
- IEEE double rounding is left out, because finite amounts and positions are exact
  reals. In particular `Math.round(amount / 100)` for values that are not exact in
  binary is not modelled.
- Grid.ChooseGrid: the column count `Math.ceil(Math.sqrt(stacks / targetRatio))` and
  `layersNeeded` (a cube root of the stack volume) are parameters, because they are
  float square and cube roots. The contract says how the grid is built from them, not
  which values the roots take. `columnsFor` returns a `Pos`, as the source's
  `Math.ceil` of a positive root does. `layersFor` may return any int, and values <= 1
  take the single-layer branch, as `if (layersNeeded > 1)` does at visualizer.js:433.
- Stacks.RenderBills: `clearBills` is not modelled. The method returns a fresh list of
  stacks instead of removing meshes from a scene.
- The stack loop also collects `minX`, `maxX`, `minZ`, `maxZ` and `maxY`. Nothing uses
  them (the camera fit that takes them is never called), so they are left out. The box
  of the drawn stacks is modelled in `Placement.LayoutBoxCentred`.
- Stacks.Stack.MeshBox: `new THREE.Box3().setFromObject(mesh)` on a stack mesh
  (visualizer.js:1009, 1048) is a foreign call. It is modelled as the shared
  `BoxGeometry(1.56, 0.11, 0.663)` scaled by `scaleY` about the mesh's position, with no
  rotation.
- Camera framing (`adjustCameraToFitScene`, `adjustCameraToFitStacks`) is left out,
  because it is float trigonometry on the scene's bounding box.
- Materials, textures, the edge-texture canvas, shadow flags and the shared geometry
  (`useEdgeTexture`, `useDetailedShadows`) are left out, because they are rendering
  choices that change no count or position.
- `toLocaleString` formatting is left out, because it is display-only text.
- `createInstancedBillStacks` is left out, because nothing calls it.
- Placement.PositionComparisonModel: the object's own box (`Box3.setFromObject`) is an
  input. Its y coordinate is left as it was, as in the source. Loading, scaling and the
  placeholder object are asynchronous I/O.
- `visualize` also writes the amount back into the select element. Only what that
  store means for the next `renderBills` is modelled (`Amount.NormaliseIdempotent`).
- Amount.NormaliseIdempotent: the amount `visualize` stores in the select element is
  assumed to read back unchanged. A value matching no option reads back as "", which
  parses to NaN and draws nothing; the select element's option list is not modelled.
  `visualize`'s own call to `renderBills` is commented out at visualizer.js:861.
- Mouse selection and dragging, physics, lights, ground and the animation loop are
  left out, because they are engine calls.
