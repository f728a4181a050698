# ARC solver core in Dafny

This project models the deterministic core of a solver for ARC puzzles
(the Abstraction and Reasoning Corpus), written in TypeScript, and proves
properties of that model. In an ARC puzzle, a few example input grids of
colours come with their output grids, and the program must produce the
output for a test input. The solver reads each grid as an image built from
simple parts by a *decomposer*. It then searches for functions that compute
the output image's parameters from the input image's parameters.

The model covers:

- **Colour grids** (`lib/Grid.ts`). The `Grid` class works over a 2-D array.
  Its operations are proved against value functions on rows of colours:
  - `at`/`set`, `subgrid`, `equals`, `count`, `colors`, `map_colors`,
    `complement`;
  - the `draw_*` family and `paste` under the eight symmetries;
  - `trim` and the semantic box;
  - block scaling (`is_scaled_by`, `get_scaling_factor`, `inv_scale`, with
    and without separator lines) and `find_tile`;
  - `find_master_grid`;
  - flood fill (`propagate`), `erase` and object enumeration
    (`foreach_object`);
  - `toString`, the key grids are interned under.
- **The image algebra** (`lib/ConcreteImage.ts`).
  - Every image kind is a datatype constructor.
  - `compile()` is a bounding box plus a colour for every point.
    Points are kept in half units, so that a cell's centre is a whole point.
  - `generate_grid` is the grid an image draws.
  - Lemmas relate the combinators to grid operations: scaling, the
    symmetries, the colour swaps and the compositing of sub-images.
- **Decomposers** (`lib/DecomposersData.ts`, `lib/Decomposers.ts`).
  - The description tree and its pure operations: builders, normalisation,
    key, clone, pruning of failed alternatives, and root/prefix/suffix.
  - The interpreter `build_decomposer`, run on a grid. Its outcome is an
    image, a thrown error, or a case the model does not follow. It also
    records the `failed = true` writes that `alternatives` makes.
- **Solver bookkeeping** (`lib/Solver.ts`).
  - Path strings of tracked functions, and the recursive arrays.
  - The index chains of samples.
  - The samples mask and grid interning.
  - The table of boolean predicates by bit field.
  - The memo tables of `select_*`/`build_*`.
  - The classification tests of `enum_boolean_functions`,
    `enum_boolean_selectors` and `enum_mapping_functions`.
- **Table analysis** (`lib/TableAnalyser.ts`).
  - The column algebra: `count_array`, `count_arrays`, `rank_array`,
    `inv_rank_array`, `arrays_same_value` and the column keys.
  - The four phases of `init`.
  - `test_potential_inputs` and the search of input sets in
    `enum_functions`.
  - The row-filtering function that `build_function` builds.
- **Abstractions** (`lib/Abstraction.ts`).
  - Part selection, fleshing an abstraction from another's snapshot, and
    black-box hiding of part features.
  - The type-count check.
  - The retry loop of `add_part` and the outcome of `abstract_new_part` and
    `abstract_all_parts`.
  - Abstraction state is a class whose methods are proved against value
    functions.
- **The rasterizer** (`lib/Rasterizer.ts`).
  - Immutable tiles (windows around a cell).
  - The per-layer tile tables deduplicated by key.
  - `draw_at`, and the worklist loop of `rasterize_layer`.
  - The end-to-end property: every cell `rasterize` produces is the input's
    colour there, or a colour the output grid has there.
- **Helpers** (`lib/Misc.ts`, `lib/ArcPuzzle.ts`, `lib/Color.ts`). These are
  set and list helpers, bigint bit fields, permutations, folds and
  `is_solution`.

Each source file is one module (`grid.dfy`, `concrete_image.dfy`, and so
on). A large file is split into a few modules, each named for the part of
it that it covers.

## Model

| member | source | states |
|---|---|---|
| Bits.BitOfAnd | lib/Misc.ts:303 | a bit of `a & b` is set iff it is set in both |
| Bits.BitOfOr | lib/Misc.ts:302 | a bit of `a \| b` is set iff it is set in either |
| Bits.ClearLowestBit | lib/Misc.ts:211-222 | for a positive n, `n & (n - 1)` is smaller than n and has one set bit fewer |
| Bits.SeveralBits | lib/Solver.ts:1010-1011 | for a positive n, `n & (n - 1)` is non-zero iff n has at least two set bits |
| Bits.BitOfLowMask | lib/Solver.ts:1010 | `2^w - 1`, the mask of all w samples, has exactly the bits below w |
| Misc.SetUnion | lib/Misc.ts:51-60 | the result holds exactly the elements that occur in some argument set |
| Misc.SetIntersectionEqual | lib/Misc.ts:62-68 | the first set, changed in place, becomes its intersection with the second |
| Misc.SetIntersection | lib/Misc.ts:70-78 | with no argument the result is empty; otherwise it holds exactly the elements found in every argument |
| Misc.FilteredMembers | lib/Misc.ts:168-177 | an element is kept by the filter iff it is in the list and passes the test |
| Misc.FilteredAll | lib/Misc.ts:168-177 | the filter keeps the whole list iff every element passes |
| Misc.Count | lib/Misc.ts:80-90 | the count is the number of elements that pass the test |
| Misc.CountIsLengthIffAll | lib/Misc.ts:80-90 | the count equals the length iff every element passes, and is zero iff none does |
| Misc.Selects | lib/Misc.ts:168-177 | returns the passing elements in their original order |
| Misc.Select | lib/Misc.ts:160-166 | nothing iff no element passes; otherwise the first passing element |
| Misc.All | lib/Misc.ts:257-265 | true iff every element passes the test |
| Misc.CountItems | lib/Misc.ts:179-190 | the keys are exactly the listed elements, each mapped to its number of occurrences |
| Misc.FirstArgMaxIsFirstMaximum | lib/Misc.ts:96-109 | the chosen index has the highest score and every earlier element scores strictly less |
| Misc.FirstArgMinIsFirstMinimum | lib/Misc.ts:111-124 | the chosen index has the lowest score and every earlier element scores strictly more |
| Misc.Highest | lib/Misc.ts:96-109 | the scan returns the first element of highest score, or nothing for an empty list |
| Misc.Lowest | lib/Misc.ts:111-124 | the scan returns the first element of lowest score, or nothing for an empty list |
| Misc.WithScoreMembers | lib/Misc.ts:126-158 | an element is kept iff it is listed and has exactly the given score |
| Misc.HighestsAreMaximisers | lib/Misc.ts:126-141 | `highests` returns exactly the elements of maximal score, and its first one is what `highest` returns |
| Misc.LowestsAreMinimisers | lib/Misc.ts:143-158 | `lowests` returns exactly the elements of minimal score, and its first one is what `lowest` returns |
| Misc.Highests | lib/Misc.ts:126-141 | the scan that restarts on a higher score and appends on an equal one returns the maximisers in order |
| Misc.Lowests | lib/Misc.ts:143-158 | the scan that restarts on a lower score and appends on an equal one returns the minimisers in order |
| Misc.ConcatMembers | lib/Misc.ts:245-255 | an element of the concatenation comes from one of the vectors, and every element of each vector is kept |
| Misc.AppendVectors | lib/Misc.ts:245-255 | the pushes produce the vectors concatenated in order |
| Misc.FirstN | lib/Misc.ts:273-280 | yields the first max(n, 1) elements of the generator, or all of them when there are fewer |
| Misc.OperatorV | lib/Misc.ts:286-300 | fails iff the list is empty; otherwise the left fold of the operator |
| Misc.BitOfOrFold | lib/Misc.ts:302 | a bit is set in the `|` fold iff it is set in some field |
| Misc.BitOfAndFold | lib/Misc.ts:303 | a bit is set in the `&` fold iff it is set in every field |
| Misc.BitfieldOrV | lib/Misc.ts:302 | fails iff the list is empty; otherwise a bit is set iff some field has it |
| Misc.BitfieldAndV | lib/Misc.ts:303 | fails iff the list is empty; otherwise a bit is set iff every field has it |
| Misc.CountBits | lib/Misc.ts:211-222 | infinity for a negative number, else the number of set bits |
| Misc.BinaryDigitsBits | lib/Misc.ts:224-233 | digit i is '1' iff bit i is set, no bit is set past the string, and the last digit is '1' |
| Misc.BinaryDigitsRoundTrip | lib/Misc.ts:224-233 | reading the digits back as a binary number gives the original number |
| Misc.BitfieldToString | lib/Misc.ts:224-233 | empty for a number that is not positive, else its binary digits from the low end |
| Misc.BooleansValueBits | lib/Misc.ts:235-243 | bit i of the field is set iff `values[i]` is true, and the field is below 2^length |
| Misc.BooleansToBitfield | lib/Misc.ts:235-243 | the loop computes the field whose bits are the true values |
| Misc.BooleansDigits | lib/Misc.ts:224-243 | the digit string of the field of a boolean list reads the list's values up to the last true one |
| Misc.InsertEverywhereMembers | lib/Misc.ts:199-205 | the insertions at positions below i are exactly the arrays with v inserted at one of those positions |
| Misc.InsertKeepsPermutation | lib/Misc.ts:199-205 | inserting n anywhere into a permutation of 0..n-1 gives a permutation of 0..n |
| Misc.PermutationsAreSound | lib/Misc.ts:192-209 | every array produced for n is a permutation of 0..n-1 |
| Misc.RemoveLast | lib/Misc.ts:192-209 | removing n-1 from a permutation leaves a smaller permutation into which it inserts back |
| Misc.PermutationOfOne | lib/Misc.ts:192-209 | the only permutation of 0..0 is [0] |
| Misc.InsertedIsPermutation | lib/Misc.ts:199-205 | inserting n-1 into an array produced for n-1 gives an array produced for n |
| Misc.PermutationsAreComplete | lib/Misc.ts:192-209 | every permutation of 0..n-1 is among the arrays produced for n |
| Misc.PermutationsCount | lib/Misc.ts:192-209 | n! arrays are produced for n >= 1 |
| Misc.MakePermutationSet | lib/Misc.ts:192-209 | the loops produce nothing below 1, [[0]] for 1, and otherwise the insertions of n-1 into the arrays for n-1 |
| Misc.InsertAllPositions | lib/Misc.ts:199-205 | the inner loop inserts v at each position 0..v of each array, position by position |
| GridValues.FromFunction | lib/Grid.ts:31-41 | a grid built cell by cell has the requested size and the requested colour in every cell |
| GridValues.Filled | lib/Grid.ts:198-202 | `new Grid(w, h, color)` has size w x h and `color` in every cell |
| GridValues.Extensionality | lib/Grid.ts:91-107 | two grids of the same size that agree on every cell are equal, which is what `equals` compares |
| GridValues.SetThenAt | lib/Grid.ts:77-89 | after `set`, `at` reads the written colour at that cell when it is inside, and the old colour everywhere else |
| GridValues.Sub | lib/Grid.ts:63-75 | `subgrid` has size (x1-x0) x (y1-y0) and cell (i, j) is the grid's cell (x0+i, y0+j) |
| GridValues.SubWhole | lib/Grid.ts:63-75 | the whole-grid window is the grid itself |
| GridValues.SubOfSub | lib/Grid.ts:63-75 | a window of a window is the window of the grid at the summed offsets |
| GridValues.ColorsOfMembers | lib/Grid.ts:238-248 | a colour is listed iff some cell holds it and it is neither undefined nor the background |
| GridValues.ComplementInvolutive | lib/Grid.ts:678-690 | complementing a boolean grid twice gives it back |
| GridValues.ComplementSwapsBool | lib/Grid.ts:678-690 | on a boolean grid `complement` turns a cell holding the colour of b (`true` is 1, `false` is 0) into the colour of not b |
| GridValues.CountIsAreaIffAll | lib/Grid.ts:159-169 | `count` is at most the area and equals it iff every cell passes |
| GridValues.CountRowZero | lib/Grid.ts:159-169 | a row's count is zero iff no cell of the row passes |
| GridValues.CountPerimeterZero | lib/Grid.ts:171-193 | on a non-empty grid, `count_perimeter` is zero iff no border cell passes |
| GridDrawing.PaintPoint | lib/Grid.ts:77-81 | painting a single point is exactly `set` |
| GridDrawing.PaintUnion | lib/Grid.ts:314-331 | painting two point sets with one colour equals painting their union |
| GridDrawing.LineShrinks | lib/Grid.ts:304-312 | each recursive step of `draw_line` strictly reduces the Chebyshev distance to the end point |
| GridDrawing.LineEnds | lib/Grid.ts:304-312 | the line holds both end points, stays inside their bounding box, and has max(\|dx\|, \|dy\|) + 1 points |
| GridDrawing.LineHasEnd | lib/Grid.ts:304-312 | the stepped line always reaches its end point |
| GridDrawing.LineInBox | lib/Grid.ts:304-312 | every point of the line lies between the end points on both axes |
| GridDrawing.LineSize | lib/Grid.ts:304-312 | the line has exactly one point per step plus the start: max(\|dx\|, \|dy\|) + 1 points |
| GridDrawing.LineStepDistance | lib/Grid.ts:308-310 | one step moves towards the end on each axis without passing it, leaves the start behind for good, and lowers the distance by exactly one |
| GridDrawing.LinePaintStep | lib/Grid.ts:305-310 | painting the start and then the line from the next point paints the whole line, and the rest of the line is a strict part of it |
| GridDrawing.HorizontalLine | lib/Grid.ts:304-312 | a horizontal line is exactly the run of cells between its end points |
| GridDrawing.RayInside | lib/Grid.ts:297-302 | `draw_infinite_line` paints only defined cells, and paints its start iff the start is defined |
| GridDrawing.RayToEdge | lib/Grid.ts:297-302 | a rightward ray through a fully defined row paints from its start to the right edge |
| GridDrawing.RayFrame | lib/Grid.ts:297-302 | a ray depends only on the cells ahead of its start |
| GridDrawing.RayStep | lib/Grid.ts:297-302 | painting the start leaves the rest of the ray unchanged and brings the edge strictly closer (the recursion ends) |
| GridDrawing.RayAfterStart | lib/Grid.ts:298-300 | painting the start cell does not change the ray that follows it |
| GridDrawing.BoxPerimeterIsRing | lib/Grid.ts:322-331 | for a non-empty box, the cells `draw_box_perimiter` paints are exactly the box cells on its outer ring |
| GridDrawing.SourceOfTarget | lib/Grid.ts:461-479 | under each of the eight symmetries, the cell a region cell is written to and the region cell read back from a target are inverse maps |
| GridDrawing.Transformed | lib/Grid.ts:444-517 | the reference meaning of a plain paste: each target cell that is the image of a region cell takes that cell's ink; every other cell is kept |
| GridDrawing.PasteRowsAt | lib/Grid.ts:496-503 | after k rows of the row-major loop, a target cell holds its source's ink if the source row is below k, and is unchanged otherwise |
| GridDrawing.PasteUnderSymmetry | lib/Grid.ts:444-517 | under the eight symmetries, `paste` equals the reference: every region cell lands at its image and nothing else changes, whatever the write order |
| GridDrawing.PasteCopies | lib/Grid.ts:461-463 | pasting a same-size region at the origin with `identity` replaces the whole grid |
| GridDrawing.SymmetricalFlipX | lib/Grid.ts:250-259 | a grid is `flip_x`-symmetrical iff every row reads the same backwards |
| GridShape.RowBlankIsSolidSub | lib/Grid.ts:539 | the row test of `trim` holds iff the one-row subgrid is solid and its first cell is the background |
| GridShape.ColumnBlankIsSolidSub | lib/Grid.ts:547 | the column test of `trim` holds iff the one-column subgrid is solid and its first cell is the background |
| GridShape.TrimTop | lib/Grid.ts:539-541 | the first loop stops at the height or at the first row that is not blank |
| GridShape.TrimBottom | lib/Grid.ts:543-545 | the second loop never passes the top edge and stops above a row that is not blank |
| GridShape.TrimLeft | lib/Grid.ts:547-549 | the third loop stops at the width or at the first column of the kept rows that is not blank |
| GridShape.TrimRight | lib/Grid.ts:551-553 | the fourth loop never passes the left edge and stops left of a column that is not blank |
| GridShape.TrimRightStops | lib/Grid.ts:551-553 | the fourth loop stops where the edges meet or at a column that is not blank |
| GridShape.TrimWindow | lib/Grid.ts:533-556 | the kept window lies inside the grid |
| GridShape.TrimTopBlank | lib/Grid.ts:539-541 | every row the first loop skips is blank |
| GridShape.TrimBottomBlank | lib/Grid.ts:543-545 | every row the second loop skips is blank |
| GridShape.TrimLeftBlank | lib/Grid.ts:547-549 | every column the third loop skips is blank on the kept rows |
| GridShape.TrimRightBlank | lib/Grid.ts:551-553 | every column the fourth loop skips is blank on the kept rows |
| GridShape.TrimStripsBackground | lib/Grid.ts:533-556 | every cell outside the kept window holds the background colour |
| GridShape.TrimIsTight | lib/Grid.ts:533-556 | the kept window's outer rows and columns are not blank |
| GridShape.TrimKeepsTightGrid | lib/Grid.ts:533-556 | a grid whose outer rows and columns are not blank comes back whole, at offset (0, 0) |
| GridShape.StretchAt | lib/Grid.ts:594-641 | each cell of the stretched 3 x 3 summary is the grid's cell at that cell's representative |
| GridShape.SemanticBoxStretches | lib/Grid.ts:594-641 | stretching the summary of a semantic box gives the box back |
| GridShape.StretchedIsSemanticBox | lib/Grid.ts:594-626 | a grid of at least 3 x 3 that its stretched summary reproduces passes `is_semantic_box` |
| GridShape.SemanticBoxRoundTrip | lib/Grid.ts:594-641 | for grids of at least 3 x 3, `is_semantic_box` holds iff stretching `get_semantic_box` gives the grid back |
| GridShape.InvScale | lib/Grid.ts:570-580 | `inv_scale(s)` has size width/s x height/s |
| GridShape.UpscaleAt | lib/Grid.ts:570-580 | blowing a grid up by s repeats each cell as an s x s block |
| GridShape.IsScaledByBlocks | lib/Grid.ts:788-807 | when n divides both sides, `is_scaled_by(n)` holds iff every n x n block is one colour |
| GridShape.UpscaleIsScaled | lib/Grid.ts:788-807 | a grid blown up by s is scaled by s |
| GridShape.InvScaleOfUpscale | lib/Grid.ts:570-580 | `inv_scale(s)` undoes blowing up by s |
| GridShape.UpscaleOfInvScale | lib/Grid.ts:570-580 | a grid scaled by s is its `inv_scale(s)` blown up again, so nothing is lost (see also `lib/Grid.ts:788-807`) |
| GridShape.ScalingFrom | lib/Grid.ts:854-865 | the factor found is 1 or a factor by which the grid is scaled |
| GridShape.ScalingFactorIsLargest | lib/Grid.ts:854-865 | `get_scaling_factor` is at least every width/i (1 <= i < width, i dividing the width) by which the grid is scaled |
| GridShape.InvScaleWithGrid | lib/Grid.ts:582-592 | `inv_scale_width_grid(s)` has one cell per block between separator lines |
| GridShape.UpscaleWithGridAtOrigin | lib/Grid.ts:582-592 | the origin cell of each block of a drawn grid-with-separators carries the block's cell |
| GridShape.InvScaleOfUpscaleWithGrid | lib/Grid.ts:582-592 | `inv_scale_width_grid` undoes drawing s x s blocks separated by lines |
| GridShape.GridScalingFrom | lib/Grid.ts:867-877 | a found scale has a check that yields a colour (not `no_color`), reported as the grid colour; none is found only when every candidate scale fails |
| GridShape.TileWidthFrom | lib/Grid.ts:883-898 | the tile width is the least period w with 4w <= 3 width, or the full width when there is none |
| GridShape.TileHeightFrom | lib/Grid.ts:900-915 | the tile height is the least period h with 4h <= 3 height, or the full height when there is none |
| GridShape.PeriodXRepeats | lib/Grid.ts:883-898 | with a horizontal period w, every column repeats column x mod w |
| GridShape.PeriodYRepeats | lib/Grid.ts:900-915 | with a vertical period h, every row repeats row y mod h |
| GridShape.TileRepeats | lib/Grid.ts:879-920 | the tile `find_tile` returns is non-empty, and tiling it reproduces every cell of the grid |
| GridMaster.ColumnLineMeans | lib/Grid.ts:700-706 | column x has a one-colour set `{c}` iff it is non-empty and every cell is c (see also `lib/Grid.ts:714-719`) |
| GridMaster.RowLineMeans | lib/Grid.ts:692-698 | row y has a one-colour set `{c}` iff it is non-empty and every cell is c (see also `lib/Grid.ts:722-727`) |
| GridMaster.AddNew | lib/Grid.ts:718 | adding to a JavaScript `Set` keeps its members and adds the new one |
| GridMaster.CandidatesAreLineColors | lib/Grid.ts:711-733 | without a default, the colours tried are exactly the colours of full one-colour columns or rows |
| GridMaster.ColumnLinesTo | lib/Grid.ts:739-743 | the cut columns are in range and each is a full line of the grid colour |
| GridMaster.RowLinesTo | lib/Grid.ts:746-750 | the cut rows are in range and each is a full line of the grid colour |
| GridMaster.CleanConcat | lib/Grid.ts:766-769 | a list of cells avoids the grid colour iff both of its parts do |
| GridMaster.BandRowsDelimited | lib/Grid.ts:757-760 | a band between consecutive row cuts is bounded above and below by an edge or a grid-colour row |
| GridMaster.MasterCellsDelimited | lib/Grid.ts:708-786 | every cell returned is a window of the grid bounded on each side by the grid's edge or a full line of the separator colour |
| GridMaster.MasterCellsAvoidGridColor | lib/Grid.ts:766-778 | without a default, no returned cell contains the separator colour reported |
| GridMaster.DefaultGridColorIsUsed | lib/Grid.ts:729-732 | a given default colour is always the separator, whatever the cells contain (see also `lib/Grid.ts:776-778`) |
| GridObjects.Neighbours | lib/Grid.ts:661-673 | four neighbours are visited, eight with corners |
| GridObjects.NeighbourSymmetric | lib/Grid.ts:661-673 | being a neighbour is symmetric |
| GridObjects.ConnectedSymmetric | lib/Grid.ts:643-676 | connection through solid cells is symmetric |
| GridObjects.ConnectedTransitive | lib/Grid.ts:643-676 | connection through solid cells is transitive |
| GridObjects.ClosedHoldsComponent | lib/Grid.ts:659-674 | a set that holds the start and is closed under spreading holds every cell reachable from the start |
| GridObjects.RestrictAdd | lib/Grid.ts:652-654 | copying a point's colour into the object grid adds that point to the object |
| GridObjects.MarksAdd | lib/Grid.ts:650-651 | setting `true` at the shifted point adds that point to the contour marks |
| GridObjects.FilledIsObject | lib/Grid.ts:643-676 | once the stack is empty, the object grid holds exactly the cells reachable from (x, y), with their colours, and black elsewhere |
| GridObjects.MarkedIsContour | lib/Grid.ts:643-676 | once the stack is empty, the contour grid marks exactly the undefined points next to the object, or the start when it is undefined |
| GridObjects.MarksOfContour | lib/Grid.ts:643-676 | a set holding exactly the contour points gives the contour grid |
| GridObjects.AddPoint | lib/Grid.ts:648-656 | `add_point` marks an undefined point in the contour, copies a solid point not yet in the object and pushes it, and otherwise changes nothing |
| GridObjects.AddPoints | lib/Grid.ts:661-673 | the neighbours of one popped point are added in order, keeping both grids equal to their descriptions |
| GridObjects.FillStart | lib/Grid.ts:658 | the first `add_point(x, y)` establishes the fill invariant |
| GridObjects.FillStep | lib/Grid.ts:660-674 | popping a point and adding its neighbours keeps the fill invariant |
| GridObjects.FillRound | lib/Grid.ts:660-674 | one round keeps the grids and the invariant, and either visits a new solid cell or shrinks the stack, so the loop ends |
| GridObjects.Fill | lib/Grid.ts:643-676 | `propagate` returns the connected object of (x, y) and its contour, as the reference definitions give them |
| GridObjects.FillRounds | lib/Grid.ts:660-674 | the loop over the stack ends with an empty stack, keeping the object grid the restriction of the visited cells and the contour grid the marks |
| GridScan.SeedsObjects | lib/Grid.ts:344-356 | the objects grown from all seeds of the scan are the objects `foreach_object` yields |
| GridScan.ObjectCell | lib/Grid.ts:643-676 | inside the grid an object is not black exactly at the cells reached from its seed, which keep their colour |
| GridScan.RemainingNone | lib/Grid.ts:345 | the working copy starts as the grid itself |
| GridScan.EraseObject | lib/Grid.ts:352 | erasing the object of a new seed from the working copy is the working copy for the longer seed list |
| GridScan.ReachedEarlier | lib/Grid.ts:347-354 | a cell the scan reaches from (x, y) and has already passed is covered, and then so is (x, y) |
| GridScan.ScanAdd | lib/Grid.ts:349-353 | a cell the working copy still shows becomes the next seed and keeps the scan invariant |
| GridScan.ScanSkip | lib/Grid.ts:349 | a cell the working copy shows black is passed over and the invariant holds |
| GridScan.ScanWrap | lib/Grid.ts:347-348 | the end of a column is the start of the next |
| GridScan.ScanEnd | lib/Grid.ts:347 | past the last column, every solid cell is covered by some seed's object |
| GridScan.SeedsDone | lib/Grid.ts:344-356 | the seeds of the whole scan are sorted, pairwise apart, first in their objects, and cover every solid cell |
| GridScan.ObjectsArePropagated | lib/Grid.ts:350 | each yielded object is `propagate` from its seed |
| GridScan.ObjectsDisjoint | lib/Grid.ts:344-356 | no cell belongs to two yielded objects |
| GridScan.ObjectsCover | lib/Grid.ts:344-356 | the yielded objects together hold exactly the solid cells |
| GridScan.ObjectsOrdered | lib/Grid.ts:347-349 | objects come in column-major order of their seeds, and each seed is the first cell of its object in that order |
| GridText.Decimal | lib/Grid.ts:923 | a number's text is a non-empty string of decimal digits |
| GridText.DecimalRoundTrip | lib/Grid.ts:923 | reading the digits back gives the number |
| GridText.CellText | lib/Grid.ts:923 | a cell's text is empty iff the cell is undefined, and otherwise is made of digits and minus signs |
| GridText.NegativeText | lib/Grid.ts:923 | a negative cell is written as a minus sign followed by its magnitude |
| GridText.CellRoundTrip | lib/Grid.ts:923 | reading back a cell's text gives the cell |
| GridText.JoinInjective | lib/Grid.ts:923 | joining non-empty comma-free parts with commas can be undone |
| GridText.JoinBracketedInjective | lib/Grid.ts:923 | joining bracketed parts with commas can be undone |
| GridText.RowTextInjective | lib/Grid.ts:923 | two rows without undefined cells with the same text are the same row |
| GridText.TextInjective | lib/Grid.ts:922-924 | grids without undefined cells have the same `toString` iff they have the same rows, so the string is a sound key |
| Grids.Grid.constructor | lib/Grid.ts:198-202 | a new grid of w x h cells holds `color` in every cell, in a fresh array |
| Grids.Grid.FromRows | lib/Grid.ts:213-220 | `from_grid` copies a list of rows into a fresh array whose cells are those of the rows |
| Grids.Grid.Get | lib/Grid.ts:83-89 | `at` reads the colour stored at (x, y) |
| Grids.Grid.Set | lib/Grid.ts:77-81 | `set` changes the cell (x, y) to c and leaves every other cell as it was |
| Grids.Grid.Paint | lib/Grid.ts:77-81 | setting a cell paints exactly that point of the grid's value |
| Grids.Grid.Clone | lib/Grid.ts:226-228 | `clone` returns a fresh grid with the same size and cells |
| Grids.Grid.ClearClone | lib/Grid.ts:230-232 | `clear_clone` returns a fresh grid of the same size filled with one colour |
| Grids.Grid.Subgrid | lib/Grid.ts:234-236 | `subgrid` returns a fresh grid whose cells are the window (x0, y0)..(x1, y1) of this grid |
| Grids.Grid.Equals | lib/Grid.ts:91-107 | `equals` is true iff both grids have the same size and the same colour in every cell |
| Grids.Grid.Count | lib/Grid.ts:159-169 | the loop counts exactly the cells that pass the test |
| Grids.Grid.CountPerimeter | lib/Grid.ts:171-193 | the loops count the cells of the first and last row and the two end cells of every inner row that pass the test, so a 1-row grid reads its row twice and a 1-column grid its inner cells twice; no count, standing for the TypeError at `first_row[i]`, exactly when there are no rows but a positive width |
| Grids.Grid.CountEdgeRows | lib/Grid.ts:175-182 | the first loop counts the cells of the first and of the last row that pass the test, a 1-row grid's row twice |
| Grids.Grid.CountEndColumns | lib/Grid.ts:183-190 | the second loop counts the first and last cells of each inner row that pass the test |
| Grids.Grid.Colors | lib/Grid.ts:238-248 | the colours collected are exactly the cell colours other than the background |
| Grids.Grid.MapColors | lib/Grid.ts:278-295 | the fresh grid holds each cell's colour sent through the mapping, unmapped colours kept |
| Grids.Grid.Complement | lib/Grid.ts:678-690 | the fresh grid swaps black and non-black cells as the complement defines |
| Grids.Grid.IsSolidColor | lib/Grid.ts:519-531 | the answer is true iff every cell has the colour of the first cell |
| Grids.Grid.Erase | lib/Grid.ts:414-422 | the cells the other grid colours are reset to black and all others kept |
| Grids.Grid.DrawBox | lib/Grid.ts:314-320 | every cell inside the box gets the colour and every cell outside keeps its own |
| Grids.Grid.HorizontalColors | lib/Grid.ts:692-698 | the set holds exactly the colours of row y |
| Grids.Grid.VerticalColors | lib/Grid.ts:700-706 | the set holds exactly the colours of column x |
| Grids.Grid.DrawPerimeter | lib/Grid.ts:265-276 | exactly the border cells are painted with the colour |
| Grids.Grid.DrawInfiniteLine | lib/Grid.ts:297-302 | with a nonzero step, exactly the cells of the ray from (x, y) in direction (dx, dy) that lie inside the grid are painted; with a zero step nothing changes when (x, y) is outside the grid, and otherwise (x, y) is painted and the recursion never returns, reported as an overflow |
| Grids.Grid.DrawRay | lib/Grid.ts:297-302 | with a nonzero step the recursion paints exactly the cells of the ray from (x, y) that lie inside the grid, up to the first cell outside it |
| Grids.Grid.DrawLine | lib/Grid.ts:304-312 | exactly the points of the stepped line between the end points are painted |
| Grids.Grid.DrawLineFrom | lib/Grid.ts:307-311 | the recursive step from a start that is not the end paints exactly the points of the line |
| Grids.Grid.DrawBoxPerimeter | lib/Grid.ts:322-331 | exactly the four edges of the box are painted |
| Grids.Grid.Paste | lib/Grid.ts:444-517 | the grid becomes the paste of the region at the placement, the meaning of which the drawing lemmas state |
| Grids.Grid.IsSymmetrical | lib/Grid.ts:250-259 | the answer is true iff the grid equals its image under the transformation |
| Grids.Grid.RowIsBlank | lib/Grid.ts:539 | the row test of `trim` is the row of background cells between x0 and x1 |
| Grids.Grid.ColumnIsBlank | lib/Grid.ts:547 | the column test of `trim` is the column of background cells between y0 and y1 |
| Grids.Grid.TrimTopEdge | lib/Grid.ts:539-541 | the first loop of `trim` stops at the first row that is not blank |
| Grids.Grid.TrimBottomEdge | lib/Grid.ts:543-545 | the second loop of `trim` stops above the last row that is not blank |
| Grids.Grid.TrimLeftEdge | lib/Grid.ts:547-549 | the third loop of `trim` stops at the first column that is not blank |
| Grids.Grid.TrimRightEdge | lib/Grid.ts:551-553 | the fourth loop of `trim` stops after the last column that is not blank |
| Grids.Grid.Trim | lib/Grid.ts:533-556 | the fresh grid and its offset are the trim of the grid, which the shape lemmas show keeps every non-background cell |
| Grids.Grid.IsSemanticBox | lib/Grid.ts:594-626 | true iff the grid is at least 3 x 3, each of its four edges is one colour apart from the corners, which are free, and the inside is one colour; no two of these need differ |
| Grids.Grid.GetSemanticBox | lib/Grid.ts:628-641 | the fresh 3 x 3 grid holds the corners, the second cell of each edge and the cell (1, 1): the summary that `SemanticBoxRoundTrip` stretches back |
| GridShape.SemanticBoxRows | lib/Grid.ts:628-641 | the summary holds the first, second and last cell of the first, second and last row, in that order |
| Grids.Grid.InvScale | lib/Grid.ts:570-580 | the fresh grid keeps one cell of every s x s block |
| Grids.Grid.InvScaleWithGrid | lib/Grid.ts:582-592 | the fresh grid keeps one cell of every block between the grid lines |
| Grids.Grid.BlockIsUniform | lib/Grid.ts:794-800 | the inner loops succeed iff every cell of the n x n block has the colour of its corner |
| Grids.Grid.IsScaledBy | lib/Grid.ts:788-807 | the answer is true iff both sides divide by n and every n x n block is uniform |
| Grids.Grid.ColumnIsColor | lib/Grid.ts:809-852 | the loop succeeds iff every cell of the column between y0 and y1 has colour c |
| Grids.Grid.RowIsColor | lib/Grid.ts:809-852 | the loop succeeds iff every cell of the row between x0 and x1 has colour c |
| Grids.Grid.GridBlockIsOk | lib/Grid.ts:809-852 | the test of one block succeeds iff its grid lines carry the grid colour and its interior is uniform |
| Grids.Grid.IsScaledWithGridBy | lib/Grid.ts:809-852 | the result is the grid colour of a scaling by n with grid lines, or none |
| Grids.Grid.GetScalingFactor | lib/Grid.ts:854-865 | the result is the largest factor from the width down to 2 by which the grid is scaled, else 1 |
| Grids.Grid.GetScalingFactorWithGridColor | lib/Grid.ts:867-877 | the result is the first factor, with its grid colour, by which the grid is scaled with grid lines |
| Grids.Grid.HasPeriodX | lib/Grid.ts:883-898 | the inner loops succeed iff every cell equals the cell w columns to its left |
| Grids.Grid.HasPeriodY | lib/Grid.ts:900-915 | the inner loops succeed iff every cell equals the cell h rows above it |
| Grids.Grid.FindTile | lib/Grid.ts:879-920 | the fresh grid is the subgrid cut at the smallest horizontal and vertical periods |
| Grids.Grid.ColumnSets | lib/Grid.ts:714-720 | the list holds each column's colour set and the candidate set gains the colour of each one-colour column |
| Grids.Grid.RowSets | lib/Grid.ts:722-728 | the list holds each row's colour set and the candidate set gains the colour of each one-colour row |
| Grids.Grid.CutColumns | lib/Grid.ts:736-744 | the cut positions are -1, the one-colour columns of the grid colour in order, and the width |
| Grids.Grid.CutRows | lib/Grid.ts:737-752 | the cut positions are -1, the one-colour rows of the grid colour in order, and the height |
| Grids.Grid.CutBand | lib/Grid.ts:763-775 | the cells of one band are its non-empty windows from left to right, and the band is clean iff none holds the grid colour |
| Grids.Grid.CutCells | lib/Grid.ts:754-777 | the cells are the non-empty windows row by row, the stride counts the last band, and validity fails only on a window holding the grid colour without a default |
| Grids.Grid.CutRow | lib/Grid.ts:759-776 | one pass of the row loop appends the band between cuts j and j + 1, sets the stride to its cell count when the rows are not adjacent, and keeps validity as the reference gives it |
| GridMaster.GridToStep | lib/Grid.ts:759-776 | the band between cuts j and j + 1 extends the cells, and a non-empty row span sets the stride to its cell count |
| Grids.Grid.TryGridColor | lib/Grid.ts:735-782 | a grid colour is accepted exactly as the source accepts it, and then the result holds its cells, colour and stride |
| Grids.Grid.FindMasterGrid | lib/Grid.ts:708-786 | the result is the master grid of the first accepted colour, or the whole grid as its only cell with stride 1 |
| Grids.Grid.Propagate | lib/Grid.ts:643-676 | the object holds the colour of every cell connected to the start and black elsewhere; the contour marks its neighbours outside |
| Grids.Grid.ScanStep | lib/Grid.ts:347-354 | one step of the scan keeps the working copy equal to the grid minus the objects found, and the objects in step with the seeds |
| Grids.Grid.ScanColumn | lib/Grid.ts:346-355 | one column of the scan keeps the same invariant |
| Grids.Grid.ForeachObject | lib/Grid.ts:344-356 | the objects yielded are, in scan order, one per connected group of non-black cells |
| ConcreteImages.Divide | lib/ConcreteImage.ts:1163-1164 | JavaScript division: the real quotient for a non-zero divisor; NaN for 0/0 and an infinity of the dividend's sign otherwise |
| ConcreteImages.HullOfCovers | lib/ConcreteImage.ts:603-607 | a point inside any child's bounds lies inside the min/max hull |
| ConcreteImages.HullOfTight | lib/ConcreteImage.ts:603-607 | the hull is empty iff every child's bounds are, contains every child's bounds, and each of its sides is some child's side |
| ConcreteImages.SubImagesCover | lib/ConcreteImage.ts:602-607 | a point of any child lies in the bounds of the `SubImages` |
| ConcreteImages.XorOfTwo | lib/ConcreteImage.ts:609-620 | the 'xor' loop over two colours gives the non-black one when exactly one is non-black, black otherwise |
| ConcreteImages.AndOfSpec | lib/ConcreteImage.ts:621-632 | the 'and' loop gives black when some colour is black, otherwise the last colour, and `true` with none |
| ConcreteImages.FreeOfFirst | lib/ConcreteImage.ts:633-643 | the default loop returns the colour of the first covering child whose colour is not black |
| ConcreteImages.FreeOfNone | lib/ConcreteImage.ts:633-649 | with no lit child the default loop gives black if some child covers the point, the grid colour otherwise |
| ConcreteImages.SubImagesFree | lib/ConcreteImage.ts:602-652 | a `SubImages` without 'xor' or 'and' shows its first lit child, else black where a child covers the point, else its grid colour |
| ConcreteImages.AbstractionSample | lib/Abstraction.ts:80-100 | an abstraction compiles to the hull of its sub-images, shows its first lit sub-image at a point, and black where none is lit |
| ConcreteImages.SubImagesAnd | lib/ConcreteImage.ts:621-632 | an 'and' `SubImages` is black where any child is black and otherwise shows its last child |
| ConcreteImages.SubImagesXor | lib/ConcreteImage.ts:609-620 | an 'xor' of two children shows the one non-black child, black where both or neither are |
| ConcreteImages.MonochromePaints | lib/ConcreteImage.ts:322-329 | `MonochromeColor` keeps the child's bounds, paints every non-black point its colour and keeps black |
| ConcreteImages.SwapInvolutive | lib/ConcreteImage.ts:528-531 | swapping a colour with black, twice, gives every colour back |
| ConcreteImages.BackgroundTwice | lib/ConcreteImage.ts:525-532 | `BackgroundColor` applied twice with the same colour gives back the child's bounds and colours |
| ConcreteImages.Inverse | lib/ConcreteImage.ts:1144-1160 | every one of the eight symmetries has an inverse among them |
| ConcreteImages.InverseUndoes | lib/ConcreteImage.ts:1144-1160 | a symmetry applied over its inverse gives back the child's bounds and colours at every point |
| ConcreteImages.TransposeSwaps | lib/ConcreteImage.ts:1153-1154 | `transpose` swaps the x and y bounds of its child |
| ConcreteImages.TransformPixel | lib/ConcreteImage.ts:1144-1160 | on cell centres a transformed image shows its child's mirrored cell |
| ConcreteImages.Anchored | lib/ConcreteImage.ts:967-1016 | anchor 0 puts the start of the child at the given value, anchor 1 its end, 'zero' the raw offset; the width is the child's |
| ConcreteImages.MakeTranslation | lib/ConcreteImage.ts:967-1016 | the constructor keeps the child and stores the bounds that `compile()` reports |
| ConcreteImages.TranslationAnchors | lib/ConcreteImage.ts:967-1016 | for both axes the stored start, end or offset is the value the anchor names, and the translated image is as wide and high as its child |
| ConcreteImages.TranslationPixel | lib/ConcreteImage.ts:1035-1041 | a translated image shows at (x, y) its child's cell (x - dx, y - dy) |
| ConcreteImages.Children | lib/ConcreteImage.ts:101-102 | `images()` yields only direct sub-images, each strictly smaller than the image (see also `lib/ConcreteImage.ts:753-757`) |
| ConcreteImages.RecurImages | lib/ConcreteImage.ts:104-112 | `recur_images()` starts with the image itself |
| ConcreteImages.RecurImagesMembers | lib/ConcreteImage.ts:104-112 | the traversal lists the image first, then every image of each child's traversal, and nothing but descendants after the first |
| ImageRasters.Rasterize | lib/ConcreteImage.ts:97-99 | `to_grid` has the size of the image's bounds and each cell is the colour the image shows at that cell |
| ImageRasters.RasterizeAt | lib/ConcreteImage.ts:41-53 | the grid is (x1 - x0) x (y1 - y0) and its cell (x, y) is `at(x0 + x + 0.5, y0 + y + 0.5)` |
| ImageRasters.GenerateGrid | lib/ConcreteImage.ts:41-53 | the two loops fill a fresh grid whose value is the image's raster |
| ImageRasters.BasicImageRaster | lib/ConcreteImage.ts:144-157 | a basic image draws a stride-wide grid with ceil(n / stride) rows holding its list row by row, `undefined` past the end |
| ImageRasters.BasicImageAligned | lib/ConcreteImage.ts:150-151 | a basic image shows the same colour anywhere inside one cell |
| ImageRasters.RasterCellPixel | lib/ConcreteImage.ts:48 | a grid cell is the image's colour at the same offset from the top-left corner of its bounds |
| ImageRasters.TransformBounds | lib/ConcreteImage.ts:1144-1160 | a transformed image's bounds are its child's bounds moved by the symmetry, and exist iff the child's do |
| ImageRasters.TransformCell | lib/ConcreteImage.ts:1144-1160 | the mirrored cell of a transformed box is the cell `paste` reads under the same symmetry, and it lies in the child's grid (see also `lib/Grid.ts:444-517`) |
| ImageRasters.TransformRasterPixel | lib/ConcreteImage.ts:1144-1160 | one cell of a transformed image's grid is the child's colour at the mirrored cell |
| ImageRasters.TransformRasterSource | lib/ConcreteImage.ts:1144-1160 | one cell of a transformed image's grid is the child's grid cell that `paste` reads under that symmetry (see also `lib/Grid.ts:444-517`) |
| ImageRasters.TransformRasterFrom | lib/ConcreteImage.ts:1144-1160 | a transformed image's cell is the child's grid cell holding the mirrored point |
| ImageRasters.TransformRasterCell | lib/ConcreteImage.ts:1144-1160 | one cell of a transformed image's grid is the transformed cell of the child's grid (see also `lib/Grid.ts:444-517`) |
| ImageRasters.TransformRasterSize | lib/ConcreteImage.ts:1144-1160 | a transformed image's grid has the child's grid's size, swapped when the symmetry swaps the axes |
| ImageRasters.TransformRaster | lib/ConcreteImage.ts:1138-1160 | drawing a transformed image gives the child's grid pasted under the same symmetry into an empty grid of the matching shape (see also `lib/Grid.ts:444-517`) |
| ImageRasters.ScaleBounds | lib/ConcreteImage.ts:886-911 | a scaled image keeps its child's top-left corner; its sides are s times the child's, or s w + w - 1 with separator lines |
| ImageRasters.ScaleHasBounds | lib/ConcreteImage.ts:886-911 | a scaled image has bounds exactly when its child has |
| ImageRasters.ScaleSample | lib/ConcreteImage.ts:886-911 | a scaled image shows its child's block cell; with a grid colour, that colour on separators and black outside the bounds |
| ImageRasters.ScaleGridSample | lib/ConcreteImage.ts:898-903 | inside its bounds a scaled image with separators shows the grid colour on a separator and else the child's block cell |
| ImageRasters.ScaleReadCentre | lib/ConcreteImage.ts:891 | the centre of cell x of a scaled grid reads the centre of child cell x / s |
| ImageRasters.ScaleCell | lib/ConcreteImage.ts:889-892 | one cell of a scaled image is the child's cell of its s x s block |
| ImageRasters.ScaleRasterCell | lib/ConcreteImage.ts:889-892 | one cell of a scaled image's grid is the upscaled cell of the child's grid, and the sizes agree |
| ImageRasters.ScaleRaster | lib/ConcreteImage.ts:889-892 | `Scale` without a grid colour draws each child cell as an s x s block, the grid that `inv_scale(s)` turns back into the child's (see also `lib/Grid.ts:570-580`) |
| ImageRasters.SeparatorCell | lib/ConcreteImage.ts:899-902 | at the centre of cell x, the separator test holds iff x mod (s + 1) is s, and the block read is x / (s + 1) |
| ImageRasters.ScaleGridSeparator | lib/ConcreteImage.ts:899-900 | a cell of a scaled image on a separator line has the grid colour |
| ImageRasters.ScaleGridBlock | lib/ConcreteImage.ts:901-903 | a cell off the separator lines is the child's cell of its block |
| ImageRasters.ScaleGridBlockSample | lib/ConcreteImage.ts:901-903 | the centre of a cell off the separator lines samples the child at the centre of its block's cell |
| ImageRasters.ScaleGridCell | lib/ConcreteImage.ts:894-907 | one cell of a scaled image with separators is the grid colour on a separator and otherwise the child's cell |
| ImageRasters.ScaleGridRasterCell | lib/ConcreteImage.ts:894-907 | one cell of that grid is the cell of the child's grid upscaled with separator lines, and the sizes agree |
| ImageRasters.ScaleGridRaster | lib/ConcreteImage.ts:894-907 | `Scale` with a grid colour draws each child cell as an s x s block with one-cell separator lines of that colour (see also `lib/Grid.ts:582-592`) |
| ImageRasters.BasicLastOfRow | lib/ConcreteImage.ts:150-151 | inside its last cell, the first row of a basic image shows that cell's colour |
| ImageRasters.ScaleReadsCorner | lib/ConcreteImage.ts:891 | reading the corner of a child cell, as the source does, draws black for the first cell of `Scale(1, flip_x(BasicImage(...)))`, where the centre gives the flipped colour |
| ImageRasters.ScaleCornerAgreesOnBasic | lib/ConcreteImage.ts:891 | over a basic image the corner the source reads and the cell centre show the same colour (see also `lib/ConcreteImage.ts:150-151`) |
| ImageRasters.TranslationCell | lib/ConcreteImage.ts:1035-1041 | a translated image's grid has the child's size and the child's cell at each offset |
| ImageRasters.TranslationRaster | lib/ConcreteImage.ts:1035-1041 | a translation moves the bounds but draws the same grid |
| ImageRasters.MakeImageWindow | lib/ConcreteImage.ts:1479-1482 | `make_image_window` builds a window whose bounds are the image's own |
| ImageRasters.WindowCell | lib/ConcreteImage.ts:781-787 | inside the image's bounds its window shows the image |
| ImageRasters.WindowPixel | lib/ConcreteImage.ts:781-787 | a window shows its child at every cell inside it |
| ImageRasters.ImageWindowRaster | lib/ConcreteImage.ts:1479-1482 | a window on the image's own bounds has the same bounds and draws the same grid |
| ImageRasters.BackgroundTwiceCell | lib/ConcreteImage.ts:525-532 | a cell of the grid of two `BackgroundColor`s with one colour is the child's cell |
| ImageRasters.BackgroundTwiceRaster | lib/ConcreteImage.ts:525-532 | two `BackgroundColor`s with the same colour draw the child's grid |
| DecomposersData.BuildersSetOnlyTheirFields | lib/DecomposersData.ts:47-256 | each builder makes a node with its own name and exactly the fields it is given, holding the given values; a missing background colour leaves the field out |
| DecomposersData.GridBuildersFields | lib/DecomposersData.ts:140-146 | `background`, `master_grid` and `master_grid2` set their name and exactly their given fields; no background colour leaves the field out (see also `lib/DecomposersData.ts:217-234`) |
| DecomposersData.WrapperBuildersFields | lib/DecomposersData.ts:105-111 | `transform` and `add_info` set their name and exactly their given fields (see also `lib/DecomposersData.ts:236-242`) |
| DecomposersData.ListBuildersFields | lib/DecomposersData.ts:54-62 | `alternatives`, `monochrome_object_list_abstraction`, `find_master_grid`, `horizontal_decomposition`, `object_list` and `basic_grid` set their name and exactly their given fields (see also `lib/DecomposersData.ts:162-215`, `lib/DecomposersData.ts:251-256`) |
| DecomposersData.Normalize | lib/DecomposersData.ts:259-265 | image windows and basic grids are kept as they are; anything else is wrapped in an image window, so the result is always one of the two |
| DecomposersData.NormalizeIdempotent | lib/DecomposersData.ts:259-265 | normalising twice is normalising once |
| DecomposersData.TransformIndex | lib/DecomposersData.ts:275 | the enumeration index of a transform is 0 exactly for the identity, which is why the key omits it |
| DecomposersData.NumberField | lib/DecomposersData.ts:276-282 | a number field adds nothing to the key iff it is absent or 0 |
| DecomposersData.KeyOmitsFalsyFields | lib/DecomposersData.ts:267-287 | a background or grid colour of 0, sizes of 0, `fixed_size` false, the identity transform, the `failed` mark and the abstraction name leave the key unchanged |
| DecomposersData.KeyOmitsBlack | lib/DecomposersData.ts:276 | a background or default grid colour of 0 gives the same key as no colour (see also `lib/DecomposersData.ts:278`) |
| DecomposersData.KeyOmitsZeroSizes | lib/DecomposersData.ts:279-282 | sizes and counts of 0 give the same key as none |
| DecomposersData.KeyOmitsFalsyFlags | lib/DecomposersData.ts:275-277 | `fixed_size` false and the identity transform give the same key as none; the `failed` mark and the abstraction name never reach the key |
| DecomposersData.SameParametersSameKey | lib/DecomposersData.ts:267-287 | two nodes with the same name, nested decomposers and written parameters have the same key |
| DecomposersData.BackgroundBlackKey | lib/DecomposersData.ts:276 | `background(0, d)` and `background(undefined, d)` get the same key |
| DecomposersData.CloneIsStructuralCopy | lib/DecomposersData.ts:304-311 | a clone is the same tree with `failed` false at every node |
| DecomposersData.Kept | lib/DecomposersData.ts:315 | the filter keeps only children not marked failed, and no more than there are |
| DecomposersData.KeptAppend | lib/DecomposersData.ts:315 | filtering distributes over concatenation |
| DecomposersData.KeptPosition | lib/DecomposersData.ts:315 | an unfailed child sits in the filtered list right after the kept children before it |
| DecomposersData.KeptIsOrderedFilter | lib/DecomposersData.ts:315 | two unfailed children keep their relative order after filtering |
| DecomposersData.RemoveFailedClears | lib/DecomposersData.ts:313-324 | after pruning no node is marked failed, names are kept, and an alternatives node holds the pruned forms of exactly its unfailed children, in order |
| DecomposersData.Chain | lib/DecomposersData.ts:345-351 | the chain of single children starts at the node itself |
| DecomposersData.RootIsFirstOnChain | lib/DecomposersData.ts:345-351 | the root is the detached first node of the chain with a root name, and there is none exactly when no node of the chain has one |
| DecomposersData.SplitRoundTrip | lib/DecomposersData.ts:326-363 | the prefix is empty iff the node itself is a root, and plugging the suffix under the root into the prefix gives back the original tree, up to the `failed` marks |
| Decomposers.Each | lib/Decomposers.ts:61-69 | running the child on each item, in order, builds one image per item or fails |
| Decomposers.EachBuilt | lib/Decomposers.ts:61-69 | when every item builds, image i is the child's image of item i |
| Decomposers.EachStops | lib/Decomposers.ts:61-69 | when the run fails, it fails as the first item that did not build, after all before it built |
| Decomposers.Flatten | lib/Decomposers.ts:34-42 | `fbasic_grid` lists height x width cells |
| Decomposers.FlattenAt | lib/Decomposers.ts:34-42 | cell (x, y) sits at index y width + x of the list |
| Decomposers.BasicGridRoundTrip | lib/Decomposers.ts:34-42 | the basic image of a grid's row-major list at the grid's width draws that grid again (see also `lib/ConcreteImage.ts:144-157`) |
| Decomposers.BasicGridOf | lib/Decomposers.ts:51-59 | the two loops of `basic_grid` list the cells row by row, with the grid's width as stride |
| Decomposers.MetFrom | lib/Grid.ts:238-248 | the colours met in the first k cells are listed once each |
| Decomposers.CellOfPoint | lib/Decomposers.ts:34-42 | cell (x, y) is cell y width + x of the row-major order |
| Decomposers.PointOfCell | lib/Decomposers.ts:34-42 | every index of the row-major order lies in the grid |
| Decomposers.FirstMetMembers | lib/Grid.ts:238-248 | the list in the order `colors()` meets them holds exactly the grid's colours other than `undefined` and the background |
| Decomposers.Insert | lib/Decomposers.ts:196 | inserting a new colour into an increasing list keeps it increasing and adds exactly that colour |
| Decomposers.Ascending | lib/Decomposers.ts:195-196 | sorting distinct colours gives the same colours, increasing |
| Decomposers.RowGrid | lib/Decomposers.ts:302-310 | one pass of the outer loop builds a fresh grid that is black except for row y's non-black cells, and reports the row empty iff it has none |
| Decomposers.Layout | lib/Decomposers.ts:361-365 | the two loops of `master_grid2` visit exactly the listed corners, in order |
| Decomposers.CornersMembers | lib/Decomposers.ts:361-365 | a cell starts at every multiple of nx below the width and every multiple of ny below the height, and nowhere else |
| Decomposers.UnknownNameFails | lib/Decomposers.ts:459 | building fails with "Unknown decomposer" and the name of the first node down the chain that has an unknown one |
| Decomposers.ToListFollowsChain | lib/Decomposers.ts:463-469 | `decomposer_to_list` lists the names along the chain of single children, in order |
| Decomposers.FirstMetSize | lib/Grid.ts:238-248 | the colour list is as long as the colour set, whose `size` the decomposers test |
| Decomposers.MonochromeColors | lib/Decomposers.ts:154-167 | `monochrome` throws on more than one colour besides black; otherwise it paints the child's image of the mask with that colour, blue for none |
| Decomposers.SolidColorColors | lib/Decomposers.ts:169-177 | `solid_color` throws on more than one colour; otherwise it holds that colour, `undefined` for none |
| Decomposers.AutoBackgroundIsMostFrequent | lib/Decomposers.ts:179-190 | with no colour given, `background` takes the most frequent colour, the first met among equals, and `undefined` for a grid without colours (see also `lib/Misc.ts:96-109`) |
| Decomposers.LayerColorsAreTheColors | lib/Decomposers.ts:194-196 | `color_decomposition` visits the colours other than black exactly once each, in increasing order |
| Decomposers.ColorDecompositionLayers | lib/Decomposers.ts:192-203 | when it builds, it holds one layer per colour in increasing order, each painting the child's image of that colour's mask |
| Decomposers.FirstSuccessPicks | lib/Decomposers.ts:222-236 | the inner decomposer returns the first branch that does not throw, and throws "Can't decompose image" when all do |
| Decomposers.AlternativesFromSlots | lib/Decomposers.ts:445-453 | from branch i on, the loop keeps one slot per branch and marks exactly the branches that threw |
| Decomposers.AlternativesFromValues | lib/Decomposers.ts:445-453 | from branch i on, the loop builds one slot per remaining branch, each slot the branch's own outcome |
| Decomposers.AlternativesFromMarks | lib/Decomposers.ts:445-453 | from branch i on, every mark names a branch at or after i, and branch j is marked exactly when it threw |
| Decomposers.AlternativesNeverThrow | lib/Decomposers.ts:439-457 | an `alternatives` node never throws, whatever its branches do |
| Decomposers.AlternativesRunSlots | lib/Decomposers.ts:439-457 | over followed branches the result has one slot per branch and a mark on exactly those that threw |
| Decomposers.AlternativesSlots | lib/Decomposers.ts:439-457 | an `alternatives` node keeps one slot per branch, the branch's image or `undefined` where it threw |
| Decomposers.AlternativesRecordFailures | lib/Decomposers.ts:451 | after the run exactly the branches that threw carry `failed = true`, besides those that already did |
| Decomposers.MarkedItems | lib/Decomposers.ts:451 | marking writes `failed = true` on item j exactly when the path to it is marked |
| Decomposers.UnmarkedKept | lib/Decomposers.ts:451 | marking changes nothing below a node no mark reaches |
| Decomposers.BasicGridDecomposesLosslessly | lib/Decomposers.ts:417 | the `basic_grid` decomposer always builds, and drawing its image gives the grid back (see also `lib/Decomposers.ts:51-59`) |
| Decomposers.RowGridsMembers | lib/Decomposers.ts:301-314 | the row grids are those of the non-empty rows, and nothing else |
| Decomposers.HorizontalRows | lib/Decomposers.ts:297-318 | when it builds, part i is the child's image of the i-th non-empty row, in a free `SubImages` |
| Decomposers.HorizontalIgnoresFixedSize | lib/Decomposers.ts:428 | the dispatch never passes `fixed_size`, so the result is never of fixed size |
| Decomposers.SplitExample | lib/Decomposers.ts:361-365 | on a 4 x 4 grid with 2 x 2 cells the corners and the tags are those the loops compute, with NaN for 0/0 |
| Decomposers.SplitCellBuilt | lib/Decomposers.ts:363 | a cell that builds lies inside the grid and holds the child's image of its window, translated to its corner and tagged |
| Decomposers.SplitRunCells | lib/Decomposers.ts:359-365 | when all cells build, cell k is the child's image of the window at the k-th corner, translated there and tagged |
| Decomposers.RaggedSplitFails | lib/Decomposers.ts:361-363 | on a grid whose height is not a multiple of ny the last row of cells reaches below the grid and the split throws |
| Decomposers.MasterGrid2Shape | lib/Decomposers.ts:354-368 | a zero size throws before any child runs; otherwise the cells form a free `SubImages` without a fixed size |
| Decomposers.SubImagesColor | lib/ConcreteImage.ts:576 | a `SubImages` grid colour is never `undefined`: a missing one becomes black and any other is kept |
| DecomposerRuns.ImageWindowBuilds | lib/Decomposers.ts:45-49 | `image_window` wraps the child's image, fails as the child fails, and draws again a child image drawn from the origin at the grid's size |
| DecomposerRuns.ScaledByOne | lib/Grid.ts:864 | every grid is scaled by 1, the factor `get_scaling_factor` falls back to |
| DecomposerRuns.ScaledBuilds | lib/Decomposers.ts:91-104 | `scaled` without separators hands the child the grid shrunk by its factor, which scales back to the grid, and draws the grid again when the child draws the shrunk grid |
| DecomposerRuns.ScaledWithGridBuilds | lib/Decomposers.ts:91-104 | `scaled` with separators hands the child one cell per block and scales its image back with the separators' colour |
| DecomposerRuns.TileBuilds | lib/Decomposers.ts:106-122 | `tile`, `tile_x` and `tile_y` hand the child one tile, every cell of which repeats at its position modulo the tile's size |
| DecomposerRuns.TransformBuilds | lib/Decomposers.ts:124-128 | `transform` under a symmetry hands the child the grid turned into a grid of the turned size, and turns the child's image back |
| DecomposerRuns.TrimObjectBuilds | lib/Decomposers.ts:140-145 | `trim_object` hands the child the grid trimmed of black, puts its image back where the window was, and everything outside the window is black |
| DecomposerRuns.SemanticBoxBuilds | lib/Decomposers.ts:131-138 | `semantic_box` throws on a grid that is not a semantic box; otherwise its nine colours, stretched to the grid's size, give the grid back |
| DecomposerRuns.NineOfBox | lib/Decomposers.ts:134 | the nine colours listed row by row rebuild the 3 x 3 summary |
| DecomposerRuns.SimpleAbstractionBuilds | lib/Decomposers.ts:275-280 | `simple_abstraction` wraps the child's image as the one sub-image of a named abstraction, passes the child's failure marks and errors through, and the abstraction spans the child's bounds and draws exactly the child's grid |
| ImageRasters.SinglePartRaster | lib/Abstraction.ts:80-100 | an abstraction with a single sub-image has that sub-image's bounds and rasterizes to the same grid, since it shows the sub-image's colour where it is lit and black elsewhere |
| DecomposerRuns.AddInfoBuilds | lib/Decomposers.ts:384-388 | `add_info` runs the first child, then the second; the first failure escapes, otherwise both images are kept |
| DecomposerRuns.FreeListBuilds | lib/Decomposers.ts:61-69 | a free list over items holds the child's image of each item, throws on more than 30, and fails as the first child that fails |
| DecomposerRuns.ObjectListBuilds | lib/Decomposers.ts:61-79 | `object_list` and `object_list2` hold the child's image of each object, and the objects cover exactly the solid cells |
| DecomposerRuns.BlockListBuilds | lib/Decomposers.ts:81-89 | `block_list` holds the child's image of each block, and fails as the first block that fails |
| DecomposerRuns.RegroupColors | lib/Decomposers.ts:210-214 | every regrouped part is painted the colour of a layer it came from |
| DecomposerRuns.RegroupedColorsOfGrid | lib/Decomposers.ts:205-218 | the regrouped parts of a colour decomposition are painted colours of the grid other than black |
| DecomposerRuns.MonochromeObjectListBuilds | lib/Decomposers.ts:205-218 | `monochrome_object_list` and `monochrome_object_list2` build a free list of objects, each painted a colour of the grid other than black |
| DecomposerRuns.ObjectsAbstractionBuilds | lib/Decomposers.ts:220-249 | `monochrome_object_list_abstraction` builds a named abstraction whose parts are objects painted colours of the grid other than black |
| DecomposerRuns.LayersAbstractionBuilds | lib/Decomposers.ts:251-273 | `monochrome_decomposition_abstraction` holds one part per colour other than black, in increasing order, each the first branch's image of that colour's mask that does not throw |
| DecomposerRuns.FirstAcceptedFallback | lib/Grid.ts:784-786 | without an accepted candidate colour the master grid is the whole grid as its only cell, with stride 1 and no grid colour |
| DecomposerRuns.MasterCellsBuilds | lib/Decomposers.ts:326-334 | the parts are the master grid's cells, each the child's image placed at the cell and tagged with its index, column and row; the stride is the master grid's and the grid colour is its colour, black when it has none |
| DecomposerRuns.MasterPartAt | lib/Decomposers.ts:329-331 | a built part k is the child's image of cell k translated to the cell's corner and tagged |
| DecomposerRuns.MasterWorkerAt | lib/Decomposers.ts:329-331 | a cell's run builds only when the child builds the cell's grid |
| DecomposerRuns.FindMasterGridBuilds | lib/Decomposers.ts:326-334 | `find_master_grid` builds the cells of the grid's master grid, with the default colour when one is given |
| DecomposerRuns.FindMasterGridWhole | lib/Decomposers.ts:326-334 | with no accepted colour and no default, it builds the whole grid as one cell tagged at index 0, with stride 1 and grid colour black |
| DecomposerRuns.WholeCellRun | lib/Decomposers.ts:329-331 | the one-cell run builds what the child builds of the whole grid, placed at the origin |
| DecomposerRuns.WholeCellEach | lib/Decomposers.ts:329-331 | running the worker over one cell builds a one-part list |
| ArcPuzzle.IsSolution | lib/ArcPuzzle.ts:63-78 | false without a solution or when the row counts or the first rows' lengths differ; a TypeError when both have no rows; otherwise true iff every cell of the output matches the solution |
| ArcPuzzle.MatchIsEqualityOnRectangles | lib/ArcPuzzle.ts:63-78 | on rectangular grids of the same shape the cell-by-cell loops succeed iff output and solution are equal |
| SolverPaths.Split | lib/Solver.ts:109 | `split` on a one-character separator gives at least one part and no part holds the separator |
| SolverPaths.SplitJoin | lib/Solver.ts:109 | `split(sep).join(glue)` replaces every separator by `glue` |
| SolverPaths.ReplaceTwice | lib/Solver.ts:109 | replacing twice is replacing once by the replaced replacement, so nested prefixes compose (see also `lib/Solver.ts:117`) |
| SolverPaths.PrefixFresh | lib/Solver.ts:44 | prefixing a fresh path `@name` by a field gives `@field.name` (see also `lib/Solver.ts:109`) |
| SolverPaths.PrefixUnmarked | lib/Solver.ts:109 | a path without a mark, such as that of a constant, is left alone by every prefix |
| SolverPaths.PrefixTwice | lib/Solver.ts:102-122 | prefixing by `a` and then by `b` inserts `b.a.` after every mark |
| SolverPaths.PrefixNot | lib/Solver.ts:223-228 | prefixing commutes with negation |
| SolverPaths.OperatorPathNests | lib/Solver.ts:157-198 | a binary operator's path is `(a symbol b)` |
| SolverPaths.ReplaceOperator | lib/Solver.ts:157-198 | replacing marks in an operator path replaces them in each operand, when the symbol has no mark |
| SolverPaths.PrefixOperator | lib/Solver.ts:157-198 | prefixing commutes with a binary operator whose symbol has no mark (see also `lib/Solver.ts:102-122`) |
| SolverPaths.OperatorVUnclosed | lib/Solver.ts:200-221 | as written, `operator_v` over two paths writes the binary operator's path without its closing parenthesis |
| SolverPaths.ClosedOperatorV | lib/Solver.ts:200-221 | corrected, `operator_v` over two paths writes what the binary operator writes, and over one path just parenthesises it |
| SolverPaths.MapRec | lib/Solver.ts:370-385 | `map_rec_array` applies `f` to each value with its index in its own array and keeps nested arrays nested |
| SolverPaths.MapRecShape | lib/Solver.ts:370-385 | mapping keeps the shape of the nested array |
| SolverPaths.AnyRecFlatten | lib/Solver.ts:387-412 | `any_rec_array` holds exactly when some value of the flattened array satisfies `f` (see also `lib/Solver.ts:414-429`) |
| SolverPaths.Raise | lib/Solver.ts:557-559 | the raised sample's chain of input indices is the old chain extended by the new input index; both images and first indices are kept |
| SolverPaths.WalkSnoc | lib/Solver.ts:477-496 | walking a chain one index longer indexes the entry the shorter chain reaches, and fails where it fails |
| SolverPaths.RaisedLookup | lib/Solver.ts:477-496 | a nested mapping read for a raised sample is the read for the sample, indexed by the new input index |
| SolverPaths.Store | lib/Solver.ts:527 | an assignment past the end grows the array with holes; the written index holds the value and all others are kept (see also `lib/Solver.ts:539`) |
| SolverPaths.SetAtSucceeds | lib/Solver.ts:513-544 | writing succeeds exactly along a chain of arrays, holes being filled with new arrays |
| SolverPaths.WalkAfterSetAt | lib/Solver.ts:513-544 | after a successful write, walking the same chain finds what was written |
| SolverPaths.WalkAwayFromSetAt | lib/Solver.ts:513-544 | after a successful write, a read along a chain parting from the written one reads what it read before |
| SolverPaths.GetAfterSetMapping | lib/Solver.ts:498-544 | `get_mapping` after `set_mapping` on the same sample returns the stored number |
| SolverPaths.OutputMappingIsRaisedGet | lib/Solver.ts:477-496 | `output_mapping(m, i)` reads what `get_mapping` reads for the sample raised by `i`, and throws "Expecting a value" on an array |
| SolverPaths.TestMapping | lib/Solver.ts:546-555 | no mapping passes; a predicate is asked about the sample raised by `i`; a table passes only where it holds a non-negative number |
| Solver.ValueText | lib/Solver.ts:365 | a value's text is non-empty and holds no comma, so `join()` separates values unambiguously |
| Solver.ValueRoundTrip | lib/Solver.ts:365 | reading a written value back gives the value |
| Solver.DigitRun | lib/Solver.ts:365 | a run of digits followed by a non-digit is fixed by the string it starts |
| Solver.ValueTextInjective | lib/Solver.ts:365 | two values with the same text are equal |
| Solver.ValuesFromList | lib/Solver.ts:365 | the bracketed value list of a key determines the values |
| Solver.KindFromKey | lib/Solver.ts:365 | the first character of a key determines the type |
| Solver.ValuesFromPart | lib/Solver.ts:365 | the bracketed part after ` = ` determines the values |
| Solver.GenerationFromPart | lib/Solver.ts:365 | the generation part of a key determines the generation and the values |
| Solver.DualKeyInjective | lib/Solver.ts:364-366 | two duals have the same key iff they have the same type, generation and values |
| Solver.GenerationPartFromKey | lib/Solver.ts:365 | two duals of one type with the same key have the same generation part |
| Solver.AdmissibleMeaning | lib/Solver.ts:1010-1011 | the test keeps a bit field iff it differs from the samples mask, is not yet in the table and has at least two bits, which rules out 0 |
| Solver.Solver.constructor | lib/Solver.ts:570-612 | a new solver has empty seen-duals, memo tables, boolean functions and grid store, a zero samples mask, and consistent interning |
| Solver.Solver.ComputeSamplesMask | lib/Solver.ts:654-663 | the count is the number of samples and the mask has exactly the bits below it set; nothing else changes |
| Solver.Solver.AddGrid | lib/Solver.ts:670-679 | a grid whose text is known keeps its index and changes nothing; a new one is appended and indexed under its text (see also `lib/Solver.ts:1389-1395`) |
| Solver.InternNew | lib/Solver.ts:670-679 | appending a grid with a new text under the next index keeps every key naming its grid and every grid found under its key |
| Solver.Solver.GridNumber | lib/Solver.ts:666-688 | a missing grid gives -1 and changes nothing; a present one gives an index whose grid has the same text; the store only grows |
| Solver.Solver.FilterDual | lib/Solver.ts:947-956 | the answer is true iff the key was not seen before, and afterwards it is seen |
| Solver.Solver.AddBooleanFunction | lib/Solver.ts:1000-1015 | the bit field of the values is added under the function's path iff it is admissible; a field already present is never replaced |
| Solver.Solver.Remember | lib/Solver.ts:2039 | storing a memo entry changes only the table of that type, at that key (see also `lib/Solver.ts:2047`) |
| Solver.Solver.SelectFunction | lib/Solver.ts:2025-2049 | a remembered key answers from the memo, nothing found for 'failed'; a new key stores and returns the search's outcome |
| Solver.Solver.BuildFunction | lib/Solver.ts:2051-2076 | as selecting, but a failed search, remembered or new, gives the matching CantBuild error |
| Solver.InternedGridIsTheGrid | lib/Solver.ts:670-679 | for grids whose cells are all defined, the interned index names a grid with the same rows |
| SolverClassify.AndMeaning | lib/Solver.ts:1433-1435 | `positives & output` equals the positives iff the predicate holds on every positive, and is 0 iff it holds on none |
| SolverClassify.AndNotMeaning | lib/Solver.ts:1434-1438 | `negatives & ~output` equals the negatives iff the predicate holds on no negative, and is 0 iff it holds on every one |
| SolverClassify.BooleanVerdictYields | lib/Solver.ts:1432-1444 | a predicate is yielded as it is iff there are positives and negatives and it holds on every positive and no negative, and negated in the mirror case |
| SolverClassify.Note | lib/Solver.ts:1432-1466 | classifying a predicate adds at most the one key its verdict names, storing the path or its negation only when the key was free and keeping every earlier entry; the bit field joins the mixed set only for a mixed verdict when a set was passed |
| SolverClassify.GroupCountsOf | lib/Solver.ts:1564-1582 | there is one count per example index up to the last one met, and a single count without samples |
| SolverClassify.GroupCounts | lib/Solver.ts:1565-1582 | the loop computes, for each example, how many samples have it as first index |
| SolverClassify.CountSelected | lib/Solver.ts:1590-1596 | the inner loop counts the samples of a group whose bit is set |
| SolverClassify.ClassifySelector | lib/Solver.ts:1585-1610 | `classify` gives 'failed' when some group has no selected sample, 'partial' when some has several, and 'success' otherwise |
| SolverClassify.StartIsBelow | lib/Solver.ts:1586-1593 | the group sizes before example g add up to the number of samples of earlier examples |
| SolverClassify.SortedBelow | lib/Solver.ts:1570-1581 | in a sorted list of first indices, the entries below g are exactly the first ones |
| SolverClassify.ChosenInRange | lib/Solver.ts:1589-1596 | the selected samples of example g among the first n are those of the clamped range of its group |
| SolverClassify.GroupSelectedIsExample | lib/Solver.ts:1589-1596 | group g of the counts holds exactly the samples of example g |
| SolverClassify.SelectorClassByExample | lib/Solver.ts:1564-1610 | a selector succeeds iff it selects exactly one sample of every example, and fails iff some example has none selected |
| SolverClassify.MappingTable | lib/Solver.ts:1891-1905 | the loop succeeds iff equal inputs always come with equal outputs, and then the table maps exactly the inputs met to their outputs |
| TableColumns.OccIsMultiplicity | lib/TableAnalyser.ts:34-49 | the count the map reaches for x is x's multiplicity among the entries |
| TableColumns.CountedMeaning | lib/TableAnalyser.ts:34-49 | `count_array` keeps nulls and replaces every other entry by its multiplicity, which is at least one |
| TableColumns.CountArray | lib/TableAnalyser.ts:34-49 | the counting loop and the lookup give the counted array |
| TableColumns.CountArrays | lib/TableAnalyser.ts:51-68 | `count_arrays` counts one column directly and several by the key of each row, or fails where a later column is null |
| TableColumns.FailureStays | lib/TableAnalyser.ts:58-64 | once a row throws, every longer run throws |
| TableColumns.RowKeysShape | lib/TableAnalyser.ts:58-64 | the keys are one per row, null exactly where the first column is, and otherwise the row's key |
| TableColumns.RowKeyInjective | lib/TableAnalyser.ts:62 | two full rows have the same comma-joined key iff they hold the same numbers |
| TableColumns.CountArraysCountsTuples | lib/TableAnalyser.ts:51-68 | counting several columns gives each row with a number first how many rows hold the same tuple, and null where the first entry is null |
| TableColumns.SortedValues | lib/TableAnalyser.ts:71-72 | the distinct non-null numbers, strictly ascending, and nothing else |
| TableColumns.IndexOrder | lib/TableAnalyser.ts:74-76 | in a strictly ascending list, positions compare as the values do |
| TableColumns.RankMeaning | lib/TableAnalyser.ts:70-79 | ranks keep nulls, lie between 0 and the number of distinct numbers less one, and compare exactly as the numbers do |
| TableColumns.RanksOnto | lib/TableAnalyser.ts:70-79 | every rank below the number of distinct numbers is taken by some entry |
| TableColumns.InvRankMeaning | lib/TableAnalyser.ts:81-90 | the inverse rank is the rank counted from the largest, so it keeps nulls and reverses the order |
| TableColumns.ScanColumn | lib/TableAnalyser.ts:97-106 | the inner loop either keeps the scan state for the next column or has found two different numbers |
| TableColumns.ArraysSameValue | lib/TableAnalyser.ts:92-110 | the answer is true iff all non-null entries of all columns are the same number |
| TableColumns.CellKeyText | lib/TableAnalyser.ts:30-32 | an entry's text is non-empty and holds no comma and no closing bracket |
| TableColumns.CellKeyTextInjective | lib/TableAnalyser.ts:30-32 | two entries with the same text are equal |
| TableColumns.ValueTextNotNull | lib/TableAnalyser.ts:30-32 | a number is never written as `null` |
| TableColumns.SampleKeyBracketed | lib/TableAnalyser.ts:144 | the key of one example's values is bracketed |
| TableColumns.SampleKeyInjective | lib/TableAnalyser.ts:144 | two examples' value lists with the same key are equal |
| TableColumns.SamplesKeyInjective | lib/TableAnalyser.ts:144 | two columns have the same key iff they hold the same values, so deduplicating by key is deduplicating by value |
| TableAnalysis.BasicMeaning | lib/TableAnalyser.ts:145-171 | each basic column holds the values of one non-constant generic function, which the map sends to it; the map holds nothing else; the columns are pairwise distinct |
| TableAnalysis.BasicComplete | lib/TableAnalyser.ts:145-171 | every non-constant generic function has its values among the basic columns |
| TableAnalysis.Counts | lib/TableAnalyser.ts:177-188 | the count phase keeps descriptions and sample columns in step, with one new column per work entry; what each new column holds is `CountsMeaning` |
| TableAnalysis.AppendFresh | lib/TableAnalyser.ts:164-168 | appending a column whose key is not yet seen keeps the columns distinct |
| TableAnalysis.CountsMeaning | lib/TableAnalyser.ts:177-188 | each count column counts one basic column, varies, is a number column marked as a count, and the count columns are distinct; the work list names the counted basic columns |
| TableAnalysis.CountsWork | lib/TableAnalyser.ts:190 | the first work list names single basic columns |
| TableAnalysis.Combined | lib/TableAnalyser.ts:199-200 | counting listed columns together gives one array per example |
| TableAnalysis.Candidate | lib/TableAnalyser.ts:198-210 | one candidate keeps the work list valid and columns matched with descriptions |
| TableAnalysis.Extend | lib/TableAnalyser.ts:197-211 | extending one base list keeps the work list valid and columns matched with descriptions |
| TableAnalysis.Round | lib/TableAnalyser.ts:196-212 | one round keeps the work list valid and columns matched with descriptions |
| TableAnalysis.Rounds | lib/TableAnalyser.ts:193-215 | the rounds keep columns matched with descriptions |
| TableAnalysis.ExtendsTrans | lib/TableAnalyser.ts:167-168 | only appending columns is transitive |
| TableAnalysis.RoundsKeep | lib/TableAnalyser.ts:190-215 | the combination rounds only append columns, and every column from the basic ones on stays a distinct, varying count column |
| TableAnalysis.RankStep | lib/TableAnalyser.ts:220-238 | one column's rank and inverse-rank step only appends columns |
| TableAnalysis.Ranks | lib/TableAnalyser.ts:220-257 | a rank loop keeps descriptions and sample columns in step and never shortens the table; that it only appends is `RanksExtend` |
| TableAnalysis.RanksExtend | lib/TableAnalyser.ts:220-257 | the rank loop keeps every column before it, with its samples, and only appends |
| TableAnalysis.RanksKeep | lib/TableAnalyser.ts:217-257 | a rank loop appends only distinct rank and inverse-rank columns of the columns before the count end |
| TableAnalysis.CountsAreCountColumns | lib/TableAnalyser.ts:177-188 | after the count phase every column from the basic ones on is a distinct varying count column |
| TableAnalysis.InitMeaning | lib/TableAnalyser.ts:140-260 | when `init` does not throw it builds the basic columns first, then distinct varying count columns, then distinct rank and inverse-rank columns of the columns before them |
| TableAnalysis.KeysAppend | lib/TableAnalyser.ts:164-165 | appending a column adds exactly its key to the keys seen |
| TableAnalysis.CombinedFails | lib/TableAnalyser.ts:200 | a failure counting some example makes the whole combination fail with it |
| TableAnalysis.TableAnalysis.constructor | lib/TableAnalyser.ts:122-130 | a new analysis has no columns and an empty index map |
| TableAnalysis.TableAnalysis.Push | lib/TableAnalyser.ts:167-168 | pushing appends the description and the values, leaving the index map alone |
| TableAnalysis.TableAnalysis.AddBasicColumns | lib/TableAnalyser.ts:145-171 | phase 1 leaves exactly the basic columns |
| TableAnalysis.TableAnalysis.CountSamples | lib/TableAnalyser.ts:178 | the loop counts each example's values |
| TableAnalysis.TableAnalysis.AddCountColumns | lib/TableAnalyser.ts:172-188 | phase 2 gives the count columns and work list of the specification, and the keys seen |
| TableAnalysis.TableAnalysis.CombineColumns | lib/TableAnalyser.ts:199-200 | the loop counts the listed columns together, example by example |
| TableAnalysis.TableAnalysis.TryCandidate | lib/TableAnalyser.ts:198-210 | one candidate succeeds iff the specification does, and then leaves its state |
| TableAnalysis.TableAnalysis.PushCandidate | lib/TableAnalyser.ts:208-209 | a recorded candidate appends its samples and a count description naming the first index of each listed column |
| TableAnalysis.TableAnalysis.ExtendBase | lib/TableAnalyser.ts:197-211 | the inner loop succeeds iff the specification does, and then leaves its state |
| TableAnalysis.TableAnalysis.RunRound | lib/TableAnalyser.ts:194-214 | one round succeeds iff the specification does, and then leaves its state and next work list |
| TableAnalysis.TableAnalysis.NextRound | lib/TableAnalyser.ts:193-215 | one pass of the `depth-- > 0` loop: on success the rounds from the old state equal the rounds from the new state and next work list with one round fewer; on failure the rounds fail |
| TableAnalysis.TableAnalysis.AddCombinedColumns | lib/TableAnalyser.ts:190-215 | phase 3, at most four rounds, succeeds iff the specification does, and then leaves its table |
| TableAnalysis.TableAnalysis.AddRankColumns | lib/TableAnalyser.ts:217-257 | each rank loop leaves the table the rank specification gives, and the keys seen |
| TableAnalysis.TableAnalysis.Init | lib/TableAnalyser.ts:140-260 | `init` succeeds iff the specification does, and then leaves exactly the specified table |
| TableSearch.CompleteDetermines | lib/TableAnalyser.ts:339-366 | for a complete list of inputs, the rows selected in every example carry the wanted value and no other number |
| TableSearch.RowMatch | lib/TableAnalyser.ts:347-352 | the inner loop finds a row matching iff every chosen input column holds its chosen value in that row |
| TableSearch.CollectOutputs | lib/TableAnalyser.ts:344-356 | the loop collects exactly the non-null outputs of the matching rows of one example |
| TableSearch.TestPotentialInputs | lib/TableAnalyser.ts:339-366 | the loop gives 'invalid' at the first example missing its value, else 'incomplete' if some example has several outputs, else 'complete' |
| TableSearch.KeyOfInjective | lib/TableAnalyser.ts:370 | two index lists have the same comma-joined key iff they are equal |
| TableSearch.CheckSubsets | lib/TableAnalyser.ts:402-407 | the subset test passes iff every list with one entry removed was recorded as incomplete |
| TableSearch.ChainLength | lib/TableAnalyser.ts:394-433 | lists are strictly increasing, so no list is longer than the number of potential inputs and the rounds end |
| TableSearch.Try | lib/TableAnalyser.ts:401-427 | a candidate that does not throw keeps the next round's lists increasing and one longer |
| TableSearch.Grow | lib/TableAnalyser.ts:399-428 | extending one list by later incomplete inputs keeps the next round's lists well formed |
| TableSearch.Sweep | lib/TableAnalyser.ts:397-429 | one round keeps the next round's lists well formed |
| TableSearch.SinglesFrom | lib/TableAnalyser.ts:373-390 | the single-input loop records only indices of potential inputs |
| TableSearch.Units | lib/TableAnalyser.ts:384 | the first round has one one-element list per incomplete input |
| TableSearch.SearchSound | lib/TableAnalyser.ts:394-433 | the rounds only add lists to what is yielded, and only complete ones |
| TableSearch.SinglesYields | lib/TableAnalyser.ts:373-378 | the singles loop yields input i exactly when it is complete on its own |
| TableSearch.SinglesIncomplete | lib/TableAnalyser.ts:379-385 | the singles loop keeps input i, and records its key, exactly when it is incomplete, in increasing order |
| TableSearch.SinglesMembers | lib/TableAnalyser.ts:373-385 | input i is kept as incomplete exactly when its verdict on its own is incomplete |
| TableSearch.SinglesIncreasing | lib/TableAnalyser.ts:373-385 | the kept inputs come in increasing order |
| TableSearch.SinglesKeys | lib/TableAnalyser.ts:383 | the key of each kept input is recorded among the seen sequences |
| TableSearch.TrySingles | lib/TableAnalyser.ts:373-390 | the singles loop computes what the reference definition of the singles gives, and starts the rounds with one list per incomplete input |
| TableSearch.SearchRounds | lib/TableAnalyser.ts:392-433 | the rounds loop computes the reference search from the first round |
| TableSearch.EnumerateSound | lib/TableAnalyser.ts:339-433 | every list for which a function is built is complete, and the single inputs come first |
| TableSearch.SearchAsWritten | lib/TableAnalyser.ts:409-410 | as written, the rounds yield nothing new and the count never moves |
| TableSearch.AsWrittenYieldsSinglesOnly | lib/TableAnalyser.ts:392-410 | as written, the combination phase builds no function: it yields the singles only and the count stays at 10000 |
| TableSearch.AsWrittenThrows | lib/TableAnalyser.ts:409-410 | as written, two potential inputs that are each incomplete alone make the analysis throw at the first pair it tries |
| TableSearch.SearchBudget | lib/TableAnalyser.ts:392-410 | with the corrected guard the count only falls and stays at least 500, and a throw happens at exactly 500 |
| TableSearch.CorrectedBudget | lib/TableAnalyser.ts:392-410 | with the corrected guard the search throws only once 9500 candidates have passed the subset check |
| TableSearch.TryCandidate | lib/TableAnalyser.ts:401-427 | the method for one candidate computes the corrected specification |
| TableSearch.GrowList | lib/TableAnalyser.ts:399-428 | the loop over the incomplete inputs computes the corrected specification |
| TableSearch.SweepRound | lib/TableAnalyser.ts:397-429 | the loop over one round's lists computes the corrected specification |
| TableSearch.EnumerateInputs | lib/TableAnalyser.ts:368-433 | the whole search, singles then rounds until none is left, computes the corrected specification |
| TableFunctions.GetColumn | lib/TableAnalyser.ts:519-526 | rebuilding a column succeeds iff there is a generic function and, for a count column, counting does not throw |
| TableFunctions.GetColumnLength | lib/TableAnalyser.ts:519-526 | a rebuilt column has as many rows as its first generic function, and is that column when neither ranked nor counted |
| TableFunctions.Filter | lib/TableAnalyser.ts:540 | filtering keeps exactly the rows that pass, never more (see also `lib/TableAnalyser.ts:546`) |
| TableFunctions.FilterIncreasing | lib/TableAnalyser.ts:540 | filtering keeps the rows in increasing order (see also `lib/TableAnalyser.ts:546`) |
| TableFunctions.Range | lib/TableAnalyser.ts:534 | `[...range(n)]` is 0, 1, ..., n - 1 |
| TableFunctions.Least | lib/TableAnalyser.ts:542 | `Math.min` with nulls as +Infinity gives no number iff every row is null, and otherwise the least number among the rows |
| TableFunctions.Greatest | lib/TableAnalyser.ts:543 | `Math.max` with nulls as -Infinity gives no number iff every row is null, and otherwise the greatest number among the rows |
| TableFunctions.Select | lib/TableAnalyser.ts:539-547 | one input's filter only removes rows |
| TableFunctions.Narrow | lib/TableAnalyser.ts:536-548 | the inputs applied in turn only remove rows |
| TableFunctions.EvaluateFunction | lib/TableAnalyser.ts:534-550 | the narrowing loop of a built function computes its specified value |
| TableFunctions.NarrowPlain | lib/TableAnalyser.ts:536-548 | with fixed values and the index only, a row is left iff it passes every input |
| TableFunctions.SelectMin | lib/TableAnalyser.ts:542 | 'min' keeps exactly the rows holding the least number among those left, and none when a row is past the column's end (see also `lib/TableAnalyser.ts:546`) |
| TableFunctions.SelectMax | lib/TableAnalyser.ts:543 | 'max' keeps exactly the rows holding the greatest number among those left (see also `lib/TableAnalyser.ts:546`) |
| TableFunctions.NarrowIncreasing | lib/TableAnalyser.ts:536-548 | the rows left stay in increasing order |
| TableFunctions.EvaluateFirstRow | lib/TableAnalyser.ts:550 | the function's value is `undefined` iff no row survives, and otherwise the output at the lowest surviving row |
| TableFunctions.IndexFunctionReadsRow | lib/TableAnalyser.ts:539-540 | a function whose single input is 'index' reads its column at the current row, and `undefined` off its end (see also `lib/TableAnalyser.ts:550`) |
| TableFunctions.GetColumns | lib/TableAnalyser.ts:529 | the input columns are rebuilt one per description |
| TableFunctions.IndexDualReadsRow | lib/TableAnalyser.ts:558-565 | the index function of a column succeeds iff the column can be rebuilt, and then reads it at the current row |
| TableFunctions.KeptIffMatches | lib/TableAnalyser.ts:546 | the rows the built function keeps are exactly the rows the search's test matches (see also `lib/TableAnalyser.ts:347-352`) |
| TableFunctions.WantedRow | lib/TableAnalyser.ts:353-357 | when the test passes, some matching row holds the wanted value |
| TableFunctions.CompleteFunctionAgrees | lib/TableAnalyser.ts:377 | a function built from a complete list gives a row on every example, and when its value is a number it is the wanted one (see also `lib/TableAnalyser.ts:415`) |
| TableFunctions.ExtendedMeaning | lib/TableAnalyser.ts:567-580 | each single ranked or inverse-ranked column gives one index function of the next generation over its examples' values concatenated, and no other column gives one |
| TableFunctions.ExtendedNumberFunctions | lib/TableAnalyser.ts:567-580 | the loop gives exactly those index functions, in column order |
| Abstractions.Evaluated | lib/Abstraction.ts:187-209 | each argument is its getter evaluated on the abstraction, one per getter, in order |
| Abstractions.Matching | lib/Abstraction.ts:217 | the sub-images a selector accepts are drawn from those still to classify |
| Abstractions.Remove | lib/Abstraction.ts:226 | removing the chosen part drops every copy of it and nothing else, and shortens the list when it was there |
| Abstractions.SelectFromMeaning | lib/Abstraction.ts:215-232 | selection only appends parts, one per selector passed; it succeeds iff every selector picked a part, and when it stops, the next selector accepted other than exactly one sub-image |
| Abstractions.SelectFromPartition | lib/Abstraction.ts:223-226 | parts and sub-images left always make up, as a multiset, the sub-images they came from |
| Abstractions.SelectPartsMeaning | lib/Abstraction.ts:211-233 | after select_parts the parts and the sub-images left are disjoint and make up the sub-images; success iff there is one part per selector |
| Abstractions.SelectFromSize | lib/Abstraction.ts:211-233 | selection never yields more parts and leftovers together than there are sub-images |
| Abstractions.SelectFromDepends | lib/Abstraction.ts:211-233 | what selection picks depends only on the parts, the sub-images left, the selectors, the getters and the arguments held, not on the black box, the builders or the list of sub-images |
| Abstractions.FleshMeaning | lib/Abstraction.ts:167-185 | fleshing installs the snapshot's black box, builders, getters and selectors, keeps the sub-images, and succeeds iff selection is off or gives one part per selector |
| Abstractions.FleshPicks | lib/Abstraction.ts:175-184 | fleshing with selection is selection from no parts over the sub-images and the arguments held, with the snapshot's getters and selectors; it keeps the sub-images and the snapshot, succeeds iff there is one part per selector, and never yields more parts and leftovers than sub-images |
| Abstractions.ArgumentPaths | lib/Abstraction.ts:102-107 | there is one argument accessor per argument |
| Abstractions.PartPathsMeaning | lib/Abstraction.ts:109-116 | the part functions are every function of every part, prefixed with the part's place, and no others |
| Abstractions.BlackBoxHidesParts | lib/Abstraction.ts:106-119 | a black box offers only its argument accessors; otherwise also every part function prefixed with its part's place |
| Abstractions.ExtraKindsIgnored | lib/Abstraction.ts:448-455 | a type found only in another abstraction does not make the comparison fail |
| Abstractions.KindsMeaning | lib/Abstraction.ts:387-396 | the types grouped are exactly those that occur, the first sub-image's type first |
| Abstractions.GroupKinds | lib/Abstraction.ts:387-396 | grouping by type gives the types in first-occurrence order and each type's number of sub-images |
| Abstractions.FirstUnique | lib/Abstraction.ts:404-408 | the type picked has exactly one sub-image; none is picked only when no type has exactly one |
| Abstractions.NextSelectorMeaning | lib/Abstraction.ts:383-433 | nothing to classify gives no selector; a type with a single sub-image is split off by its discriminator; otherwise the first type's discriminator is and-ed with the sub-solver's selector, or there is none |
| Abstractions.FleshEach | lib/Abstraction.ts:371-381 | over distinct abstractions, fleshing a list succeeds iff fleshing succeeds on every element as it was, and then each element holds its fleshed state; sub-images are untouched |
| Abstractions.FleshOne | lib/Abstraction.ts:175-184 | one flesh call leaves the abstraction in the state, and with the answer, that fleshing its old sub-images and arguments gives |
| Abstractions.StatesOf | lib/Abstraction.ts:371-381 | the states of a list of abstractions, one per abstraction, in order |
| Abstractions.UnaliasedSplit | lib/Abstraction.ts:364-381 | when the inputs and outputs are distinct objects, so are the inputs, so are the outputs, and no input is an output |
| Abstractions.CarriedMeaning | lib/Abstraction.ts:341-355 | each failed attempt appends its missing function to the getters of its kind, in order |
| Abstractions.Abstraction.constructor | lib/Abstraction.ts:33-59 | a new abstraction has its sub-images and no arguments, getters, parts or selectors |
| Abstractions.Abstraction.GetArguments | lib/Abstraction.ts:187-209 | the arguments become the getters evaluated on the abstraction; nothing else changes |
| Abstractions.Abstraction.SelectParts | lib/Abstraction.ts:211-233 | the new state and result are those of the selection function |
| Abstractions.Abstraction.ApplyFlesh | lib/Abstraction.ts:175-184 | the new state and result are those of fleshing with the snapshot |
| Abstractions.Abstraction.Functions | lib/Abstraction.ts:106-157 | returns the argument accessors and, unless a black box, the prefixed part functions |
| Abstractions.Abstraction.CheckPotentialAbstraction | lib/Abstraction.ts:436-456 | true iff every other abstraction has as many sub-images of each of this one's types |
| Abstractions.Abstraction.FleshAll | lib/Abstraction.ts:282-314 | one attempt keeps every sub-image list and this snapshot; on success there is one part per selector |
| Abstractions.Abstraction.AddPart | lib/Abstraction.ts:271-360 | the selector is pushed; at most 100 attempts; every failed attempt lacked a function and carried it into the getters; success iff an attempt built the part, whose builder is appended |
| Abstractions.Abstraction.TryAttempt | lib/Abstraction.ts:284-355 | one attempt either stops (building the part and appending its builder, or failing with nothing added) or lacked a function and carried it into the getters |
| Abstractions.Abstraction.FleshEverything | lib/Abstraction.ts:364-381 | this abstraction ends in its own fleshed state, black box off; success iff fleshing succeeds on this, on every input and on every output as each was, with this abstraction's snapshot; on success every input and output holds its fleshed state |
| Abstractions.Abstraction.AbstractNewPart | lib/Abstraction.ts:362-434 | a selector is added only after fleshing this abstraction succeeded, and it is the one the next-selector rule picks for the sub-images its fleshed state left |
| Abstractions.Abstraction.AbstractAllParts | lib/Abstraction.ts:458-503 | fails unless the inputs share the type counts; succeeds iff fleshing the final states of this abstraction, the inputs and the outputs succeeds and every input has nothing left to classify |
| Abstractions.Abstraction.AbstractNewParts | lib/Abstraction.ts:467-469 | adding parts until an attempt fails changes no sub-image list, of this abstraction or of the inputs and outputs |
| Abstractions.Abstraction.NothingToClassify | lib/Abstraction.ts:496 | true iff every input abstraction has an empty list of sub-images to classify |
| Tiles.CellRange | lib/Rasterizer.ts:44 | the coordinate of a cell inside the grid is below width times height |
| Tiles.CellDivMod | lib/Rasterizer.ts:44 | column and row are recovered from a coordinate by remainder and division |
| Tiles.CellInjective | lib/Rasterizer.ts:44 | distinct cells of the grid have distinct coordinates |
| Tiles.CellOf | lib/Rasterizer.ts:128 | every coordinate below width times height is that of a cell of the grid |
| Tiles.Origin | lib/Rasterizer.ts:46-51 | the origin holds one colour per cell of the (2 radius + 1)-square window |
| Tiles.MakeTile | lib/Rasterizer.ts:42-54 | a new tile has data of the window's size |
| Tiles.NewTile | lib/Rasterizer.ts:42-54 | the tile built by reading the window row by row is the one described by its window function |
| Tiles.Offset | lib/Rasterizer.ts:62 | a point of the window is kept at a position inside the data |
| Tiles.TileSet | lib/Rasterizer.ts:56-66 | set gives a tile with the same place, radius and grids, and the same tile when the point lies outside the window |
| Tiles.OriginWindow | lib/Rasterizer.ts:46-52 | a new tile reads the input's colour inside the window, no_color where the window leaves the grid and outside it (see also `lib/Rasterizer.ts:68-77`) |
| Tiles.SetThenGet | lib/Rasterizer.ts:56-77 | after set, at reads the colour written at that point and the old colour everywhere else |
| Tiles.Target | lib/Rasterizer.ts:92-96 | no target exactly without an output grid, standing for the TypeError of `output_grid!.at`; otherwise no_color exactly when the output holds the centre's colour (or no_color) there, and else the output's colour there, which differs from the centre |
| Tiles.TargetAfterDrawing | lib/Rasterizer.ts:92-96 | once the centre holds the output's colour, the tile's target is no_color |
| Rasterizers.Coords | lib/Rasterizer.ts:209 | range(n) is 0, ..., n - 1 |
| Rasterizers.Add | lib/Rasterizer.ts:176 | adding to the worklist gives its old members and the coordinate |
| Rasterizers.Delete | lib/Rasterizer.ts:230 | deleting from the worklist removes the coordinate and nothing else |
| Rasterizers.PaintKeeps | lib/Rasterizer.ts:223-225 | drawing a colour the output allows keeps every colour of a tile either its start colour or one the output allows |
| Rasterizers.KeptOrDrawnChain | lib/Rasterizer.ts:198-201 | that accounting composes from layer to layer |
| Rasterizers.Rasterizer.KeyDetermines | lib/Rasterizer.ts:53 | within one rasterizer a key names a single tile |
| Rasterizers.Rasterizer.TileOf | lib/Rasterizer.ts:124-130 | a complete layer gives a tile exactly inside the grid, one of the layer's tiles sitting at that cell |
| Rasterizers.Rasterizer.StartOf | lib/Rasterizer.ts:191-203 | a cell starts a layer with a tile sitting at that cell |
| Rasterizers.Rasterizer.TileAt | lib/Rasterizer.ts:124-130 | tile_at is undefined exactly outside the grid and otherwise gives the tile of that cell, one of the layer's tiles |
| Rasterizers.Rasterizer.SetTile | lib/Rasterizer.ts:132-146 | a tile whose key is known reuses its index, otherwise it is appended; the cell points at the index, which holds the tile; nothing else changes |
| Rasterizers.Rasterizer.ResetColumn | lib/Rasterizer.ts:192-202 | each cell of the column gets its start tile; every tile appended is the start tile of its cell; other columns and layers are untouched |
| Rasterizers.Rasterizer.AddLayers | lib/Rasterizer.ts:186-190 | empty layers are added up to the one asked for, each cell pointing somewhere; old layers are kept |
| Rasterizers.Rasterizer.ResetTiles | lib/Rasterizer.ts:184-203 | every cell of the layer gets its start tile: a new tile on layer 0, the tile below otherwise; the known tiles are kept and every tile appended is the start tile of its cell; other layers untouched |
| Rasterizers.Rasterizer.ResetNextColumn | lib/Rasterizer.ts:192-202 | one round of the outer loop resets column x and keeps the start tiles of the columns before it; every tile appended is a start tile; other layers untouched |
| Rasterizers.Rasterizer.ReplaceTile | lib/Rasterizer.ts:143 | pointing a cell at a fitting tile changes that cell's tile and no other |
| Rasterizers.Rasterizer.DrawColumn | lib/Rasterizer.ts:171-181 | the tiles of the column within the radius get the colour at the point; their coordinates join the worklist |
| Rasterizers.Rasterizer.DrawTile | lib/Rasterizer.ts:172-180 | the tile at (xx, yy), when there is one, gets colour c at the point and joins the worklist; every other tile and layer is unchanged |
| Rasterizers.Rasterizer.DrawAt | lib/Rasterizer.ts:168-183 | every tile within the radius of the point gets the colour there, the others are unchanged, and exactly their coordinates join the worklist |
| Rasterizers.Rasterizer.Visit | lib/Rasterizer.ts:217-231 | the visited tile is the one the coordinate's cell holds, one of the layer's tiles; with c the colour the tile function gives it, an error is counted exactly when c is a colour other than the centre and the output grid holds another colour there; when nothing is drawn the tiles stay and only the coordinate leaves the worklist; when c is drawn every tile gets c at that point and the worklist becomes the other coordinates plus the cells near the visited one |
| Rasterizers.Rasterizer.NextSoFar | lib/Rasterizer.ts:216-229 | a visit at the next coordinate of the pass, of the tile its cell holds, keeps the pass's record: the visits sit at the pass's coordinates in order; until one draws, each is the tile its cell held when the pass began; a visit that does not draw leaves the layer alone and only removes its coordinate |
| Rasterizers.Rasterizer.VisitNext | lib/Rasterizer.ts:216-229 | one step of the `for` loop appends one visit and keeps the pass's record, the error count and the accounting of every tile; other layers unchanged |
| Rasterizers.Rasterizer.VisitRound | lib/Rasterizer.ts:216-229 | one pass appends one visit per coordinate the worklist held, the i-th visit at the i-th coordinate; the error count stays the number of visits the output grid refused; until a visit of the pass draws, each visit is the tile its cell held when the pass began; a pass in which nothing draws changes no tile and leaves in the worklist only coordinates it held and none it visited |
| Rasterizers.InOrder | lib/Rasterizer.ts:208-216 | a pass over the worklist `range(width * height)` visits the cells in coordinate order |
| Rasterizers.Emptied | lib/Rasterizer.ts:216-229 | a worklist that holds only coordinates of the pass and none of them is empty |
| Rasterizers.Rasterizer.Pass | lib/Rasterizer.ts:215-230 | one round of the `while` loop keeps the run's record: after the first pass the first width * height visits are at the cells in coordinate order, and until a visit draws each of them is the start tile of its cell; while no visit draws the layer keeps the tiles the reset left and the first pass empties the worklist |
| Rasterizers.Rasterizer.Passes | lib/Rasterizer.ts:215-231 | the `while` loop stops with an empty worklist or no fuel left, with the run's record as for `Pass` |
| Rasterizers.Rasterizer.RasterizeLayer | lib/Rasterizer.ts:205-244 | `known` is the tile list just after the reset: the tiles the layer held, then start tiles, with the start tile of every cell among them; the new-tile count is how far the list grew from it. With a tile function and fuel, the first width * height visits are at cells 0, 1, ..., width * height - 1 in order, and until a visit draws each is its cell's start tile; when no visit draws, that first pass is the only one and no tile is new. The error count is the number of visits whose colour the output grid refused, zero without an output grid or a tile function. Every colour of every tile is its start tile's or one drawn there that the output allows |
| Rasterizers.Rasterizer.GridAtLayer | lib/Rasterizer.ts:148-158 | a new grid of the size of the input holding each tile's centre |
| Rasterizers.Rasterizer.FinalGrid | lib/Rasterizer.ts:160-166 | the centres of the last layer, or not_written everywhere without tile functions |
| Rasterizers.Rasterizer.Rasterize | lib/Rasterizer.ts:246-252 | each cell of the result is the input's colour there or a colour the output grid has there; not_written everywhere without tile functions |
| Rasterizers.Rasterizer.constructor | lib/Rasterizer.ts:116-122 | layer 0 holds a new tile for every cell |

## Left out

- The browser client, the worker pool, the HTTP server, `lib/Solution.ts` (it runs user code through `eval`) and `lib/UsingSolver.ts` (asynchronous orchestration) are not part of this model.
- Logging, console output, timers (`setTimeout`, `check_timeout`) and `Math.random` (`random_permutation`, `random_element`) are left out. They do not affect the values computed.
- The asynchronous search of lib/Solver.ts is not modelled. This covers `make`, `init`, `sub_init`, `make_sub_solver`, `find_mapping_sub_solvers`, `select_decision_tree_function`, `select_best_function`, every `build_solver_function` and the generator chains of `enum_*_functions`. Only the tests those generators apply are modelled: the boolean classification, the selector classification and the acceptance of a value table.
- A tracked function `F` is modelled by its path string. Its evaluator is a given function, or the vector of its values on the samples (its dual). Lambda closures cannot be compared, so they are named by the paths they carry.
- Abstractions.Abstraction.AddPart: `Solver.make` followed by `build_solver_function` is a given function `solve` from the attempt number to the attempt's outcome. The outcome is a built part, a missing number, colour or grid function, or another error.
- Abstractions.Abstraction.AbstractNewPart: the sub-solver that finds a part selector for a type is a given function `find` from the type to an optional selector path.
- Abstractions.Abstraction.AbstractAllParts: the output abstractions, which the source makes by cloning the inputs (lib/Abstraction.ts:465), are a parameter. The copies handed to the solver in `add_part` (lib/Abstraction.ts:317-323) are not kept, since they change no tracked abstraction.
- Abstractions: sub-images are kept as an identity plus a type. Their own images, `clone`, `translate` and `compile` of the sub-images are left to the image algebra. `build_parts` closures are kept as a list of builder ids, and `build` and `build_solver_function` are not modelled.
- Selectors and getters of an abstraction are evaluated by given functions: `holds` of the arguments held, the parts picked so far and the sub-images left, and `eval` of the parts. The other fields of `this` that a selector could read through `F.f(this, index)`, such as the black box, are not passed to it.
- Rasterizers.Rasterizer: the `image` field and `learn_rasterization`, `learn_layer` and `compute_tile_function` are not modelled. `learn_rasterization` returns before its body, and the others depend on the asynchronous solver. The tile functions are given to the constructor as functions from a tile to a colour. The source's function receives the rasterizer and the tile's index; the model's receives the tile itself.
- Rasterizers.Rasterizer.KeyDetermines: a tile's key string is kept as the pair (coordinate, data). The string `coord:data` has the same meaning for tiles of one rasterizer, since it names one tile there.
- Abstractions.FleshEach: requires the abstractions it fleshes to be distinct objects, as the samples and their clones are; a list naming one object twice is not modelled.
- Abstractions.Abstraction.FleshAll: requires the abstractions it fleshes to be distinct objects, as the samples and their clones are; a list naming one object twice is not modelled.
- Abstractions.Abstraction.FleshEverything: requires the abstractions it fleshes to be distinct objects, as the samples and their clones are; a list naming one object twice is not modelled.
- Abstractions.Abstraction.AddPart: requires the abstractions it fleshes to be distinct objects, as the samples and their clones are; a list naming one object twice is not modelled.
- Abstractions.Abstraction.TryAttempt: requires the abstractions it fleshes to be distinct objects, as the samples and their clones are; a list naming one object twice is not modelled.
- Abstractions.Abstraction.AbstractNewPart: requires the abstractions it fleshes to be distinct objects, as the samples and their clones are; a list naming one object twice is not modelled.
- Abstractions.Abstraction.AbstractAllParts: requires the abstractions it fleshes to be distinct objects, as the samples and their clones are; a list naming one object twice is not modelled.
- Abstractions.Abstraction.AbstractNewParts: requires the abstractions it fleshes to be distinct objects, as the samples and their clones are; a list naming one object twice is not modelled.
- Abstractions.Abstraction.FleshEverything and Abstractions.FleshEach: the source stops at the first abstraction that fails to flesh; on failure the model promises nothing about the states of the abstractions after the failing one.
- Tiles.Target: its `None` result stands for the TypeError that `output_grid!.at` raises without an output grid.
- Grids.Grid.FromRows: copies the rows into a fresh array, where `from_grid` keeps the caller's array (lib/Grid.ts:216), so later writes to the grid do not show through the caller's rows. On an empty row list it builds a grid with no rows, where the source throws a TypeError reading `grid[0].length` (lib/Grid.ts:215).
- Grids.Grid.DrawInfiniteLine: with a zero step and a start inside the grid the source recurses until the stack overflows; the model paints the start once and reports `overflow` instead.
- ImageRasters.ScaleSample: models the intended read of a `Scale` child at the centre of a child cell, not the read at the cell's corner that lib/ConcreteImage.ts:891 and 902 perform; the corner read is `ImageRasters.ScaleReadsCorner` (see Findings).
- ImageRasters.ScaleGridSample: models the intended read of a `Scale` child at the centre of a child cell, not the read at the cell's corner that lib/ConcreteImage.ts:891 and 902 perform; the corner read is `ImageRasters.ScaleReadsCorner` (see Findings).
- ImageRasters.ScaleReadCentre: models the intended read of a `Scale` child at the centre of a child cell, not the read at the cell's corner that lib/ConcreteImage.ts:891 and 902 perform; the corner read is `ImageRasters.ScaleReadsCorner` (see Findings).
- ImageRasters.ScaleCell: models the intended read of a `Scale` child at the centre of a child cell, not the read at the cell's corner that lib/ConcreteImage.ts:891 and 902 perform; the corner read is `ImageRasters.ScaleReadsCorner` (see Findings).
- ImageRasters.ScaleRasterCell: models the intended read of a `Scale` child at the centre of a child cell, not the read at the cell's corner that lib/ConcreteImage.ts:891 and 902 perform; the corner read is `ImageRasters.ScaleReadsCorner` (see Findings).
- ImageRasters.ScaleRaster: models the intended read of a `Scale` child at the centre of a child cell, not the read at the cell's corner that lib/ConcreteImage.ts:891 and 902 perform; the corner read is `ImageRasters.ScaleReadsCorner` (see Findings).
- ImageRasters.ScaleGridBlock: models the intended read of a `Scale` child at the centre of a child cell, not the read at the cell's corner that lib/ConcreteImage.ts:891 and 902 perform; the corner read is `ImageRasters.ScaleReadsCorner` (see Findings).
- ImageRasters.ScaleGridBlockSample: models the intended read of a `Scale` child at the centre of a child cell, not the read at the cell's corner that lib/ConcreteImage.ts:891 and 902 perform; the corner read is `ImageRasters.ScaleReadsCorner` (see Findings).
- ImageRasters.ScaleGridCell: models the intended read of a `Scale` child at the centre of a child cell, not the read at the cell's corner that lib/ConcreteImage.ts:891 and 902 perform; the corner read is `ImageRasters.ScaleReadsCorner` (see Findings).
- ImageRasters.ScaleGridRasterCell: models the intended read of a `Scale` child at the centre of a child cell, not the read at the cell's corner that lib/ConcreteImage.ts:891 and 902 perform; the corner read is `ImageRasters.ScaleReadsCorner` (see Findings).
- ImageRasters.ScaleGridRaster: models the intended read of a `Scale` child at the centre of a child cell, not the read at the cell's corner that lib/ConcreteImage.ts:891 and 902 perform; the corner read is `ImageRasters.ScaleReadsCorner` (see Findings).
- Rasterizers.Rasterizer.RasterizeLayer: the worklist loop has no measure that shows it ends, so it runs at most `fuel` rounds over the worklist. A run that would need more rounds is cut short.
- Rasterizers.Rasterizer.RasterizeLayer: once a visit draws, the later visits are pinned only to their coordinates (during the first pass) and to the layer's tile list, not to the tile their cell holds at that moment; `Visit` states that for each single visit, but the whole-layer contract does not carry it through the drawing. The error count is stated over those visits.
- Rasterizers.Rasterizer.VisitRound: after the first visit of a pass that draws, each later visit is pinned only to its coordinate and to the layer's tile list, for the same reason.
- Rasterizers.Rasterizer.Rasterize: passes its `fuel` to every layer, with the same cut-off.
- SolverClassify.GroupCounts: requires the samples' first indices in non-decreasing order, which is how samples are listed. With an index lower than the current group, the source's inner `while` would never end.
- Grids.Grid.DrawPerimeter: requires a grid with both sides positive, or an empty row list with height at most 2. On other shapes the source reads or grows rows that do not exist.
- Decomposers: `trim_object_center`, `centered` and `pixel_grid` are not followed (the run reports `Unmodelled`), because they produce half-cell coordinates. A child whose compiled bounds are not whole cells is not followed either. `block_list` takes the grid's block list as a given parameter.
- Decomposers.MasterGridRun: a missing `sx` or `sy`, or one at or below 0, is not followed (the run reports `Unmodelled`). On these inputs the source divides by zero or by `undefined`: `sx = 0` on a grid of positive width gives a cell width of `Infinity`, so the loops make one cell from (0, 0) over the whole grid and stop (lib/Decomposers.ts:338, 345-347); a missing size makes one pass with `NaN` bounds; a negative size makes the cell width negative, and the loops at lib/Decomposers.ts:345-346 never end.
- Decomposers.MasterGrid2Run: a missing `nx` or `ny`, or a negative one, is not followed (the run reports `Unmodelled`). On a missing size the source makes one cell with `NaN` bounds and stops, since `y0 += undefined` gives `NaN`; on a negative size the loops at lib/Decomposers.ts:361-362 never end.
- ConcreteImages: the infinite `ImageTransformation` modes (tile, ping-pong, the rotations with infinite bounds), `Pixel` and `SolidColor` compile (half-cell or infinite bounds), Translation's 'center' anchor and `Scale.translate` involve fractions or infinities and are not modelled. The 'center' branch for y reads `x` (lib/ConcreteImage.ts:1011); this is not modelled for the same reason.
- ConcreteImages: the `key` strings of images are not modelled; `recur_images` is.
- Grid stubs `findConnectedRegion`, `surrounding` and `count_holes` return empty results and are not modelled. `Grid.divide` is not modelled; its y loop runs to the width (lib/Grid.ts:562).
- `(nf2[0] | nf2[0])` at lib/Solver.ts:1539 and 1555 and the map read at lib/Solver.ts:1552 belong to the generator chains, which are not modelled.
- The ratio check in `enum_number_functions` (lib/Solver.ts:2249) is floating point and is not modelled. The fractional `ImageData` tags of the master-grid decomposers are exact reals, with `NaN` and the infinities for a division by zero; floating-point rounding is not modelled.
- SolverClassify: in `enum_mapping_functions`, the bound `0.7 * samples_count` (lib/Solver.ts:1907) is compared in integers as `10 * size < 7 * samples_count`, which is the same test.
- TableAnalysis: the values of the generic number functions on the samples are a given parameter, since computing them needs the live solver. The partial table left behind when `init` throws is not kept; the model reports the throw.
- TableSearch: the discovery of potential inputs (lib/TableAnalyser.ts:298-337) and the first branch of `enum_functions`, which returns the output column's own function, are not modelled. The search starts from a given list of potential inputs.
- TableFunctions: the string `compute_source` of a built function is not modelled. A null output at the row left is the function's `undefined` result.
- Abstractions.GroupKinds: the map from each type to its list of sub-images is kept as a map from each type to the list's length, which is all the source reads of it.
- Colors: JavaScript `undefined` read from a grid or a list is the sentinel `Colors.Undefined` (-2), a value no colour takes.
- GridValues.MapColors and the other whole-grid colour maps are stated through the `Grid` methods that use them.

## Findings

| source | as written | input that shows it | evidently intended | confidence | as-written member | corrected member |
|---|---|---|---|---|---|---|
| lib/Solver.ts:216-218 | `operator_v` builds its name and path as `(` followed by the operands joined by the operator, with no closing `)` | `operator_v('&&', ...)` over the paths `@a` and `@b` gives `(@a && @b` | `(@a && @b)`, the path the binary `operator` writes for the same two operands | high; not executed | SolverPaths.OperatorVUnclosed | SolverPaths.ClosedOperatorV |
| lib/TableAnalyser.ts:409-410 | the guard `max_count-- > 500`, with `max_count` starting at 10000, throws 'Table analysis failed!' at the first combined candidate that passes the subset check | two potential inputs that are each 'incomplete' alone | throw only once the budget is spent, that is, when the count has dropped to 500 after 9500 candidates (`max_count-- <= 500`) | high; not executed | TableSearch.AsWrittenThrows | TableSearch.CorrectedBudget |
| lib/ConcreteImage.ts:891 | `Scale` without a grid colour reads its child at `child.x0 + floor((x - child.x0) / scale)`, a whole point, which is the corner of a child cell rather than its centre; the grid branch at line 902 does the same | `Scale(1, flip_x(BasicImage([1, 2], 2)))`: the flipped child spans x from -2 to 0; the first cell reads it at the point (-2, 0), which the flip sends to (2, 0), just outside the basic image, so it draws black where the flipped image shows 2 | read the child at the centre of the child cell, so that a scaled image draws each child cell as a block | medium; not executed | ImageRasters.ScaleReadsCorner | ImageRasters.ScaleRaster |
