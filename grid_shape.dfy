/**
 * Value-level specifications of the shape queries of lib/Grid.ts:
 * `trim`, `is_semantic_box`/`get_semantic_box`, block scaling and `find_tile`.
 */
module GridShape {
  import opened Colors
  import opened GridValues
  import opened Wrappers

  // ---------------------------------------------------------------- trim

  /** `trim`'s row test: row y restricted to [x0, x1) is solid and its first cell is the background. */
  predicate RowBlank(r: Raster, bg: Color, x0: int, x1: int, y: int)
  {
    At(r, x0, y) == bg && forall x :: x0 <= x < x1 ==> At(r, x, y) == At(r, x0, y)
  }

  /** `trim`'s column test: column x restricted to [y0, y1) is solid and its first cell is the background. */
  predicate ColumnBlank(r: Raster, bg: Color, x: int, y0: int, y1: int)
  {
    At(r, x, y0) == bg && forall y :: y0 <= y < y1 ==> At(r, x, y) == At(r, x, y0)
  }

  /** The row test is `subgrid(x0, y, x1, y + 1).is_solid_color()` plus the first cell being the background. */
  lemma RowBlankIsSolidSub(r: Raster, bg: Color, x0: int, x1: int, y: int)
    requires 0 <= y < r.height && x0 <= x1
    ensures RowBlank(r, bg, x0, x1, y) <==> IsSolid(Sub(r, x0, y, x1, y + 1)) && At(r, x0, y) == bg
  {
    var s := Sub(r, x0, y, x1, y + 1);
    if x0 < x1 {
      assert At(s, 0, 0) == At(r, x0, y);
      if IsSolid(s) {
        forall x | x0 <= x < x1
          ensures At(r, x, y) == At(r, x0, y)
        {
          assert At(s, x - x0, 0) == At(s, 0, 0);
        }
      }
      if forall x :: x0 <= x < x1 ==> At(r, x, y) == At(r, x0, y) {
        forall a, b | 0 <= a < s.width && 0 <= b < s.height
          ensures At(s, a, b) == At(s, 0, 0)
        {
          assert At(s, a, b) == At(r, x0 + a, y);
        }
      }
    }
  }

  /** The column test is `subgrid(x, y0, x + 1, y1).is_solid_color()` plus the first cell being the background. */
  lemma ColumnBlankIsSolidSub(r: Raster, bg: Color, x: int, y0: int, y1: int)
    requires 0 <= y0 <= y1 <= r.height
    ensures ColumnBlank(r, bg, x, y0, y1) <==> IsSolid(Sub(r, x, y0, x + 1, y1)) && At(r, x, y0) == bg
  {
    var s := Sub(r, x, y0, x + 1, y1);
    if y0 < y1 {
      assert At(s, 0, 0) == At(r, x, y0);
      if IsSolid(s) {
        forall y | y0 <= y < y1
          ensures At(r, x, y) == At(r, x, y0)
        {
          assert At(s, 0, y - y0) == At(s, 0, 0);
        }
      }
      if forall y :: y0 <= y < y1 ==> At(r, x, y) == At(r, x, y0) {
        forall a, b | 0 <= a < s.width && 0 <= b < s.height
          ensures At(s, a, b) == At(s, 0, 0)
        {
          assert At(s, a, b) == At(r, x, y0 + b);
        }
      }
    }
  }

  /** First loop of `trim`: the top edge moves down over blank rows. */
  function TrimTop(r: Raster, bg: Color, y0: nat): (y: nat)
    requires y0 <= r.height
    ensures y0 <= y <= r.height
    ensures y < r.height ==> !RowBlank(r, bg, 0, r.width, y)
    decreases r.height - y0
  {
    if y0 < r.height && RowBlank(r, bg, 0, r.width, y0) then TrimTop(r, bg, y0 + 1) else y0
  }

  /** Second loop: the bottom edge moves up over blank rows, never past the top. */
  function TrimBottom(r: Raster, bg: Color, y0: nat, y1: nat): (y: nat)
    requires y0 <= y1 <= r.height
    ensures y0 <= y <= y1
    ensures y0 < y ==> !RowBlank(r, bg, 0, r.width, y - 1)
  {
    if y0 < y1 && RowBlank(r, bg, 0, r.width, y1 - 1) then TrimBottom(r, bg, y0, y1 - 1) else y1
  }

  /** Third loop: the left edge moves right over blank columns of the kept rows. */
  function TrimLeft(r: Raster, bg: Color, y0: nat, y1: nat, x0: nat): (x: nat)
    requires y0 <= y1 <= r.height && x0 <= r.width
    ensures x0 <= x <= r.width
    ensures x < r.width ==> !ColumnBlank(r, bg, x, y0, y1)
    decreases r.width - x0
  {
    if x0 < r.width && ColumnBlank(r, bg, x0, y0, y1) then TrimLeft(r, bg, y0, y1, x0 + 1) else x0
  }

  /** Fourth loop: the right edge moves left over blank columns, never past the left edge. */
  function TrimRight(r: Raster, bg: Color, y0: nat, y1: nat, x0: nat, x1: nat): (x: nat)
    requires y0 <= y1 <= r.height && x0 <= x1 <= r.width
    ensures x0 <= x <= x1
    ensures x0 < x ==> !ColumnBlank(r, bg, x - 1, y0, y1)
  {
    if x0 < x1 && ColumnBlank(r, bg, x1 - 1, y0, y1) then TrimRight(r, bg, y0, y1, x0, x1 - 1) else x1
  }

  /** One step of the second loop: a blank bottom row above the top edge is dropped. */
  lemma TrimBottomStep(r: Raster, bg: Color, y0: nat, y1: nat)
    requires y0 < y1 <= r.height && RowBlank(r, bg, 0, r.width, y1 - 1)
    ensures TrimBottom(r, bg, y0, y1) == TrimBottom(r, bg, y0, y1 - 1)
  {
  }

  /** The second loop ends where the edges meet or the row above the bottom edge is not blank. */
  lemma TrimBottomStops(r: Raster, bg: Color, y0: nat, y1: nat)
    requires y0 <= y1 <= r.height && !(y0 < y1 && RowBlank(r, bg, 0, r.width, y1 - 1))
    ensures TrimBottom(r, bg, y0, y1) == y1
  {
  }

  /** One step of the fourth loop: a blank right column right of the left edge is dropped. */
  lemma TrimRightStep(r: Raster, bg: Color, y0: nat, y1: nat, x0: nat, x1: nat)
    requires y0 <= y1 <= r.height && x0 < x1 <= r.width && ColumnBlank(r, bg, x1 - 1, y0, y1)
    ensures TrimRight(r, bg, y0, y1, x0, x1) == TrimRight(r, bg, y0, y1, x0, x1 - 1)
  {
  }

  /** The fourth loop ends where the edges meet or the column left of the right edge is not blank. */
  lemma TrimRightStops(r: Raster, bg: Color, y0: nat, y1: nat, x0: nat, x1: nat)
    requires y0 <= y1 <= r.height && x0 <= x1 <= r.width && !(x0 < x1 && ColumnBlank(r, bg, x1 - 1, y0, y1))
    ensures TrimRight(r, bg, y0, y1, x0, x1) == x1
  {
  }

  /** The result of `trim`: the kept window and its offset. */
  datatype Trimmed = Trimmed(grid: Raster, x: int, y: int)

  /** The window `trim` keeps, as (x0, y0, x1, y1). */
  function TrimWindow(r: Raster, bg: Color): (w: (nat, nat, nat, nat))
    ensures w.0 <= w.2 <= r.width && w.1 <= w.3 <= r.height
  {
    var y0 := TrimTop(r, bg, 0);
    var y1 := TrimBottom(r, bg, y0, r.height);
    var x0 := TrimLeft(r, bg, y0, y1, 0);
    var x1 := TrimRight(r, bg, y0, y1, x0, r.width);
    (x0, y0, x1, y1)
  }

  function TrimOf(r: Raster, bg: Color): Trimmed
  {
    var w := TrimWindow(r, bg);
    Trimmed(Sub(r, w.0, w.1, w.2, w.3), w.0, w.1)
  }

  lemma {:induction false} TrimTopBlank(r: Raster, bg: Color, y0: nat, y: int)
    requires y0 <= r.height && y0 <= y < TrimTop(r, bg, y0)
    ensures y < r.height && RowBlank(r, bg, 0, r.width, y)
    decreases r.height - y0
  {
    if y0 < y {
      TrimTopBlank(r, bg, y0 + 1, y);
    }
  }

  lemma {:induction false} TrimBottomBlank(r: Raster, bg: Color, y0: nat, y1: nat, y: int)
    requires y0 <= y1 <= r.height && TrimBottom(r, bg, y0, y1) <= y < y1
    ensures RowBlank(r, bg, 0, r.width, y)
  {
    if y < y1 - 1 {
      TrimBottomBlank(r, bg, y0, y1 - 1, y);
    }
  }

  lemma {:induction false} TrimLeftBlank(r: Raster, bg: Color, y0: nat, y1: nat, x0: nat, x: int)
    requires y0 <= y1 <= r.height && x0 <= r.width && x0 <= x < TrimLeft(r, bg, y0, y1, x0)
    ensures ColumnBlank(r, bg, x, y0, y1)
    decreases r.width - x0
  {
    if x0 < x {
      TrimLeftBlank(r, bg, y0, y1, x0 + 1, x);
    }
  }

  lemma {:induction false} TrimRightBlank(r: Raster, bg: Color, y0: nat, y1: nat, x0: nat, x1: nat, x: int)
    requires y0 <= y1 <= r.height && x0 <= x1 <= r.width && TrimRight(r, bg, y0, y1, x0, x1) <= x < x1
    ensures ColumnBlank(r, bg, x, y0, y1)
  {
    if x < x1 - 1 {
      TrimRightBlank(r, bg, y0, y1, x0, x1 - 1, x);
    }
  }

  /** Every cell `trim` strips holds the background colour. */
  lemma TrimStripsBackground(r: Raster, bg: Color, x: int, y: int)
    requires Inside(r, x, y)
    requires var w := TrimWindow(r, bg); !(w.0 <= x < w.2 && w.1 <= y < w.3)
    ensures At(r, x, y) == bg
  {
    var w := TrimWindow(r, bg);
    var y0 := TrimTop(r, bg, 0);
    var y1 := TrimBottom(r, bg, y0, r.height);
    var x0 := TrimLeft(r, bg, y0, y1, 0);
    if y < y0 {
      TrimTopBlank(r, bg, 0, y);
      
    } else if y >= y1 {
      TrimBottomBlank(r, bg, y0, r.height, y);
      
    } else if x < x0 {
      TrimLeftBlank(r, bg, y0, y1, 0, x);
      
    } else {
      TrimRightBlank(r, bg, y0, y1, x0, r.width, x);
      
    }
  }

  /** `trim` stops at the first row and column that is not blank: the kept border lines are not blank. */
  lemma TrimIsTight(r: Raster, bg: Color)
    ensures var w := TrimWindow(r, bg);
      w.1 < w.3 ==> !RowBlank(r, bg, 0, r.width, w.1) && !RowBlank(r, bg, 0, r.width, w.3 - 1)
    ensures var w := TrimWindow(r, bg);
      w.0 < w.2 ==> !ColumnBlank(r, bg, w.0, w.1, w.3) && !ColumnBlank(r, bg, w.2 - 1, w.1, w.3)
  {
  }

  /** A grid whose outer rows and columns are not blank comes back whole at offset (0, 0). */
  lemma TrimKeepsTightGrid(r: Raster, bg: Color)
    requires r.width > 0 && r.height > 0
    requires !RowBlank(r, bg, 0, r.width, 0) && !RowBlank(r, bg, 0, r.width, r.height - 1)
    requires !ColumnBlank(r, bg, 0, 0, r.height) && !ColumnBlank(r, bg, r.width - 1, 0, r.height)
    ensures TrimOf(r, bg) == Trimmed(r, 0, 0)
  {
    SubWhole(r);
  }

  // ------------------------------------------------------- semantic box

  /** `is_semantic_box`: at least 3 x 3, each edge solid apart from its corners, and a solid inside. */
  predicate IsSemanticBox(r: Raster)
  {
    r.width >= 3 && r.height >= 3
    && (forall x :: 2 <= x < r.width - 1 ==> At(r, x, 0) == At(r, 1, 0) && BottomAt(r, x) == BottomAt(r, 1))
    && (forall y :: 2 <= y < r.height - 1 ==> At(r, 0, y) == At(r, 0, 1) && LastColumnAt(r, y) == LastColumnAt(r, 1))
    && (forall x, y :: 1 <= x < r.width - 1 && 1 <= y < r.height - 1 ==> At(r, x, y) == At(r, 1, 1))
  }

  /** The cell of the last row in column x. */
  function BottomAt(r: Raster, x: int): Color
  {
    At(r, x, r.height - 1)
  }

  /** The coordinate of the source sampled for box coordinate k in 0..2: first, second or last. */
  function Pick(k: int, n: int): int
  {
    if k == 0 then 0 else if k == 1 then 1 else n - 1
  }

  /** The box coordinate standing for coordinate i of a side of length n. */
  function Squash(i: int, n: int): int
  {
    if i == 0 then 0 else if i == n - 1 then 2 else 1
  }

  /** `get_semantic_box`: the 3 x 3 grid of corners, edge samples and inside sample. */
  function SemanticBoxOf(r: Raster): (b: Raster)
    ensures b.width == 3 && b.height == 3
  {
    FromFunction(3, 3, (i, j) => At(r, Pick(i, r.width), Pick(j, r.height)))
  }

  /** The summary's rows, spelled out: the first, second and last cell of the first, second and last row. */
  lemma SemanticBoxRows(r: Raster)
    ensures SemanticBoxOf(r).rows == [
      [At(r, 0, 0), At(r, 1, 0), At(r, r.width - 1, 0)],
      [At(r, 0, 1), At(r, 1, 1), At(r, r.width - 1, 1)],
      [At(r, 0, r.height - 1), At(r, 1, r.height - 1), At(r, r.width - 1, r.height - 1)]]
  {
    var rows := SemanticBoxOf(r).rows;
    forall j | 0 <= j < 3
      ensures rows[j] == [At(r, 0, Pick(j, r.height)), At(r, 1, Pick(j, r.height)), At(r, r.width - 1, Pick(j, r.height))]
    {
      assert rows[j] == seq(3, i => At(r, Pick(i, r.width), Pick(j, r.height)));
    }
  }

  /** A box stretched back to w x h: corners, edges and inside repeated. */
  function Stretch(b: Raster, w: nat, h: nat): (s: Raster)
    ensures s.width == w && s.height == h
  {
    FromFunction(w, h, (x, y) => At(b, Squash(x, w), Squash(y, h)))
  }

  /** The stretched summary samples each cell's representative. */
  lemma StretchAt(r: Raster, x: int, y: int)
    requires Inside(r, x, y)
    ensures At(Stretch(SemanticBoxOf(r), r.width, r.height), x, y)
      == At(r, Pick(Squash(x, r.width), r.width), Pick(Squash(y, r.height), r.height))
  {
  }

  lemma SemanticBoxStretches(r: Raster)
    requires IsSemanticBox(r)
    ensures Stretch(SemanticBoxOf(r), r.width, r.height) == r
  {
    var s := Stretch(SemanticBoxOf(r), r.width, r.height);
    forall x, y | Inside(r, x, y)
      ensures At(s, x, y) == At(r, x, y)
    {
      StretchAt(r, x, y);
      if 1 <= x < r.width - 1 && y == r.height - 1 {
        assert BottomAt(r, x) == BottomAt(r, 1);
      } else if 1 <= y < r.height - 1 && x == r.width - 1 {
        assert LastColumnAt(r, y) == LastColumnAt(r, 1);
      }
    }
    Extensionality(s, r);
  }

  lemma StretchedIsSemanticBox(r: Raster)
    requires r.width >= 3 && r.height >= 3
    requires Stretch(SemanticBoxOf(r), r.width, r.height) == r
    ensures IsSemanticBox(r)
  {
    forall x | 2 <= x < r.width - 1
      ensures At(r, x, 0) == At(r, 1, 0) && BottomAt(r, x) == BottomAt(r, 1)
    {
      StretchAt(r, x, 0);
      StretchAt(r, x, r.height - 1);
      StretchAt(r, 1, r.height - 1);
    }
    forall y | 2 <= y < r.height - 1
      ensures At(r, 0, y) == At(r, 0, 1) && LastColumnAt(r, y) == LastColumnAt(r, 1)
    {
      StretchAt(r, 0, y);
      StretchAt(r, r.width - 1, y);
      StretchAt(r, r.width - 1, 1);
    }
    forall x, y | 1 <= x < r.width - 1 && 1 <= y < r.height - 1
      ensures At(r, x, y) == At(r, 1, 1)
    {
      StretchAt(r, x, y);
    }
  }

  /** A grid of at least 3 x 3 is a semantic box exactly when stretching its 3 x 3 summary gives it back. */
  lemma SemanticBoxRoundTrip(r: Raster)
    requires r.width >= 3 && r.height >= 3
    ensures IsSemanticBox(r) <==> Stretch(SemanticBoxOf(r), r.width, r.height) == r
  {
    if IsSemanticBox(r) {
      SemanticBoxStretches(r);
    }
    if Stretch(SemanticBoxOf(r), r.width, r.height) == r {
      StretchedIsSemanticBox(r);
    }
  }

  // ------------------------------------------------------------ scaling

  /** Multiplication by a non-negative factor is monotonic. */
  lemma MulMonotonic(a: int, b: int, n: int)
    requires a <= b && n >= 0
    ensures a * n <= b * n
  {
  }

  /** A coordinate inside block k of size n has block index k. */
  lemma DivOfBlock(a: int, k: int, n: int)
    requires n > 0 && k * n <= a < k * n + n
    ensures a / n == k
  {
    var q := a / n;
    if q < k {
      MulMonotonic(q + 1, k, n);
    } else if q > k {
      MulMonotonic(k + 1, q, n);
    }
  }

  /** First coordinate of the n-block holding a. */
  function BlockStart(a: int, n: int): int
    requires n > 0
  {
    (a / n) * n
  }

  /** `is_scaled_by(n)`: n divides both sides and every n x n block is one colour. */
  ghost predicate IsScaledBy(r: Raster, n: int)
  {
    n > 0 && r.width % n == 0 && r.height % n == 0
    && forall x, y :: Inside(r, x, y) ==> At(r, x, y) == At(r, BlockStart(x, n), BlockStart(y, n))
  }

  /** `inv_scale(s)`: one cell per s x s block, sampled at its top-left corner. */
  function InvScale(r: Raster, s: int): (g: Raster)
    requires s > 0
    ensures g.width == r.width / s && g.height == r.height / s
  {
    FromFunction(r.width / s, r.height / s, (x, y) => At(r, s * x, s * y))
  }

  /** The image `Scale` draws: every cell of g repeated as an s x s block. */
  function Upscale(g: Raster, s: int): (r: Raster)
    requires s > 0
    ensures r.width == g.width * s && r.height == g.height * s
  {
    FromFunction(g.width * s, g.height * s, (x, y) => At(g, x / s, y / s))
  }

  lemma UpscaleAt(g: Raster, s: int, x: int, y: int)
    requires s > 0 && 0 <= x < g.width * s && 0 <= y < g.height * s
    ensures 0 <= x / s < g.width && 0 <= y / s < g.height
    ensures At(Upscale(g, s), x, y) == At(g, x / s, y / s)
  {
    if x / s >= g.width {
      MulMonotonic(g.width, x / s, s);
    }
    if y / s >= g.height {
      MulMonotonic(g.height, y / s, s);
    }
  }

  /** The block start of x is a multiple of n at most x, in the same block. */
  lemma BlockStartFacts(x: int, n: int)
    requires x >= 0 && n > 0
    ensures 0 <= BlockStart(x, n) <= x < BlockStart(x, n) + n
    ensures BlockStart(x, n) / n == x / n && BlockStart(x, n) == n * (x / n)
  {
    DivOfBlock(BlockStart(x, n), x / n, n);
  }

  /** Every coordinate of block k starts at k n. */
  lemma BlockStartIn(a: int, k: int, n: int)
    requires n > 0 && k * n <= a < k * n + n
    ensures BlockStart(a, n) == k * n
  {
    DivOfBlock(a, k, n);
  }

  /** When n divides w, a block starting before w ends by w. */
  lemma NextBlockFits(k: int, n: int, w: int)
    requires n > 0 && w % n == 0 && k * n < w
    ensures k * n + n <= w
  {
    DivOfBlock(w, w / n, n);
    if k + 1 > w / n {
      MulMonotonic(w / n, k, n);
    } else {
      MulMonotonic(k + 1, w / n, n);
    }
  }

  /** Origin of block k when blocks have n cells. */
  function BlockAt(k: int, n: int): int
  {
    k * n
  }

  /** The next block starts n cells further on. */
  lemma BlockAtNext(k: int, n: int)
    ensures BlockAt(k + 1, n) == BlockAt(k, n) + n
  {
    assert (k + 1) * n == k * n + n;
  }

  /** Block (i, j) of size n is one colour. */
  predicate UniformBlock(r: Raster, n: int, i: int, j: int)
  {
    BlockUniform(r, BlockAt(i, n), BlockAt(j, n), n)
  }

  /** A coordinate below w lies in a block below w / n. */
  lemma BlockIndexBelow(x: int, n: int, w: int)
    requires n > 0 && w % n == 0 && 0 <= x < w
    ensures 0 <= x / n < w / n
  {
    DivOfBlock(w, w / n, n);
    if x / n >= w / n {
      MulMonotonic(w / n, x / n, n);
    }
  }

  /** Block k below w / n ends by w. */
  lemma BlockEndsBelow(k: int, n: int, w: int)
    requires n > 0 && w % n == 0 && 0 <= k < w / n
    ensures 0 <= k * n && k * n + n <= w
  {
    DivOfBlock(w, w / n, n);
    MulMonotonic(k + 1, w / n, n);
    MulMonotonic(0, k, n);
  }

  /** Every block of the column of blocks i is one colour. */
  predicate UniformColumn(r: Raster, n: int, i: int)
    requires n > 0
  {
    forall j :: 0 <= j < r.height / n ==> UniformBlock(r, n, i, j)
  }

  /** Every block of the first k columns of blocks is one colour. */
  predicate UniformUpTo(r: Raster, n: int, k: int)
    requires n > 0
  {
    forall i :: 0 <= i < k ==> UniformColumn(r, n, i)
  }

  /** Scaled by n means: every column of blocks of the n-partition is uniform. */
  lemma IsScaledByColumns(r: Raster, n: int)
    requires n > 0 && r.width % n == 0 && r.height % n == 0
    ensures IsScaledBy(r, n) <==> UniformUpTo(r, n, r.width / n)
  {
    IsScaledByBlocks(r, n);
    if UniformUpTo(r, n, r.width / n) {
      forall i, j | 0 <= i < r.width / n && 0 <= j < r.height / n
        ensures UniformBlock(r, n, i, j)
      {
        assert UniformColumn(r, n, i);
      }
    }
  }

  /** Scaled by n means: every block of the n-partition is one colour. */
  lemma IsScaledByBlocks(r: Raster, n: int)
    requires n > 0 && r.width % n == 0 && r.height % n == 0
    ensures IsScaledBy(r, n) <==>
      forall i, j :: 0 <= i < r.width / n && 0 <= j < r.height / n ==> UniformBlock(r, n, i, j)
  {
    if IsScaledBy(r, n) {
      forall i, j | 0 <= i < r.width / n && 0 <= j < r.height / n
        ensures UniformBlock(r, n, i, j)
      {
        BlockEndsBelow(i, n, r.width);
        BlockEndsBelow(j, n, r.height);
        forall a, b | BlockAt(i, n) <= a < BlockAt(i, n) + n && BlockAt(j, n) <= b < BlockAt(j, n) + n
          ensures At(r, a, b) == At(r, BlockAt(i, n), BlockAt(j, n))
        {
          BlockStartIn(a, i, n);
          BlockStartIn(b, j, n);
          assert Inside(r, a, b);
        }
      }
    }
    if forall i, j :: 0 <= i < r.width / n && 0 <= j < r.height / n ==> UniformBlock(r, n, i, j) {
      forall x, y | Inside(r, x, y)
        ensures At(r, x, y) == At(r, BlockStart(x, n), BlockStart(y, n))
      {
        BlockIndexBelow(x, n, r.width);
        BlockIndexBelow(y, n, r.height);
        BlockStartFacts(x, n);
        BlockStartFacts(y, n);
        assert UniformBlock(r, n, x / n, y / n);
      }
    }
  }

  /** Blowing a grid up by s gives a grid scaled by s. */
  lemma UpscaleIsScaled(g: Raster, s: int)
    requires s > 0
    ensures IsScaledBy(Upscale(g, s), s)
  {
    var r := Upscale(g, s);
    assert r.width % s == 0 && r.height % s == 0 by {
      DivOfBlock(g.width * s, g.width, s);
      DivOfBlock(g.height * s, g.height, s);
    }
    forall x, y | Inside(r, x, y)
      ensures At(r, x, y) == At(r, BlockStart(x, s), BlockStart(y, s))
    {
      BlockStartFacts(x, s);
      BlockStartFacts(y, s);
      UpscaleAt(g, s, x, y);
      UpscaleAt(g, s, BlockStart(x, s), BlockStart(y, s));
    }
  }

  /** `inv_scale` undoes blowing up. */
  lemma InvScaleOfUpscale(g: Raster, s: int)
    requires s > 0
    ensures InvScale(Upscale(g, s), s) == g
  {
    var r := InvScale(Upscale(g, s), s);
    assert r.width == g.width && r.height == g.height by {
      DivOfBlock(g.width * s, g.width, s);
      DivOfBlock(g.height * s, g.height, s);
    }
    forall x, y | Inside(g, x, y)
      ensures At(r, x, y) == At(g, x, y)
    {
      MulMonotonic(x + 1, g.width, s);
      MulMonotonic(y + 1, g.height, s);
      DivOfBlock(s * x, x, s);
      DivOfBlock(s * y, y, s);
      UpscaleAt(g, s, s * x, s * y);
    }
    Extensionality(r, g);
  }

  /** A grid scaled by s is its `inv_scale` blown up again: no information is lost. */
  lemma UpscaleOfInvScale(r: Raster, s: int)
    requires IsScaledBy(r, s)
    ensures Upscale(InvScale(r, s), s) == r
  {
    var g := InvScale(r, s);
    var u := Upscale(g, s);
    assert u.width == r.width && u.height == r.height by {
      DivOfBlock(r.width, r.width / s, s);
      DivOfBlock(r.height, r.height / s, s);
    }
    forall x, y | Inside(r, x, y)
      ensures At(u, x, y) == At(r, x, y)
    {
      UpscaleAt(g, s, x, y);
      BlockStartFacts(x, s);
      BlockStartFacts(y, s);
      assert At(g, x / s, y / s) == At(r, s * (x / s), s * (y / s));
    }
    Extensionality(u, r);
  }

  /** `get_scaling_factor` from divisor index i on: the first s = width / i with `is_scaled_by(s)`, else 1. */
  ghost function ScalingFrom(r: Raster, i: nat): (s: int)
    requires i >= 1
    ensures s == 1 || IsScaledBy(r, s)
    decreases r.width - i
  {
    if i >= r.width then 1
    else if r.width % i == 0 && IsScaledBy(r, r.width / i) then r.width / i
    else ScalingFrom(r, i + 1)
  }

  ghost function ScalingFactor(r: Raster): (s: int)
  {
    ScalingFrom(r, 1)
  }

  /** Dividing by a larger divisor gives a smaller quotient. */
  lemma DivAntitone(w: nat, i: int, j: int)
    requires 0 < i <= j
    ensures w / j <= w / i
  {
    if w / j > w / i {
      MulMonotonic(w / i + 1, w / j, i);
      MulMonotonic(i, j, w / j);
    }
  }

  lemma {:induction false} ScalingFromIsLargest(r: Raster, i: nat, j: int)
    requires 1 <= i <= j < r.width && r.width % j == 0 && IsScaledBy(r, r.width / j)
    ensures r.width / j <= ScalingFrom(r, i)
    decreases r.width - i
  {
    if r.width % i == 0 && IsScaledBy(r, r.width / i) {
      DivAntitone(r.width, i, j);
    } else if i < j {
      ScalingFromIsLargest(r, i + 1, j);
    }
  }

  /** The factor found is the largest `width / i` (i < width) by which the grid is scaled. */
  lemma ScalingFactorIsLargest(r: Raster, i: int)
    requires 1 <= i < r.width && r.width % i == 0 && IsScaledBy(r, r.width / i)
    ensures r.width / i <= ScalingFactor(r)
  {
    ScalingFromIsLargest(r, 1, i);
  }

  // ------------------------------------------------- scaling with a grid

  /** Origin of block i when blocks of n cells are separated by one grid line. */
  function Origin(i: int, n: int): int
  {
    i * (n + 1)
  }

  /** The next block starts n + 1 cells later. */
  lemma OriginNext(k: int, n: int)
    ensures Origin(k + 1, n) == Origin(k, n) + n + 1
  {
  }

  /** Later blocks start further right. */
  lemma OriginMonotonic(i: int, k: int, n: int)
    requires i <= k && n >= 0
    ensures Origin(i, n) <= Origin(k, n)
  {
    MulMonotonic(i, k, n + 1);
  }

  /** Blocks starting before `bound` come before the first block starting at or after it. */
  lemma OriginsBelow(k: int, n: int, bound: int)
    requires n >= 0 && Origin(k, n) >= bound
    ensures forall j :: 0 <= j && Origin(j, n) < bound ==> j < k
  {
    forall j | 0 <= j && Origin(j, n) < bound
      ensures j < k
    {
      if j >= k {
        OriginMonotonic(k, j, n);
      }
    }
  }

  /** The separator colour `is_scaled_with_grid_by(n)` expects: cell (n, 0), else (0, n), else `no_color`. */
  function GuessedGridColor(r: Raster, n: int): Color
  {
    if r.width > n then At(r, n, 0) else if r.height > n then At(r, 0, n) else NoColor
  }

  /** The n x n block at (x, y) is one colour. */
  predicate BlockUniform(r: Raster, x: int, y: int, n: int)
  {
    forall a, b :: x <= a < x + n && y <= b < y + n ==> At(r, a, b) == At(r, x, y)
  }

  /** Column x between rows y0 and y1 (excluded) is all `c`. */
  predicate ColumnIs(r: Raster, x: int, y0: int, y1: int, c: Color)
  {
    forall y :: y0 <= y < y1 ==> At(r, x, y) == c
  }

  /** Row y between columns x0 and x1 (excluded) is all `c`. */
  predicate RowIs(r: Raster, x0: int, x1: int, y: int, c: Color)
  {
    forall x :: x0 <= x < x1 ==> At(r, x, y) == c
  }

  /** The checks made for the block at (x, y): uniform, then its right, bottom and corner separators. */
  predicate GridBlockOk(r: Raster, n: int, gc: Color, x: int, y: int)
  {
    BlockUniform(r, x, y, n)
    && (x + n + 1 < r.width ==> ColumnIs(r, x + n, y, y + n, gc))
    && (y + n + 1 < r.height ==> RowIs(r, x, x + n, y + n, gc))
    && (x + n + 1 < r.width && y + n + 1 < r.height ==> At(r, x + n, y + n) == gc)
  }

  /** The checks for block (i, j), counted in blocks. */
  predicate GridBlockAt(r: Raster, n: int, gc: Color, i: int, j: int)
  {
    GridBlockOk(r, n, gc, Origin(i, n), Origin(j, n))
  }

  /** `is_scaled_with_grid_by(n)` succeeds: n + 1 divides both sides plus one and every block passes. */
  ghost predicate ScaledWithGrid(r: Raster, n: int)
    requires n >= 0
  {
    (r.width + 1) % (n + 1) == 0 && (r.height + 1) % (n + 1) == 0
    && forall i, j :: 0 <= i && 0 <= j && Origin(i, n) < r.width && Origin(j, n) < r.height ==>
         GridBlockAt(r, n, GuessedGridColor(r, n), i, j)
  }

  /** The result of `is_scaled_with_grid_by(n)`: the separator colour, or `no_color` on failure. */
  ghost function ScaledWithGridColor(r: Raster, n: int): Color
    requires n >= 0
  {
    if ScaledWithGrid(r, n) then GuessedGridColor(r, n) else NoColor
  }

  /** `inv_scale_width_grid(s)`: one cell per block, sampled at the block origin. */
  function InvScaleWithGrid(r: Raster, s: int): (g: Raster)
    requires s >= 0
    ensures g.width == (r.width + 1) / (s + 1) && g.height == (r.height + 1) / (s + 1)
  {
    FromFunction((r.width + 1) / (s + 1), (r.height + 1) / (s + 1), (x, y) => At(r, (s + 1) * x, (s + 1) * y))
  }

  /** The image `Scale` with a grid colour draws: s x s blocks separated by lines of `gc`. */
  function UpscaleWithGrid(g: Raster, s: int, gc: Color): (r: Raster)
    requires s >= 0 && g.width > 0 && g.height > 0
    ensures r.width == g.width * (s + 1) - 1 && r.height == g.height * (s + 1) - 1
  {
    FromFunction(g.width * (s + 1) - 1, g.height * (s + 1) - 1, (x, y) =>
      if x % (s + 1) == s || y % (s + 1) == s then gc else At(g, x / (s + 1), y / (s + 1)))
  }

  /** A multiple of n lies at the start of its block. */
  lemma ModOfMultiple(k: int, n: int)
    requires n > 0
    ensures (n * k) % n == 0 && (n * k) / n == k
  {
    DivOfBlock(n * k, k, n);
  }

  /** A block origin of the drawn image carries the cell of its block. */
  lemma UpscaleWithGridAtOrigin(g: Raster, s: int, gc: Color, x: int, y: int)
    requires s >= 1 && Inside(g, x, y)
    ensures At(UpscaleWithGrid(g, s, gc), (s + 1) * x, (s + 1) * y) == At(g, x, y)
  {
    var u := UpscaleWithGrid(g, s, gc);
    MulMonotonic(x + 1, g.width, s + 1);
    MulMonotonic(y + 1, g.height, s + 1);
    ModOfMultiple(x, s + 1);
    ModOfMultiple(y, s + 1);
    assert Inside(u, (s + 1) * x, (s + 1) * y);
  }

  /** `inv_scale_width_grid` undoes drawing with separators. */
  lemma InvScaleOfUpscaleWithGrid(g: Raster, s: int, gc: Color)
    requires s >= 1 && g.width > 0 && g.height > 0
    ensures InvScaleWithGrid(UpscaleWithGrid(g, s, gc), s) == g
  {
    var u := UpscaleWithGrid(g, s, gc);
    var r := InvScaleWithGrid(u, s);
    assert r.width == g.width by {
      ModOfMultiple(g.width, s + 1);
      assert u.width + 1 == (s + 1) * g.width;
    }
    assert r.height == g.height by {
      ModOfMultiple(g.height, s + 1);
      assert u.height + 1 == (s + 1) * g.height;
    }
    forall x, y | Inside(g, x, y)
      ensures At(r, x, y) == At(g, x, y)
    {
      UpscaleWithGridAtOrigin(g, s, gc, x, y);
    }
    Extensionality(r, g);
  }

  /** The scale tried for divisor i of width + 1. */
  function GridScaleOf(w: int, i: int): int
    requires i > 0
  {
    (w + 1) / i - 1
  }

  /** Divisors below the width give scales of at least 1. */
  lemma GridScalePositive(w: int, i: int)
    requires 1 <= i < w && (w + 1) % i == 0
    ensures GridScaleOf(w, i) >= 1
  {
    DivAntitone(w + 1, i, w);
    DivOfBlock(w + 1, 1, w);
    if (w + 1) / i == 1 {
      DivOfBlock(w + 1, 1, i);
    }
  }

  /**
   * `get_scaling_factor_with_grid_color` from divisor index i on: the first
   * scale whose check yields a colour; none when no divisor below the width works.
   */
  ghost function GridScalingFrom(r: Raster, i: nat): (res: Option<(int, Color)>)
    requires i >= 1
    ensures res.Some? ==>
      res.value.0 >= 0 && ScaledWithGrid(r, res.value.0)
      && res.value.1 == GuessedGridColor(r, res.value.0) && res.value.1 != NoColor
    ensures res.None? ==>
      forall k :: i <= k < r.width && (r.width + 1) % k == 0 ==> ScaledWithGridColor(r, GridScaleOf(r.width, k)) == NoColor
    decreases r.width - i
  {
    if i >= r.width then None
    else if (r.width + 1) % i == 0 && ScaledWithGridColor(r, GridScaleOf(r.width, i)) != NoColor
    then Some((GridScaleOf(r.width, i), ScaledWithGridColor(r, GridScaleOf(r.width, i))))
    else GridScalingFrom(r, i + 1)
  }

  // -------------------------------------------------------------- tiles

  /** Columns w apart agree wherever both exist. */
  predicate PeriodX(r: Raster, w: int)
  {
    forall x, y :: 0 <= x < r.width - w && 0 <= y < r.height ==> At(r, x, y) == At(r, x + w, y)
  }

  /** Rows h apart agree wherever both exist. */
  predicate PeriodY(r: Raster, h: int)
  {
    forall x, y :: 0 <= x < r.width && 0 <= y < r.height - h ==> At(r, x, y) == At(r, x, y + h)
  }

  /** `find_tile`'s width search from w on: the first period with 4w <= 3 width, else the width. */
  function TileWidthFrom(r: Raster, w: nat): (t: nat)
    ensures t == r.width || (w <= t && 4 * t <= 3 * r.width && PeriodX(r, t))
    ensures forall v :: w <= v < t && 4 * v <= 3 * r.width ==> !PeriodX(r, v)
    decreases r.width - w
  {
    if 4 * w > 3 * r.width then r.width
    else if PeriodX(r, w) then w
    else TileWidthFrom(r, w + 1)
  }

  /** `find_tile`'s height search from h on. */
  function TileHeightFrom(r: Raster, h: nat): (t: nat)
    ensures t == r.height || (h <= t && 4 * t <= 3 * r.height && PeriodY(r, t))
    ensures forall v :: h <= v < t && 4 * v <= 3 * r.height ==> !PeriodY(r, v)
    decreases r.height - h
  {
    if 4 * h > 3 * r.height then r.height
    else if PeriodY(r, h) then h
    else TileHeightFrom(r, h + 1)
  }

  /** `find_tile`: the top-left window of the least periods found. */
  function TileOf(r: Raster): Raster
  {
    Sub(r, 0, 0, TileWidthFrom(r, 1), TileHeightFrom(r, 1))
  }

  /** Stepping back by one period keeps the remainder. */
  lemma ModShift(x: int, w: int)
    requires w > 0
    ensures (x - w) % w == x % w
  {
    DivOfBlock(x - w, x / w - 1, w);
  }

  /** With a horizontal period w every column repeats the column x mod w. */
  lemma {:induction false} PeriodXRepeats(r: Raster, w: int, x: int, y: int)
    requires w > 0 && PeriodX(r, w) && Inside(r, x, y)
    ensures At(r, x, y) == At(r, x % w, y)
    decreases x
  {
    if x >= w {
      PeriodXRepeats(r, w, x - w, y);
      ModShift(x, w);
    } else {
      DivOfBlock(x, 0, w);
    }
  }

  /** With a vertical period h every row repeats the row y mod h. */
  lemma {:induction false} PeriodYRepeats(r: Raster, h: int, x: int, y: int)
    requires h > 0 && PeriodY(r, h) && Inside(r, x, y)
    ensures At(r, x, y) == At(r, x, y % h)
    decreases y
  {
    if y >= h {
      PeriodYRepeats(r, h, x, y - h);
      ModShift(y, h);
    } else {
      DivOfBlock(y, 0, h);
    }
  }

  /** Tiling the window `find_tile` returns reproduces the grid. */
  lemma TileRepeats(r: Raster, x: int, y: int)
    requires Inside(r, x, y)
    ensures var t := TileOf(r); t.width > 0 && t.height > 0 && At(r, x, y) == At(t, x % t.width, y % t.height)
  {
    var tw, th := TileWidthFrom(r, 1), TileHeightFrom(r, 1);
    assert PeriodX(r, tw);
    assert PeriodY(r, th);
    PeriodXRepeats(r, tw, x, y);
    PeriodYRepeats(r, th, x % tw, y);
  }
}
