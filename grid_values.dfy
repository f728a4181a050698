/**
 * The value of a colour grid (lib/Grid.ts): a width, a height and rows of
 * cells, read as `rows[y][x]`. The operations of the grid class are
 * specified by the functions of this module.
 */
module GridValues {
  import opened Colors

  datatype RasterData = RasterData(width: nat, height: nat, rows: seq<seq<Color>>)

  predicate WellFormed(d: RasterData)
  {
    |d.rows| == d.height && forall y :: 0 <= y < |d.rows| ==> |d.rows[y]| == d.width
  }

  /** A grid value: `height` rows of `width` cells each. */
  type Raster = d: RasterData | WellFormed(d) witness RasterData(0, 0, [])

  predicate Inside(r: Raster, x: int, y: int)
  {
    0 <= x < r.width && 0 <= y < r.height
  }

  /** `at`: the stored colour inside the grid, `undefined` outside it. */
  function At(r: Raster, x: int, y: int): Color
  {
    if Inside(r, x, y) then r.rows[y][x] else Undefined
  }

  /** The grid of the given size whose cell (x, y) is `f(x, y)`. */
  function FromFunction(w: nat, h: nat, f: (int, int) -> Color): (r: Raster)
    ensures r.width == w && r.height == h
    ensures forall x, y :: Inside(r, x, y) ==> At(r, x, y) == f(x, y)
  {
    RasterData(w, h, seq(h, y => seq(w, x => f(x, y))))
  }

  /** The grid of the given size filled with one colour. */
  function Filled(w: nat, h: nat, c: Color): (r: Raster)
    ensures r.width == w && r.height == h
    ensures forall x, y :: Inside(r, x, y) ==> At(r, x, y) == c
  {
    FromFunction(w, h, (x, y) => c)
  }

  /** Two grids of the same size with the same cells are the same value. */
  lemma Extensionality(a: Raster, b: Raster)
    requires a.width == b.width && a.height == b.height
    requires forall x, y :: Inside(a, x, y) ==> At(a, x, y) == At(b, x, y)
    ensures a == b
  {
    forall y | 0 <= y < a.height
      ensures a.rows[y] == b.rows[y]
    {
      forall x | 0 <= x < a.width
        ensures a.rows[y][x] == b.rows[y][x]
      {
        assert At(a, x, y) == At(b, x, y);
      }
    }
  }

  /** `set`: writes one cell; outside the grid nothing changes. */
  function SetCell(r: Raster, x: int, y: int, c: Color): (s: Raster)
    ensures s.width == r.width && s.height == r.height
  {
    if Inside(r, x, y) then RasterData(r.width, r.height, r.rows[y := r.rows[y][x := c]]) else r
  }

  /** After `set`, `at` reads the written colour at that cell and the old colour everywhere else. */
  lemma SetThenAt(r: Raster, x: int, y: int, c: Color, a: int, b: int)
    ensures At(SetCell(r, x, y, c), a, b) == if a == x && b == y && Inside(r, x, y) then c else At(r, a, b)
  {
  }

  /**
   * `subgrid`: the window [x0, x1) x [y0, y1) read cell by cell. The rows
   * must exist; a column outside the grid reads `undefined`.
   */
  function Sub(r: Raster, x0: int, y0: int, x1: int, y1: int): (s: Raster)
    requires 0 <= y0 <= y1 <= r.height && x0 <= x1
    ensures s.width == x1 - x0 && s.height == y1 - y0
    ensures forall i, j :: Inside(s, i, j) ==> At(s, i, j) == At(r, x0 + i, y0 + j)
  {
    FromFunction(x1 - x0, y1 - y0, (i, j) => At(r, x0 + i, y0 + j))
  }

  /** The whole-grid window is the grid itself. */
  lemma SubWhole(r: Raster)
    ensures Sub(r, 0, 0, r.width, r.height) == r
  {
    Extensionality(Sub(r, 0, 0, r.width, r.height), r);
  }

  /** A window of a window is a window of the grid. */
  lemma SubOfSub(r: Raster, x0: int, y0: int, x1: int, y1: int, a0: int, b0: int, a1: int, b1: int)
    requires 0 <= y0 <= y1 <= r.height && x0 <= x1
    requires 0 <= b0 <= b1 <= y1 - y0 && 0 <= a0 <= a1 <= x1 - x0
    ensures Sub(Sub(r, x0, y0, x1, y1), a0, b0, a1, b1) == Sub(r, x0 + a0, y0 + b0, x0 + a1, y0 + b1)
  {
    Extensionality(Sub(Sub(r, x0, y0, x1, y1), a0, b0, a1, b1), Sub(r, x0 + a0, y0 + b0, x0 + a1, y0 + b1));
  }

  /** `is_solid_color`: every cell equals the cell at (0, 0) (vacuously true for an empty grid). */
  predicate IsSolid(r: Raster)
  {
    forall x, y :: 0 <= x < r.width && 0 <= y < r.height ==> At(r, x, y) == At(r, 0, 0)
  }

  /** A colour `colors(background)` keeps: defined and not the background (pass `undefined` for none). */
  predicate Listed(c: Color, background: Color)
  {
    c != Undefined && c != background
  }

  /** The listed colours among the first `n` cells of row y. */
  function RowColors(r: Raster, background: Color, y: int, n: nat): set<Color>
  {
    if n == 0 then {}
    else RowColors(r, background, y, n - 1) + (if Listed(At(r, n - 1, y), background) then {At(r, n - 1, y)} else {})
  }

  /** The listed colours of the first `k` rows. */
  function RowsColors(r: Raster, background: Color, k: nat): set<Color>
  {
    if k == 0 then {}
    else RowsColors(r, background, k - 1) + RowColors(r, background, k - 1, r.width)
  }

  /** `colors(background)`: the defined colours of the grid other than the background. */
  function ColorsOf(r: Raster, background: Color): set<Color>
  {
    RowsColors(r, background, r.height)
  }

  lemma {:induction false} RowColorsMembers(r: Raster, background: Color, y: int, n: nat, c: Color)
    ensures c in RowColors(r, background, y, n) <==> Listed(c, background) && exists x :: 0 <= x < n && At(r, x, y) == c
  {
    if n > 0 {
      RowColorsMembers(r, background, y, n - 1, c);
      if c in RowColors(r, background, y, n - 1) {
        var x :| 0 <= x < n - 1 && At(r, x, y) == c;
        assert 0 <= x < n;
      }
    }
  }

  lemma {:induction false} RowsColorsMembers(r: Raster, background: Color, k: nat, c: Color)
    ensures c in RowsColors(r, background, k) <==>
      Listed(c, background) && exists x, y :: 0 <= x < r.width && 0 <= y < k && At(r, x, y) == c
  {
    if k > 0 {
      RowsColorsMembers(r, background, k - 1, c);
      RowColorsMembers(r, background, k - 1, r.width, c);
      if c in RowsColors(r, background, k - 1) {
        var x, y :| 0 <= x < r.width && 0 <= y < k - 1 && At(r, x, y) == c;
        assert 0 <= y < k;
      } else if c in RowColors(r, background, k - 1, r.width) {
        var x :| 0 <= x < r.width && At(r, x, k - 1) == c;
        assert 0 <= k - 1 < k;
      }
      if exists x, y :: 0 <= x < r.width && 0 <= y < k && At(r, x, y) == c {
        var x, y :| 0 <= x < r.width && 0 <= y < k && At(r, x, y) == c;
        if y == k - 1 {
          assert exists x :: 0 <= x < r.width && At(r, x, y) == c;
        } else {
          assert exists x, y :: 0 <= x < r.width && 0 <= y < k - 1 && At(r, x, y) == c;
        }
      }
    }
  }

  /** A colour is listed exactly when some cell holds it and it is neither undefined nor the background. */
  lemma ColorsOfMembers(r: Raster, background: Color, c: Color)
    ensures c in ColorsOf(r, background) <==>
      c != Undefined && c != background && exists x, y :: Inside(r, x, y) && At(r, x, y) == c
  {
    RowsColorsMembers(r, background, r.height, c);
  }

  /** `map_colors`: every defined cell mapped, `undefined` kept. */
  function MapColors(r: Raster, mapping: Color -> Color): (s: Raster)
    ensures s.width == r.width && s.height == r.height
  {
    FromFunction(r.width, r.height, (x, y) => if At(r, x, y) == Undefined then Undefined else mapping(At(r, x, y)))
  }

  /** `complement`: true where the cell is false (black), black everywhere else. */
  function Complement(r: Raster): (s: Raster)
    ensures s.width == r.width && s.height == r.height
  {
    FromFunction(r.width, r.height, (x, y) => if At(r, x, y) == False then True else Black)
  }

  /** `erase(grid)`: black wherever `mask` does not read black (outside `mask` it reads `undefined`). */
  function Erased(r: Raster, mask: Raster): (s: Raster)
    ensures s.width == r.width && s.height == r.height
  {
    FromFunction(r.width, r.height, (x, y) => if At(mask, x, y) != Black then Black else At(r, x, y))
  }

  /** `draw_box`: `color` on the cells of [x0, x1) x [y0, y1), the rest unchanged. */
  function Boxed(r: Raster, x0: int, y0: int, x1: int, y1: int, color: Color): (s: Raster)
    ensures s.width == r.width && s.height == r.height
  {
    FromFunction(r.width, r.height, (x, y) => if x0 <= x < x1 && y0 <= y < y1 then color else At(r, x, y))
  }

  /** On a boolean grid, `complement` turns each cell holding the colour of b into the colour of !b. */
  lemma ComplementSwapsBool(r: Raster, x: int, y: int, b: bool)
    requires Inside(r, x, y) && At(r, x, y) == ColorOfBool(b)
    ensures At(Complement(r), x, y) == ColorOfBool(!b)
  {
  }

  /** Complementing a boolean grid twice gives it back. */
  lemma ComplementInvolutive(r: Raster)
    requires forall x, y :: Inside(r, x, y) ==> At(r, x, y) == False || At(r, x, y) == True
    ensures Complement(Complement(r)) == r
  {
    Extensionality(Complement(Complement(r)), r);
  }

  /** Number of cells passing `test`, scanning row by row. */
  function CountRows(r: Raster, test: Color -> bool, rowsDone: nat): nat
    requires rowsDone <= r.height
  {
    if rowsDone == 0 then 0 else CountRows(r, test, rowsDone - 1) + CountRow(r, test, rowsDone - 1, r.width)
  }

  /** Number of cells among the first `n` of row `y` passing `test`. */
  function CountRow(r: Raster, test: Color -> bool, y: int, n: nat): nat
    requires n <= r.width
  {
    if n == 0 then 0 else CountRow(r, test, y, n - 1) + (if test(At(r, n - 1, y)) then 1 else 0)
  }

  /** `count(test)`: the number of cells passing `test`. */
  function Count(r: Raster, test: Color -> bool): nat
  {
    CountRows(r, test, r.height)
  }

  lemma {:induction false} CountRowBound(r: Raster, test: Color -> bool, y: int, n: nat)
    requires n <= r.width
    ensures CountRow(r, test, y, n) <= n
    ensures CountRow(r, test, y, n) == n <==> forall x :: 0 <= x < n ==> test(At(r, x, y))
  {
    if n > 0 {
      CountRowBound(r, test, y, n - 1);
    }
  }

  lemma {:induction false} CountRowsBound(r: Raster, test: Color -> bool, k: nat)
    requires k <= r.height
    ensures CountRows(r, test, k) <= k * r.width
    ensures CountRows(r, test, k) == k * r.width <==>
      forall x, y :: 0 <= x < r.width && 0 <= y < k ==> test(At(r, x, y))
  {
    if k > 0 {
      CountRowsBound(r, test, k - 1);
      CountRowBound(r, test, k - 1, r.width);
      assert k * r.width == (k - 1) * r.width + r.width;
    }
  }

  /** `count` is at most the area, and reaches it exactly when every cell passes. */
  lemma CountIsAreaIffAll(r: Raster, test: Color -> bool)
    ensures Count(r, test) <= r.width * r.height
    ensures Count(r, test) == r.width * r.height <==> forall x, y :: Inside(r, x, y) ==> test(At(r, x, y))
  {
    CountRowsBound(r, test, r.height);
  }

  /**
   * `count_perimeter(test)`: the first and the last row, then the first and
   * the last column of the rows in between. A one-row grid has its row
   * counted twice, and a one-column grid its column.
   */
  function CountPerimeter(r: Raster, test: Color -> bool): nat
    requires r.height > 0 || r.width == 0
  {
    if r.height == 0 then 0
    else CountRow(r, test, 0, r.width) + CountRow(r, test, r.height - 1, r.width)
         + CountSides(r, test, if r.height >= 2 then r.height - 2 else 0)
  }

  /** The first and last columns of rows 1 .. k. */
  function CountSides(r: Raster, test: Color -> bool, k: nat): nat
  {
    if k == 0 then 0
    else CountSides(r, test, k - 1)
         + (if test(At(r, 0, k)) then 1 else 0) + (if test(LastColumnAt(r, k)) then 1 else 0)
  }

  /** The cell of row `y` in the last column. */
  function LastColumnAt(r: Raster, y: int): Color
  {
    At(r, r.width - 1, y)
  }

  lemma {:induction false} CountSidesZero(r: Raster, test: Color -> bool, k: nat)
    ensures CountSides(r, test, k) == 0 <==>
      (forall y :: 1 <= y <= k ==> !test(At(r, 0, y))) && (forall y :: 1 <= y <= k ==> !test(LastColumnAt(r, y)))
  {
    if k > 0 {
      CountSidesZero(r, test, k - 1);
    }
  }

  lemma {:induction false} CountRowZero(r: Raster, test: Color -> bool, y: int, n: nat)
    requires n <= r.width
    ensures CountRow(r, test, y, n) == 0 <==> forall x :: 0 <= x < n ==> !test(At(r, x, y))
  {
    if n > 0 {
      CountRowZero(r, test, y, n - 1);
    }
  }

  /** On the border of a grid: first or last row or column. */
  predicate OnBorder(r: Raster, x: int, y: int)
  {
    Inside(r, x, y) && (x == 0 || y == 0 || x == r.width - 1 || y == r.height - 1)
  }

  /** The perimeter count is zero exactly when no border cell passes the test. */
  lemma CountPerimeterZero(r: Raster, test: Color -> bool)
    requires r.height > 0 && r.width > 0
    ensures CountPerimeter(r, test) == 0 <==> forall x, y :: OnBorder(r, x, y) ==> !test(At(r, x, y))
  {
    var k := if r.height >= 2 then r.height - 2 else 0;
    CountRowZero(r, test, 0, r.width);
    CountRowZero(r, test, r.height - 1, r.width);
    CountSidesZero(r, test, k);
    if CountPerimeter(r, test) == 0 {
      forall x, y | OnBorder(r, x, y)
        ensures !test(At(r, x, y))
      {
        if y == 0 || y == r.height - 1 {
        } else if x == 0 {
          assert 1 <= y <= k;
        } else {
          assert 1 <= y <= k && LastColumnAt(r, y) == At(r, x, y);
        }
      }
    }
    if forall x, y :: OnBorder(r, x, y) ==> !test(At(r, x, y)) {
      assert forall x :: 0 <= x < r.width ==> OnBorder(r, x, 0) && OnBorder(r, x, r.height - 1);
      forall y | 1 <= y <= k
        ensures !test(At(r, 0, y)) && !test(LastColumnAt(r, y))
      {
        assert OnBorder(r, 0, y) && OnBorder(r, r.width - 1, y);
      }
    }
  }
}
