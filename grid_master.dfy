/**
 * Value-level specification of `find_master_grid` (lib/Grid.ts): cutting a
 * grid into the cells left between full-length lines of one colour.
 */
module GridMaster {
  import opened Colors
  import opened GridValues

  /** One cell of a master grid: its top-left position and its contents. */
  datatype MasterCell = MasterCell(x: int, y: int, grid: Raster)

  /**
   * The result of `find_master_grid`: the cells in row-major order, the
   * separator colour (`undefined` when none was found) and the number of
   * cells per row of cells.
   */
  datatype MasterGrid = MasterGrid(cells: seq<MasterCell>, gridColor: Color, stride: int)

  /** `vertical_colors(x)`: the colours of column x. */
  function ColumnSet(r: Raster, x: int): set<Color>
  {
    set y | 0 <= y < r.height :: At(r, x, y)
  }

  /** `horizontal_colors(y)`: the colours of row y. */
  function RowSet(r: Raster, y: int): set<Color>
  {
    set x | 0 <= x < r.width :: At(r, x, y)
  }

  /** A line whose colour set is exactly `{c}`. */
  predicate IsLine(s: set<Color>, c: Color)
  {
    |s| == 1 && c in s
  }

  /** A one-element set has one member. */
  lemma SingletonMembers(s: set<Color>, a: Color, b: Color)
    requires |s| == 1 && a in s && b in s
    ensures a == b
  {
    assert |s - {a}| == 0;
  }

  /** Column x is a grid line of colour c exactly when it is non-empty and all c. */
  lemma ColumnLineMeans(r: Raster, x: int, c: Color)
    ensures IsLine(ColumnSet(r, x), c) <==> r.height > 0 && forall y :: 0 <= y < r.height ==> At(r, x, y) == c
  {
    var s := ColumnSet(r, x);
    if r.height > 0 && forall y :: 0 <= y < r.height ==> At(r, x, y) == c {
      assert At(r, x, 0) in s;
      assert s == {c};
    }
    if IsLine(s, c) {
      var y0 :| 0 <= y0 < r.height && At(r, x, y0) in s;
      forall y | 0 <= y < r.height
        ensures At(r, x, y) == c
      {
        assert At(r, x, y) in s;
        SingletonMembers(s, At(r, x, y), c);
      }
    }
  }

  /** Row y is a grid line of colour c exactly when it is non-empty and all c. */
  lemma RowLineMeans(r: Raster, y: int, c: Color)
    ensures IsLine(RowSet(r, y), c) <==> r.width > 0 && forall x :: 0 <= x < r.width ==> At(r, x, y) == c
  {
    var s := RowSet(r, y);
    if r.width > 0 && forall x :: 0 <= x < r.width ==> At(r, x, y) == c {
      assert At(r, 0, y) in s;
      assert s == {c};
    }
    if IsLine(s, c) {
      var x0 :| 0 <= x0 < r.width && At(r, x0, y) in s;
      forall x | 0 <= x < r.width
        ensures At(r, x, y) == c
      {
        assert At(r, x, y) in s;
        SingletonMembers(s, At(r, x, y), c);
      }
    }
  }

  // ------------------------------------------------------ candidate colours

  /** Insertion into a JavaScript `Set`: a colour already present keeps its place. */
  function AddNew(s: seq<Color>, c: Color): (t: seq<Color>)
    ensures forall d :: d in t <==> d in s || d == c
  {
    if c in s then s else s + [c]
  }

  /** The colours of the single-coloured columns among the first n, in first-seen order. */
  function ColumnCandidates(r: Raster, n: nat): seq<Color>
  {
    if n == 0 then []
    else
      var s := ColumnCandidates(r, n - 1);
      if |ColumnSet(r, n - 1)| == 1 then AddNew(s, At(r, n - 1, 0)) else s
  }

  /** `s0` followed by the colours of the single-coloured rows among the first n. */
  function RowCandidates(r: Raster, s0: seq<Color>, n: nat): seq<Color>
  {
    if n == 0 then s0
    else
      var s := RowCandidates(r, s0, n - 1);
      if |RowSet(r, n - 1)| == 1 then AddNew(s, At(r, 0, n - 1)) else s
  }

  /** The colours tried in turn: the default alone when one is given. */
  function Candidates(r: Raster, default: Color): seq<Color>
  {
    if default != Undefined then [default]
    else RowCandidates(r, ColumnCandidates(r, r.width), r.height)
  }

  /** Some column below n is a grid line of colour c. */
  ghost predicate SomeColumnLine(r: Raster, c: Color, n: int)
  {
    exists x :: 0 <= x < n && IsLine(ColumnSet(r, x), c)
  }

  /** Some row below n is a grid line of colour c. */
  ghost predicate SomeRowLine(r: Raster, c: Color, n: int)
  {
    exists y :: 0 <= y < n && IsLine(RowSet(r, y), c)
  }

  lemma {:induction false} ColumnCandidatesMembers(r: Raster, n: nat, c: Color)
    requires n <= r.width
    ensures c in ColumnCandidates(r, n) <==> SomeColumnLine(r, c, n)
  {
    if n > 0 {
      ColumnCandidatesMembers(r, n - 1, c);
      var s := ColumnSet(r, n - 1);
      if |s| == 1 {
        assert At(r, n - 1, 0) in s;
        if c in s {
          SingletonMembers(s, c, At(r, n - 1, 0));
        }
      }
      if SomeColumnLine(r, c, n) {
        var x :| 0 <= x < n && IsLine(ColumnSet(r, x), c);
        if x == n - 1 {
          assert At(r, n - 1, 0) in s;
          SingletonMembers(s, c, At(r, n - 1, 0));
        }
      }
    }
  }

  lemma {:induction false} RowCandidatesMembers(r: Raster, s0: seq<Color>, n: nat, c: Color)
    requires n <= r.height
    ensures c in RowCandidates(r, s0, n) <==> c in s0 || SomeRowLine(r, c, n)
  {
    if n > 0 {
      RowCandidatesMembers(r, s0, n - 1, c);
      var s := RowSet(r, n - 1);
      if |s| == 1 {
        assert At(r, 0, n - 1) in s;
        if c in s {
          SingletonMembers(s, c, At(r, 0, n - 1));
        }
      }
      if SomeRowLine(r, c, n) {
        var y :| 0 <= y < n && IsLine(RowSet(r, y), c);
        if y == n - 1 {
          assert At(r, 0, n - 1) in s;
          SingletonMembers(s, c, At(r, 0, n - 1));
        }
      }
    }
  }

  /** Without a default, the colours tried are exactly the colours of the full single-coloured lines. */
  lemma CandidatesAreLineColors(r: Raster, c: Color)
    ensures c in Candidates(r, Undefined) <==> SomeColumnLine(r, c, r.width) || SomeRowLine(r, c, r.height)
  {
    ColumnCandidatesMembers(r, r.width, c);
    RowCandidatesMembers(r, ColumnCandidates(r, r.width), r.height, c);
  }

  // ------------------------------------------------------------ grid lines

  /** The columns below n that are grid lines of colour c, in order. */
  function ColumnLinesTo(r: Raster, c: Color, n: nat): (s: seq<int>)
    ensures forall k :: 0 <= k < |s| ==> 0 <= s[k] < n && IsLine(ColumnSet(r, s[k]), c)
  {
    if n == 0 then []
    else ColumnLinesTo(r, c, n - 1) + (if IsLine(ColumnSet(r, n - 1), c) then [n - 1] else [])
  }

  /** The rows below n that are grid lines of colour c, in order. */
  function RowLinesTo(r: Raster, c: Color, n: nat): (s: seq<int>)
    ensures forall k :: 0 <= k < |s| ==> 0 <= s[k] < n && IsLine(RowSet(r, s[k]), c)
  {
    if n == 0 then []
    else RowLinesTo(r, c, n - 1) + (if IsLine(RowSet(r, n - 1), c) then [n - 1] else [])
  }

  /** `xs`: -1, the grid columns of colour c, then the width. */
  function Xs(r: Raster, c: Color): seq<int>
  {
    [-1] + ColumnLinesTo(r, c, r.width) + [r.width]
  }

  /** `ys`: -1, the grid rows of colour c, then the height. */
  function Ys(r: Raster, c: Color): seq<int>
  {
    [-1] + RowLinesTo(r, c, r.height) + [r.height]
  }

  /** Cut positions along x: the edges, and grid columns of colour c in between. */
  predicate ColumnLadder(r: Raster, c: Color, xs: seq<int>)
  {
    |xs| >= 2 && xs[0] == -1 && xs[|xs| - 1] == r.width
    && forall k :: 0 < k < |xs| - 1 ==> 0 <= xs[k] < r.width && IsLine(ColumnSet(r, xs[k]), c)
  }

  /** Cut positions along y: the edges, and grid rows of colour c in between. */
  predicate RowLadder(r: Raster, c: Color, ys: seq<int>)
  {
    |ys| >= 2 && ys[0] == -1 && ys[|ys| - 1] == r.height
    && forall k :: 0 < k < |ys| - 1 ==> 0 <= ys[k] < r.height && IsLine(RowSet(r, ys[k]), c)
  }

  lemma XsLadder(r: Raster, c: Color)
    ensures ColumnLadder(r, c, Xs(r, c))
  {
    var xs := Xs(r, c);
    var lines := ColumnLinesTo(r, c, r.width);
    forall k | 0 < k < |xs| - 1
      ensures 0 <= xs[k] < r.width && IsLine(ColumnSet(r, xs[k]), c)
    {
      assert xs[k] == lines[k - 1];
    }
  }

  lemma YsLadder(r: Raster, c: Color)
    ensures RowLadder(r, c, Ys(r, c))
  {
    var ys := Ys(r, c);
    var lines := RowLinesTo(r, c, r.height);
    forall k | 0 < k < |ys| - 1
      ensures 0 <= ys[k] < r.height && IsLine(RowSet(r, ys[k]), c)
    {
      assert ys[k] == lines[k - 1];
    }
  }

  // ----------------------------------------------------------------- cells

  /** The cells of the band [y0, y1) between the first i + 1 cuts of `xs`, left to right. */
  function BandTo(r: Raster, xs: seq<int>, y0: int, y1: int, i: nat): seq<MasterCell>
    requires i < |xs| && 0 <= y0 <= y1 <= r.height
  {
    if i == 0 then []
    else
      BandTo(r, xs, y0, y1, i - 1)
      + (if xs[i - 1] + 1 < xs[i] then [MasterCell(xs[i - 1] + 1, y0, Sub(r, xs[i - 1] + 1, y0, xs[i], y1))] else [])
  }

  /** Cut positions lie between -1 and the bound. */
  predicate Bounded(cuts: seq<int>, bound: int)
  {
    forall k :: 0 <= k < |cuts| ==> -1 <= cuts[k] <= bound
  }

  /** The cells of the bands between the first j + 1 cuts of `ys`, top to bottom. */
  function GridTo(r: Raster, xs: seq<int>, ys: seq<int>, j: nat): seq<MasterCell>
    requires |xs| >= 1 && j < |ys| && Bounded(ys, r.height)
  {
    if j == 0 then []
    else
      GridTo(r, xs, ys, j - 1)
      + (if ys[j - 1] + 1 < ys[j] then BandTo(r, xs, ys[j - 1] + 1, ys[j], |xs| - 1) else [])
  }

  /** The band between cuts j and j + 1 extends the cells, and sets the stride when it is not empty. */
  lemma GridToStep(r: Raster, xs: seq<int>, ys: seq<int>, j: nat)
    requires |xs| >= 1 && j + 1 < |ys| && Bounded(ys, r.height)
    ensures var band := if ys[j] + 1 < ys[j + 1] then BandTo(r, xs, ys[j] + 1, ys[j + 1], |xs| - 1) else [];
      GridTo(r, xs, ys, j + 1) == GridTo(r, xs, ys, j) + band
      && StrideTo(r, xs, ys, j + 1) == if ys[j] + 1 < ys[j + 1] then |band| else StrideTo(r, xs, ys, j)
  {
  }

  /** The cell count of the last non-empty band among the first j (0 when none). */
  function StrideTo(r: Raster, xs: seq<int>, ys: seq<int>, j: nat): int
    requires |xs| >= 1 && j < |ys| && Bounded(ys, r.height)
  {
    if j == 0 then 0
    else if ys[j - 1] + 1 < ys[j] then |BandTo(r, xs, ys[j - 1] + 1, ys[j], |xs| - 1)|
    else StrideTo(r, xs, ys, j - 1)
  }

  /** No cell holds colour c. */
  predicate Clean(cells: seq<MasterCell>, c: Color)
  {
    forall k :: 0 <= k < |cells| ==> c !in ColorsOf(cells[k].grid, Undefined)
  }

  lemma YsBounded(r: Raster, c: Color)
    ensures Bounded(Ys(r, c), r.height)
  {
    YsLadder(r, c);
  }

  /** The cells cut by the grid lines of colour c. */
  function MasterCells(r: Raster, c: Color): seq<MasterCell>
  {
    YsBounded(r, c);
    GridTo(r, Xs(r, c), Ys(r, c), |Ys(r, c)| - 1)
  }

  /** The stride of the cells cut by the grid lines of colour c. */
  function MasterStride(r: Raster, c: Color): int
  {
    YsBounded(r, c);
    StrideTo(r, Xs(r, c), Ys(r, c), |Ys(r, c)| - 1)
  }

  /** A single cell is clean exactly when its colours leave c out. */
  lemma CleanOne(m: MasterCell, c: Color)
    ensures Clean([m], c) <==> c !in ColorsOf(m.grid, Undefined)
  {
    assert [m][0] == m;
  }

  /** A sequence of cells is clean exactly when both parts are. */
  lemma CleanConcat(a: seq<MasterCell>, b: seq<MasterCell>, c: Color)
    ensures Clean(a + b, c) <==> Clean(a, c) && Clean(b, c)
  {
    if Clean(a, c) && Clean(b, c) {
      forall k | 0 <= k < |a + b|
        ensures c !in ColorsOf((a + b)[k].grid, Undefined)
      {
        if k >= |a| {
          assert (a + b)[k] == b[k - |a|];
        }
      }
    }
    if Clean(a + b, c) {
      forall k | 0 <= k < |a|
        ensures c !in ColorsOf(a[k].grid, Undefined)
      {
        assert (a + b)[k] == a[k];
      }
      forall k | 0 <= k < |b|
        ensures c !in ColorsOf(b[k].grid, Undefined)
      {
        assert (a + b)[|a| + k] == b[k];
      }
    }
  }

  /** A colour is kept when a default was given or no cell contains it. */
  predicate Accepted(r: Raster, c: Color, default: Color)
  {
    default != Undefined || Clean(MasterCells(r, c), c)
  }

  /** The first accepted candidate from index k on, else the whole grid as one cell. */
  function FirstAccepted(r: Raster, default: Color, candidates: seq<Color>, k: nat): MasterGrid
    decreases |candidates| - k
  {
    if k >= |candidates| then MasterGrid([MasterCell(0, 0, r)], Undefined, 1)
    else if Accepted(r, candidates[k], default) then MasterGrid(MasterCells(r, candidates[k]), candidates[k], MasterStride(r, candidates[k]))
    else FirstAccepted(r, default, candidates, k + 1)
  }

  /** `find_master_grid(default_grid_color)`, with `undefined` standing for no default. */
  function MasterGridOf(r: Raster, default: Color): MasterGrid
  {
    FirstAccepted(r, default, Candidates(r, default), 0)
  }

  // ------------------------------------------------------------ properties

  /** A cell is a window of the grid holding exactly the grid's cells there. */
  predicate Window(r: Raster, m: MasterCell)
  {
    0 <= m.x && m.x + m.grid.width <= r.width
    && 0 <= m.y && m.y + m.grid.height <= r.height
    && m.grid == Sub(r, m.x, m.y, m.x + m.grid.width, m.y + m.grid.height)
  }

  /** Left and right of the cell lie the grid's edge or a grid column of colour c. */
  predicate DelimitedX(r: Raster, c: Color, m: MasterCell)
  {
    (m.x == 0 || IsLine(ColumnSet(r, m.x - 1), c))
    && (m.x + m.grid.width == r.width || IsLine(ColumnSet(r, m.x + m.grid.width), c))
  }

  /** Above and below the cell lie the grid's edge or a grid row of colour c. */
  predicate DelimitedY(r: Raster, c: Color, m: MasterCell)
  {
    (m.y == 0 || IsLine(RowSet(r, m.y - 1), c))
    && (m.y + m.grid.height == r.height || IsLine(RowSet(r, m.y + m.grid.height), c))
  }

  lemma {:induction false} BandToCells(r: Raster, c: Color, xs: seq<int>, y0: int, y1: int, i: nat)
    requires ColumnLadder(r, c, xs) && i < |xs| && 0 <= y0 < y1 <= r.height
    ensures forall m :: m in BandTo(r, xs, y0, y1, i) ==> BandCell(r, c, y0, y1, m)
  {
    if i > 0 {
      BandToCells(r, c, xs, y0, y1, i - 1);
      if xs[i - 1] + 1 < xs[i] {
        CellBetween(r, c, xs, y0, y1, i);
      }
    }
  }

  /** A cell of the band from row y0 to row y1, delimited left and right. */
  predicate BandCell(r: Raster, c: Color, y0: int, y1: int, m: MasterCell)
  {
    Window(r, m) && DelimitedX(r, c, m) && m.y == y0 && m.y + m.grid.height == y1 && m.grid.width > 0
  }

  /** The cell between two consecutive column cuts, when they are not adjacent. */
  lemma CellBetween(r: Raster, c: Color, xs: seq<int>, y0: int, y1: int, i: nat)
    requires ColumnLadder(r, c, xs) && 0 < i < |xs| && xs[i - 1] + 1 < xs[i] && 0 <= y0 < y1 <= r.height
    ensures BandCell(r, c, y0, y1, MasterCell(xs[i - 1] + 1, y0, Sub(r, xs[i - 1] + 1, y0, xs[i], y1)))
  {
  }

  /** A band between two consecutive row cuts is bounded above and below by edges or grid rows. */
  lemma BandRowsDelimited(r: Raster, c: Color, ys: seq<int>, j: nat, m: MasterCell)
    requires RowLadder(r, c, ys) && 0 < j < |ys|
    requires m.y == ys[j - 1] + 1 && m.y + m.grid.height == ys[j]
    ensures DelimitedY(r, c, m)
  {
  }

  /** A window bounded on each side by the grid's edge or a grid line of colour c. */
  predicate Delimited(r: Raster, c: Color, m: MasterCell)
  {
    Window(r, m) && DelimitedX(r, c, m) && DelimitedY(r, c, m)
  }

  /** A cell cut by grid lines of colour c: a non-empty delimited window. */
  predicate CutCell(r: Raster, c: Color, m: MasterCell)
  {
    Delimited(r, c, m) && m.grid.width > 0 && m.grid.height > 0
  }

  lemma {:induction false} GridToCells(r: Raster, c: Color, xs: seq<int>, ys: seq<int>, j: nat)
    requires ColumnLadder(r, c, xs) && RowLadder(r, c, ys) && j < |ys|
    ensures forall m :: m in GridTo(r, xs, ys, j) ==> CutCell(r, c, m)
  {
    if j > 0 {
      GridToCells(r, c, xs, ys, j - 1);
      var prev := GridTo(r, xs, ys, j - 1);
      if ys[j - 1] + 1 < ys[j] {
        var band := BandTo(r, xs, ys[j - 1] + 1, ys[j], |xs| - 1);
        assert GridTo(r, xs, ys, j) == prev + band;
        BandToCells(r, c, xs, ys[j - 1] + 1, ys[j], |xs| - 1);
        forall m | m in band
          ensures CutCell(r, c, m)
        {
          BandRowsDelimited(r, c, ys, j, m);
        }
      } else {
        assert GridTo(r, xs, ys, j) == prev;
      }
    }
  }

  /** Every cell of g is delimited by g's separator colour. */
  predicate AllDelimited(r: Raster, g: MasterGrid)
  {
    forall m :: m in g.cells ==> Delimited(r, g.gridColor, m)
  }

  lemma {:induction false} FirstAcceptedCells(r: Raster, default: Color, candidates: seq<Color>, k: nat)
    ensures AllDelimited(r, FirstAccepted(r, default, candidates, k))
    decreases |candidates| - k
  {
    if k >= |candidates| {
      SubWhole(r);
    } else if Accepted(r, candidates[k], default) {
      XsLadder(r, candidates[k]);
      YsLadder(r, candidates[k]);
      GridToCells(r, candidates[k], Xs(r, candidates[k]), Ys(r, candidates[k]), |Ys(r, candidates[k])| - 1);
    } else {
      FirstAcceptedCells(r, default, candidates, k + 1);
    }
  }

  /**
   * Every cell of `find_master_grid` is a window of the grid bounded on each
   * side by the grid's edge or a full line of the separator colour.
   */
  lemma MasterCellsDelimited(r: Raster, default: Color)
    ensures AllDelimited(r, MasterGridOf(r, default))
  {
    FirstAcceptedCells(r, default, Candidates(r, default), 0);
  }

  lemma {:induction false} FirstAcceptedClean(r: Raster, candidates: seq<Color>, k: nat)
    ensures Clean(FirstAccepted(r, Undefined, candidates, k).cells, FirstAccepted(r, Undefined, candidates, k).gridColor)
    decreases |candidates| - k
  {
    if k >= |candidates| {
      ColorsOfMembers(r, Undefined, Undefined);
    } else if !Accepted(r, candidates[k], Undefined) {
      FirstAcceptedClean(r, candidates, k + 1);
    }
  }

  /** Without a default colour, no cell contains the separator colour found. */
  lemma MasterCellsAvoidGridColor(r: Raster)
    ensures Clean(MasterGridOf(r, Undefined).cells, MasterGridOf(r, Undefined).gridColor)
  {
    FirstAcceptedClean(r, Candidates(r, Undefined), 0);
  }

  /** A default colour is always used as the separator, whatever the cells contain. */
  lemma DefaultGridColorIsUsed(r: Raster, default: Color)
    requires default != Undefined
    ensures MasterGridOf(r, default).gridColor == default
    ensures MasterGridOf(r, default).cells == MasterCells(r, default)
  {
  }
}
