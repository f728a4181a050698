/**
 * `build_decomposer` of lib/Decomposers.ts: a decomposer description read
 * as a function from a grid to a concrete image.
 *
 * Running a decomposer either builds an image, throws, or reaches a case
 * this model does not follow (a fractional coordinate, a child that does
 * not compile, a loop that would not end); `Outcome` keeps the three apart.
 * `alternatives` writes `failed = true` into the description of each
 * branch that threw: a run collects those writes as paths into the
 * description, and `Marked` performs them.
 */
module Decomposers {
  import opened Wrappers
  import opened Colors
  import opened Transforms
  import opened GridValues
  import opened GridShape
  import opened GridMaster
  import opened GridScan
  import opened ConcreteImages
  import opened ImageRasters
  import opened Grids
  import M = Misc
  import D = DecomposersData

  // ------------------------------------------------------------ runs

  /** One step down a decomposer description: `decomposer`, `decomposer2` or `decomposers[index]`. */
  datatype Step = Down | Second | Item(index: nat)

  /** A node strictly below the one a run started from. */
  type Path = p: seq<Step> | |p| > 0 witness [Down]

  datatype Outcome<T> = Built(value: T) | Thrown(error: string) | Unmodelled

  /** What a run gives, and the nodes it marked `failed` on the way. */
  datatype Run<T> = Run(outcome: Outcome<T>, marks: set<Path>)

  /** A decomposer once built: `(grid: Grid) => ConcreteImage`. */
  type Worker = Raster -> Run<Image>

  const TypeError := "TypeError"

  function Pure<T>(v: T): Run<T>
  {
    Run(Built(v), {})
  }

  function Throw<T>(error: string): Run<T>
  {
    Run(Thrown(error), {})
  }

  function Skip<T>(): Run<T>
  {
    Run(Unmodelled, {})
  }

  /** A failed outcome at another type. */
  function Fail<T, U>(o: Outcome<T>): (f: Outcome<U>)
    requires !o.Built?
    ensures f.Thrown? <==> o.Thrown?
    ensures f.Thrown? ==> f.error == o.error
  {
    if o.Thrown? then Thrown(o.error) else Unmodelled
  }

  /** Continues a run whose value was built; a failure passes through. */
  function Then<T, U>(r: Run<T>, k: T -> Outcome<U>): Run<U>
  {
    Run(if r.outcome.Built? then k(r.outcome.value) else Fail(r.outcome), r.marks)
  }

  /** Continues a run with another run; the marks of both are kept. */
  function Bind<T, U>(r: Run<T>, k: T -> Run<U>): Run<U>
  {
    if r.outcome.Built? then
      var next := k(r.outcome.value);
      Run(next.outcome, r.marks + next.marks)
    else
      Run(Fail(r.outcome), r.marks)
  }

  /** The marks of a child's run, seen from its parent. */
  function Under(step: Step, marks: set<Path>): (r: set<Path>)
    ensures forall p :: p in marks ==> [step] + p in r
    ensures forall q :: q in r ==> |q| > 1 && q[0] == step
  {
    set p: Path | p in marks :: [step] + p
  }

  function Within<T>(step: Step, r: Run<T>): Run<T>
  {
    Run(r.outcome, Under(step, r.marks))
  }

  /** Runs `f` on each item in turn and stops at the first that does not build. */
  function Each<X>(f: X -> Run<Image>, xs: seq<X>): (r: Run<seq<Image>>)
    ensures r.outcome.Built? ==> |r.outcome.value| == |xs|
    decreases |xs|
  {
    if |xs| == 0 then Pure([])
    else
      var head := f(xs[0]);
      if !head.outcome.Built? then Run(Fail(head.outcome), head.marks)
      else
        var tail := Each(f, xs[1..]);
        Run(if tail.outcome.Built? then Built([head.outcome.value] + tail.outcome.value) else Fail(tail.outcome),
            head.marks + tail.marks)
  }

  /** When `Each` builds, item i built the i-th image. */
  lemma {:induction false} EachBuilt<X>(f: X -> Run<Image>, xs: seq<X>, i: int)
    requires Each(f, xs).outcome.Built? && 0 <= i < |xs|
    ensures f(xs[i]).outcome == Built(Each(f, xs).outcome.value[i])
    decreases |xs|
  {
    if i > 0 {
      EachBuilt(f, xs[1..], i - 1);
    }
  }

  /** When `Each` does not build, it fails as the first item that did not build, after all before it built. */
  lemma {:induction false} EachStops<X>(f: X -> Run<Image>, xs: seq<X>)
    requires !Each(f, xs).outcome.Built?
    ensures exists i :: (0 <= i < |xs| && !f(xs[i]).outcome.Built?
      && Each(f, xs).outcome == Fail(f(xs[i]).outcome)
      && forall j :: 0 <= j < i ==> f(xs[j]).outcome.Built?)
    decreases |xs|
  {
    if f(xs[0]).outcome.Built? {
      EachStops(f, xs[1..]);
      var i :| 0 <= i < |xs[1..]| && !f(xs[1..][i]).outcome.Built?
        && Each(f, xs[1..]).outcome == Fail(f(xs[1..][i]).outcome)
        && forall j :: 0 <= j < i ==> f(xs[1..][j]).outcome.Built?;
      assert xs[i + 1] == xs[1..][i];
      forall j | 0 <= j < i + 1
        ensures f(xs[j]).outcome.Built?
      {
        if j > 0 {
          assert xs[j] == xs[1..][j - 1];
        }
      }
    } else {
      assert !f(xs[0]).outcome.Built? && Each(f, xs).outcome == Fail(f(xs[0]).outcome);
    }
  }

  /** The `SubImages` constructor: more than 30 parts throw. */
  function MakeSubImages(list: seq<Image>, mode: Mode, gridColor: Color, fixedSize: bool): Run<Image>
  {
    if |list| > 30 then Throw("Too many sub objects")
    else Pure(SubImages(list, mode, gridColor, fixedSize))
  }

  /** The parts of a `SubImages`, none for anything else. */
  function PartsOf(img: Image): seq<Image>
  {
    if img.SubImages? then img.parts else []
  }

  // ------------------------------------------------------------ grids as lists

  /** The first k rows of a grid, one after the other. */
  function RowsFlat(r: Raster, k: nat): (s: seq<Color>)
    requires k <= r.height
    ensures |s| == k * r.width
  {
    if k == 0 then [] else RowsFlat(r, k - 1) + r.rows[k - 1]
  }

  /** The cells of a grid in row-major order, as `basic_grid` lists them. */
  function Flatten(r: Raster): (s: seq<Color>)
    ensures |s| == r.height * r.width
  {
    RowsFlat(r, r.height)
  }

  lemma {:induction false} RowsFlatAt(r: Raster, k: nat, x: int, y: int)
    requires k <= r.height && 0 <= x < r.width && 0 <= y < k
    ensures y * r.width + x < |RowsFlat(r, k)|
    ensures RowsFlat(r, k)[y * r.width + x] == At(r, x, y)
  {
    var w := r.width;
    if y < k - 1 {
      RowsFlatAt(r, k - 1, x, y);
      MulMonotonic(y + 1, k - 1, w);
    } else {
      assert y * w + x == (k - 1) * w + x;
    }
  }

  /** Cell (x, y) sits at index y * width + x of the list. */
  lemma FlattenAt(r: Raster, x: int, y: int)
    requires Inside(r, x, y)
    ensures y * r.width + x < |Flatten(r)| && Flatten(r)[y * r.width + x] == At(r, x, y)
  {
    RowsFlatAt(r, r.height, x, y);
  }

  /** `basic_grid` loses nothing: the basic image of a grid draws that grid again. */
  lemma BasicGridRoundTrip(r: Raster)
    requires r.width > 0
    ensures Compiles(BasicImage(Flatten(r), r.width))
    ensures Rasterize(BasicImage(Flatten(r), r.width)) == r
  {
    var cells := Flatten(r);
    var w := r.width;
    var s := Rasterize(BasicImage(cells, w));
    BasicImageRaster(cells, w, 0, 0);
    DivOfBlock(r.height * w + w - 1, r.height, w);
    assert s.height == r.height;
    forall x, y | Inside(s, x, y)
      ensures At(s, x, y) == At(r, x, y)
    {
      BasicImageRaster(cells, w, x, y);
      FlattenAt(r, x, y);
    }
    Extensionality(s, r);
  }

  /** `fbasic_grid`: the cells row by row, at the grid's width as stride. */
  method BasicGridOf(g: Grid) returns (img: Image)
    requires g.Valid()
    ensures img == BasicImage(Flatten(g.Value()), g.width)
  {
    ghost var r := g.Value();
    var list: seq<Color> := [];
    var y := 0;
    while y < g.height
      invariant 0 <= y <= g.height
      invariant list == RowsFlat(r, y)
    {
      var x := 0;
      var row: seq<Color> := [];
      while x < g.width
        invariant 0 <= x <= g.width
        invariant row == r.rows[y][..x]
      {
        row := row + [g.Get(x, y)];
        x := x + 1;
      }
      assert row == r.rows[y];
      list := list + row;
      y := y + 1;
    }
    img := BasicImage(list, g.width);
  }

  // ------------------------------------------------------------ colours

  /** Cell k of the row-major order. */
  function CellAt(r: Raster, k: nat): Color
  {
    if r.width == 0 then Undefined else At(r, k % r.width, k / r.width)
  }

  /** The colours of the first k cells other than `undefined` and the background, in the order they are first met. */
  function MetFrom(r: Raster, background: Color, k: nat): (s: seq<Color>)
    ensures forall i, j :: 0 <= i < j < |s| ==> s[i] != s[j]
  {
    if k == 0 then []
    else
      var s := MetFrom(r, background, k - 1);
      var c := CellAt(r, k - 1);
      if c == Undefined || c == background then s else AddNew(s, c)
  }

  /** `colors(background)` as the `Set` holds it: first met first. */
  function FirstMet(r: Raster, background: Color): seq<Color>
  {
    MetFrom(r, background, r.width * r.height)
  }

  lemma {:induction false} MetFromMembers(r: Raster, background: Color, k: nat, c: Color)
    ensures c in MetFrom(r, background, k) <==>
      c != Undefined && c != background && exists j :: 0 <= j < k && CellAt(r, j) == c
  {
    if k > 0 {
      MetFromMembers(r, background, k - 1, c);
      if c != Undefined && c != background && CellAt(r, k - 1) == c {
        assert c in MetFrom(r, background, k);
      }
    }
  }

  /** Cell (x, y) is cell y * width + x of the row-major order. */
  lemma CellOfPoint(r: Raster, x: int, y: int)
    requires Inside(r, x, y)
    ensures 0 <= y * r.width + x < r.width * r.height && CellAt(r, y * r.width + x) == At(r, x, y)
  {
    var w := r.width;
    DivOfBlock(y * w + x, y, w);
    MulMonotonic(y + 1, r.height, w);
  }

  /** Every cell of the row-major order lies in the grid. */
  lemma PointOfCell(r: Raster, j: int)
    requires 0 <= j < r.width * r.height
    ensures r.width > 0 && Inside(r, j % r.width, j / r.width)
  {
    var w := r.width;
    if j / w >= r.height {
      MulMonotonic(r.height, j / w, w);
    }
  }

  /** The list holds each colour of the grid other than `undefined` and the background once, and nothing else. */
  lemma FirstMetMembers(r: Raster, background: Color, c: Color)
    ensures c in FirstMet(r, background) <==> c in ColorsOf(r, background)
  {
    MetFromMembers(r, background, r.width * r.height, c);
    ColorsOfMembers(r, background, c);
    if c in ColorsOf(r, background) {
      var x, y :| Inside(r, x, y) && At(r, x, y) == c;
      CellOfPoint(r, x, y);
    }
    if c in FirstMet(r, background) {
      var j :| 0 <= j < r.width * r.height && CellAt(r, j) == c;
      PointOfCell(r, j);
    }
  }

  /** How many cells hold colour c: `grid.count(c2 => c2 === c)`. */
  function Occurrences(r: Raster, c: Color): nat
  {
    Count(r, x => x == c)
  }

  function Frequency(r: Raster): Color -> int
  {
    c => Occurrences(r, c)
  }

  /** The colour `background` picks when given none: `highest(colors(), count)`, undefined for a grid without colours. */
  function AutoBackground(r: Raster): Color
  {
    match M.HighestOf(FirstMet(r, Undefined), Frequency(r))
    case None => Undefined
    case Some(c) => c
  }

  predicate Increasing(s: seq<Color>)
  {
    forall i, j :: 0 <= i < j < |s| ==> s[i] < s[j]
  }

  predicate Distinct(s: seq<Color>)
  {
    forall i, j :: 0 <= i < j < |s| ==> s[i] != s[j]
  }

  /** A new colour put into an increasing list at its place. */
  function Insert(x: Color, s: seq<Color>): (r: seq<Color>)
    requires Increasing(s) && x !in s
    ensures Increasing(r) && |r| == |s| + 1
    ensures forall c :: c in r <==> c == x || c in s
  {
    if |s| == 0 then [x]
    else if x < s[0] then [x] + s
    else
      var rest := Insert(x, s[1..]);
      assert forall c :: c in s <==> c == s[0] || c in s[1..];
      assert forall k :: 0 <= k < |rest| ==> rest[k] in rest && s[0] < rest[k];
      [s[0]] + rest
  }

  /** `sort((a, b) => a - b)` of colours met once each: the same colours, increasing. */
  function Ascending(s: seq<Color>): (r: seq<Color>)
    requires Distinct(s)
    ensures Increasing(r) && |r| == |s|
    ensures forall c :: c in r <==> c in s
  {
    if |s| == 0 then []
    else
      assert forall c :: c in s <==> c == s[0] || c in s[1..];
      Insert(s[0], Ascending(s[1..]))
  }

  /** The mask `color_decomposition` gives colour c: true where the cell holds c, false elsewhere. */
  function LayerMask(r: Raster, c: Color): Raster
  {
    MapColors(r, x => if x == c then True else False)
  }

  /** The mask `monochrome` hands on: false where black, true elsewhere. */
  function MonochromeMask(r: Raster): Raster
  {
    MapColors(r, x => if x == Black then False else True)
  }

  // ------------------------------------------------------------ rows

  predicate RowEmpty(r: Raster, y: int)
  {
    forall x :: 0 <= x < r.width ==> At(r, x, y) == Black
  }

  /** The grid `horizontal_decomposition` makes of row y: black, except for that row's non-black cells. */
  function RowOnly(r: Raster, y: int): (s: Raster)
    ensures s.width == r.width && s.height == r.height
  {
    FromFunction(r.width, r.height, (i, j) => if j == y && At(r, i, y) != Black then At(r, i, y) else Black)
  }

  /** The row grids of the non-empty rows from y on, top to bottom. */
  function RowGrids(r: Raster, y: nat): seq<Raster>
    decreases r.height - y
  {
    if y >= r.height then []
    else (if RowEmpty(r, y) then [] else [RowOnly(r, y)]) + RowGrids(r, y + 1)
  }

  /** One pass of the outer loop of `horizontal_decomposition`: the row's grid and whether the row is empty. */
  method RowGrid(g: Grid, y: int) returns (sub: Grid, empty: bool)
    requires g.Valid() && 0 <= y < g.height
    ensures sub.Valid() && fresh(sub.cells)
    ensures sub.Value() == RowOnly(g.Value(), y)
    ensures empty <==> RowEmpty(g.Value(), y)
  {
    ghost var r := g.Value();
    sub := g.ClearClone(Black);
    empty := true;
    var x := 0;
    while x < g.width
      invariant 0 <= x <= g.width
      invariant sub.Valid() && sub.width == g.width && sub.height == g.height && fresh(sub.cells)
      invariant empty <==> forall i :: 0 <= i < x ==> At(r, i, y) == Black
      invariant forall i, j :: 0 <= i < sub.width && 0 <= j < sub.height ==>
        sub.cells[j, i] == if j == y && i < x && At(r, i, y) != Black then At(r, i, y) else Black
      invariant g.Value() == r
    {
      var c := g.Get(x, y);
      if c != Black {
        empty := false;
        sub.Set(x, y, c);
      }
      x := x + 1;
    }
    sub.ValueIs(RowOnly(r, y));
  }

  // ------------------------------------------------------------ master grid layout

  /** The corners one row of `master_grid2` visits: x0 = start, start + nx, ... below w. */
  function RowCorners(w: int, nx: int, y0: int, x0: int): seq<(int, int)>
    requires nx > 0
    decreases w - x0
  {
    if x0 >= w then [] else [(x0, y0)] + RowCorners(w, nx, y0, x0 + nx)
  }

  function CornersFrom(w: int, h: int, nx: int, ny: int, y0: int): seq<(int, int)>
    requires nx > 0 && ny > 0
    decreases h - y0
  {
    if y0 >= h then [] else RowCorners(w, nx, y0, 0) + CornersFrom(w, h, nx, ny, y0 + ny)
  }

  /** The top-left corners of the cells of `master_grid` and `master_grid2`, row by row. */
  function Corners(w: int, h: int, nx: int, ny: int): seq<(int, int)>
    requires nx > 0 && ny > 0
  {
    CornersFrom(w, h, nx, ny, 0)
  }

  /** The two loops of `master_grid2`: the corners they visit, in order. */
  method Layout(w: int, h: int, nx: int, ny: int) returns (corners: seq<(int, int)>)
    requires nx > 0 && ny > 0
    ensures corners == Corners(w, h, nx, ny)
  {
    corners := [];
    var y0 := 0;
    while y0 < h
      invariant corners + CornersFrom(w, h, nx, ny, y0) == Corners(w, h, nx, ny)
      decreases h - y0
    {
      var row: seq<(int, int)> := [];
      var x0 := 0;
      while x0 < w
        invariant row + RowCorners(w, nx, y0, x0) == RowCorners(w, nx, y0, 0)
        decreases w - x0
      {
        row := row + [(x0, y0)];
        x0 := x0 + nx;
      }
      corners := corners + row;
      y0 := y0 + ny;
    }
  }

  /** A non-negative d is a multiple of n when it is 0 or n more than a multiple of n. */
  lemma ModStep(d: int, n: int)
    requires d >= 0 && n > 0
    ensures d % n == 0 <==> d == 0 || (d >= n && (d - n) % n == 0)
  {
    if d < n {
      DivOfBlock(d, 0, n);
    } else {
      var q := d / n;
      assert d == q * n + d % n;
      assert (q - 1) * n == q * n - n;
      DivOfBlock(d - n, q - 1, n);
    }
  }

  lemma {:induction false} RowCornersMembers(w: int, nx: int, y0: int, x0: int, x: int, y: int)
    requires nx > 0
    ensures (x, y) in RowCorners(w, nx, y0, x0) <==> y == y0 && x0 <= x < w && (x - x0) % nx == 0
    decreases w - x0
  {
    if x0 < w {
      RowCornersMembers(w, nx, y0, x0 + nx, x, y);
      if x0 <= x {
        ModStep(x - x0, nx);
      }
    }
  }

  lemma {:induction false} CornersFromMembers(w: int, h: int, nx: int, ny: int, y0: int, x: int, y: int)
    requires nx > 0 && ny > 0
    ensures (x, y) in CornersFrom(w, h, nx, ny, y0) <==>
      0 <= x < w && x % nx == 0 && y0 <= y < h && (y - y0) % ny == 0
    decreases h - y0
  {
    if y0 < h {
      CornersFromMembers(w, h, nx, ny, y0 + ny, x, y);
      RowCornersMembers(w, nx, y0, 0, x, y);
      if y0 <= y {
        ModStep(y - y0, ny);
      }
    }
  }

  /** A cell starts at every multiple of nx below the width and every multiple of ny below the height, and nowhere else. */
  lemma CornersMembers(w: int, h: int, nx: int, ny: int, x: int, y: int)
    requires nx > 0 && ny > 0
    ensures (x, y) in Corners(w, h, nx, ny) <==> 0 <= x < w && x % nx == 0 && 0 <= y < h && y % ny == 0
  {
    CornersFromMembers(w, h, nx, ny, 0, x, y);
  }

  /** The data `master_grid` and `master_grid2` attach to cell k at (x0, y0). */
  function SplitTags(w: int, h: int, nx: int, ny: int, k: int, x0: int, y0: int): seq<Number>
  {
    [Finite(k as real), Divide(x0 as real, nx as real), Divide(y0 as real, ny as real),
     Divide(x0 as real, (w - nx) as real), Divide(y0 as real, (h - ny) as real)]
  }

  /** The data `find_master_grid` attaches to cell k of n in rows of `stride`. */
  function MasterTags(k: int, stride: int, n: int): seq<Number>
    requires stride > 0
  {
    var column := k % stride;
    var row := (k - column) / stride;
    [Finite(k as real), Finite(column as real), Finite(row as real),
     Divide(column as real, (stride - 1) as real), Divide(row as real, n as real / stride as real - 1.0)]
  }

  // ------------------------------------------------------------ the combinators

  /** `new Translation(x, y, c)`: followed only for a child whose bounds are known. */
  function Placed(x: int, y: int, c: Image): Outcome<Image>
  {
    if Compiles(c) && Bounds(c).Box? then Built(MakeTranslation(x, y, c, Zero, Zero)) else Unmodelled
  }

  /** A placed child with its `ImageData` tags. */
  function Tagged(tags: seq<Number>, x: int, y: int, c: Image): Outcome<Image>
  {
    if Compiles(c) && Bounds(c).Box? then Built(ImageData(tags, MakeTranslation(x, y, c, Zero, Zero))) else Unmodelled
  }

  /** `image_window`: the child's image in a window the size of the grid. */
  function ImageWindowRun(f: Worker, g: Raster): Run<Image>
  {
    Then(f(g), (c: Image) => Built(ImageWindow(0, 0, g.width, g.height, c)))
  }

  /** `scaled`: the child sees the grid shrunk by its scaling factor, separators removed when it has them. */
  ghost function ScaledRun(f: Worker, g: Raster): Run<Image>
  {
    var sg := GridScalingFrom(g, 1);
    if sg.Some? then
      var s := sg.value.0;
      Then(f(InvScaleWithGrid(g, s)), (c: Image) => Built(Scale(s, c, sg.value.1)))
    else
      var s := ScalingFactor(g);
      Then(f(InvScale(g, s)), (c: Image) => Built(Scale(s, c, NoColor)))
  }

  /** `tile`, `tile_x`, `tile_y`: the child sees one tile of the grid. */
  function TileRun(t: Transform, f: Worker, g: Raster): Run<Image>
  {
    Then(f(TileOf(g)), (c: Image) => Built(ImageTransformation(t, c)))
  }

  /** `transform`: the child sees the grid drawn under the symmetry t, and its image is turned back by t. */
  function TransformRun(t: Transform, f: Worker, g: Raster): Run<Image>
  {
    if !IsSymmetry(t) || g.width == 0 then Skip()
    else
      var turned := ImageTransformation(t, BasicImage(Flatten(g), g.width));
      Then(f(Rasterize(turned)), (c: Image) => Built(ImageTransformation(t, c)))
  }

  /** `semantic_box`: the nine colours of a semantic box, else an error. */
  function SemanticBoxRun(g: Raster): Run<Image>
  {
    if IsSemanticBox(g) then
      var b := SemanticBoxOf(g);
      Pure(SemanticBox(g.width, g.height,
        [At(b, 0, 0), At(b, 1, 0), At(b, 2, 0), At(b, 0, 1), At(b, 1, 1), At(b, 2, 1), At(b, 0, 2), At(b, 1, 2), At(b, 2, 2)]))
    else
      Throw("Not a semantic box")
  }

  /** `trim_object`: the child sees the grid trimmed of black, and its image goes back where the window was. */
  function TrimObjectRun(f: Worker, g: Raster): Run<Image>
  {
    var t := TrimOf(g, Black);
    Then(f(t.grid), (c: Image) => Placed(t.x, t.y, c))
  }

  /** `monochrome`: at most one colour besides black; the child sees where the grid is not black. */
  function MonochromeRun(f: Worker, g: Raster): Run<Image>
  {
    var colors := FirstMet(g, Black);
    if |colors| > 1 then Throw("not-a-monochrome-image")
    else
      var color := if |colors| == 0 then Blue else colors[0];
      Then(f(MonochromeMask(g)), (c: Image) => Built(MonochromeColor(color, c)))
  }

  /** `solid_color`: at most one colour; `undefined` for a grid without any. */
  function SolidColorRun(g: Raster): Run<Image>
  {
    var colors := FirstMet(g, Undefined);
    if |colors| > 1 then Throw("not-a-solid-color")
    else Pure(SolidColor(if |colors| == 0 then Undefined else colors[0]))
  }

  /** `background`: the child sees the grid with the background colour and black swapped. */
  function BackgroundRun(given: Option<Color>, f: Worker, g: Raster): Run<Image>
  {
    var color := if given.Some? then given.value else AutoBackground(g);
    Then(f(MapColors(g, x => Swap(color, x))), (c: Image) => Built(BackgroundColor(color, c)))
  }

  /** `object_list`, `object_list2`: the child on each object, as 'free' sub-images. */
  ghost function ObjectListRun(f: Worker, corners: bool, g: Raster): Run<Image>
  {
    Bind(Each(f, Objects(g, corners)), (list: seq<Image>) => MakeSubImages(list, Free, Black, false))
  }

  /** `block_list`: the child on each block `foreach_block` yields. */
  function BlockListRun(f: Worker, blocks: Raster -> seq<Raster>, g: Raster): Run<Image>
  {
    Bind(Each(f, blocks(g)), (list: seq<Image>) => MakeSubImages(list, Free, Black, false))
  }

  /** The colours `color_decomposition` visits: those other than black, increasing. */
  function LayerColors(g: Raster): seq<Color>
  {
    Ascending(FirstMet(g, Black))
  }

  /** One layer of `color_decomposition`: the child on the mask of one colour, painted that colour. */
  function Layer(f: Worker, g: Raster, color: Color): Run<Image>
  {
    Then(f(LayerMask(g, color)), (c: Image) => Built(MonochromeColor(color, c)))
  }

  /** `color_decomposition`: one layer per colour other than black, in increasing order. */
  function ColorDecompositionRun(f: Worker, g: Raster): Run<Image>
  {
    Bind(Each((color: Color) => Layer(f, g, color), LayerColors(g)),
      (layers: seq<Image>) => MakeSubImages(layers, Free, Black, false))
  }

  /** The second pass of `monochrome_object_list`: each object of each layer, painted the layer's colour. */
  function Regroup(layers: seq<Image>): seq<Image>
  {
    if |layers| == 0 then []
    else
      var l := layers[0];
      var objects := if l.MonochromeColor? then PartsOf(l.image) else [];
      seq(|objects|, j requires 0 <= j < |objects| => MonochromeColor(l.color, objects[j])) + Regroup(layers[1..])
  }

  /** `monochrome_object_list`, `monochrome_object_list2`: the objects of every colour layer, as one list. */
  ghost function MonochromeObjectListRun(f: Worker, corners: bool, g: Raster): Run<Image>
  {
    Bind(ColorDecompositionRun((x: Raster) => ObjectListRun(f, corners, x), g),
      (first: Image) => MakeSubImages(Regroup(PartsOf(first)), Free, Black, false))
  }

  /** `horizontal_decomposition`: the child on each non-empty row; the dispatcher never passes `fixed_size`. */
  function HorizontalRun(f: Worker, g: Raster): Run<Image>
  {
    Bind(Each(f, RowGrids(g, 0)), (list: seq<Image>) => MakeSubImages(list, Free, Black, false))
  }

  /** The `grid_color` a `SubImages` keeps: the constructor's default, black, stands in for `undefined`. */
  function SubImagesColor(c: Color): (r: Color)
    ensures r != Undefined
    ensures c != Undefined ==> r == c
  {
    if c == Undefined then Black else c
  }

  /** `find_master_grid`: the child on each cell of the master grid, placed and tagged. */
  function FindMasterGridRun(f: Worker, default: Option<Color>, fixedSize: bool, g: Raster): Run<Image>
  {
    MasterCellsRun(f, MasterGridOf(g, if default.Some? then default.value else Undefined), fixedSize)
  }

  /** The second half of `find_master_grid`: the child on each cell of a master grid, placed and tagged. */
  function MasterCellsRun(f: Worker, mg: MasterGrid, fixedSize: bool): Run<Image>
  {
    Bind(Each(MasterWorker(f, mg), Numbered(mg.cells)),
      (list: seq<Image>) => MakeSubImages(list, Stride(mg.stride), SubImagesColor(mg.gridColor), fixedSize))
  }

  /** The child on the k-th cell of a master grid, placed at the cell and tagged. */
  function MasterWorker(f: Worker, mg: MasterGrid): ((int, MasterCell)) -> Run<Image>
  {
    (p: (int, MasterCell)) =>
      if mg.stride > 0 then Then(f(p.1.grid), (c: Image) => Tagged(MasterTags(p.0, mg.stride, |mg.cells|), p.1.x, p.1.y, c))
      else Skip()
  }

  /** One cell of `master_grid`: a window reaching below the grid throws, as reading a missing row does. */
  function SplitCellRun(f: Worker, g: Raster, nx: int, ny: int, k: int, x0: int, y0: int): Run<Image>
    requires nx > 0 && ny > 0
  {
    if x0 < 0 || y0 < 0 then Skip()
    else if y0 + ny > g.height then Throw(TypeError)
    else Then(f(Sub(g, x0, y0, x0 + nx, y0 + ny)), (c: Image) => Tagged(SplitTags(g.width, g.height, nx, ny, k, x0, y0), x0, y0, c))
  }

  /** The cells of `master_grid` and `master_grid2`, nx by ny, row by row. */
  function SplitRun(f: Worker, g: Raster, nx: int, ny: int): Run<seq<Image>>
    requires nx > 0 && ny > 0
  {
    Each(CellWorker(f, g, nx, ny), Numbered(Corners(g.width, g.height, nx, ny)))
  }

  /** Each corner with its index in the list. */
  function Numbered<T>(s: seq<T>): (r: seq<(int, T)>)
    ensures |r| == |s| && forall k :: 0 <= k < |s| ==> r[k] == (k, s[k])
  {
    seq(|s|, k requires 0 <= k < |s| => (k, s[k]))
  }

  function CellWorker(f: Worker, g: Raster, nx: int, ny: int): ((int, (int, int))) -> Run<Image>
    requires nx > 0 && ny > 0
  {
    (p: (int, (int, int))) => SplitCellRun(f, g, nx, ny, p.0, p.1.0, p.1.1)
  }

  /** `master_grid(sx, sy)`: sx by sy cells of floor(width / sx) by floor(height / sy). */
  function MasterGridRun(sx: Option<int>, sy: Option<int>, f: Worker, g: Raster): Run<Image>
  {
    if sx.None? || sy.None? || sx.value <= 0 || sy.value <= 0 then Skip()
    else
      var nx := g.width / sx.value;
      var ny := g.height / sy.value;
      if nx == 0 || ny == 0 then Throw("master_grid() does not work")
      else Bind(SplitRun(f, g, nx, ny), (list: seq<Image>) => MakeSubImages(list, Free, Black, true))
  }

  /** `master_grid2(nx, ny)`: cells of nx by ny; a negative size would never end the loop. */
  function MasterGrid2Run(nx: Option<int>, ny: Option<int>, f: Worker, g: Raster): Run<Image>
  {
    if nx.None? || ny.None? then Skip()
    else if nx.value == 0 || ny.value == 0 then Throw("master_grid() does not work")
    else if nx.value < 0 || ny.value < 0 then Skip()
    else Bind(SplitRun(f, g, nx.value, ny.value), (list: seq<Image>) => MakeSubImages(list, Free, Black, false))
  }

  /** The decomposer the `_abstraction` combinators try: the first branch from i on that does not throw. */
  function FirstSuccess(fs: seq<Worker>, g: Raster, i: nat): Run<Image>
    decreases |fs| - i
  {
    if i >= |fs| then Throw("Can't decompose image")
    else
      var r := Within(Item(i), fs[i](g));
      if r.outcome.Thrown? then
        var rest := FirstSuccess(fs, g, i + 1);
        Run(rest.outcome, r.marks + rest.marks)
      else
        r
  }

  /** `monochrome_object_list_abstraction`: the objects of every colour layer, each by the first branch that takes it. */
  ghost function AbstractionObjectsRun(name: string, fs: seq<Worker>, g: Raster): Run<Image>
  {
    var tried: Worker := (x: Raster) => FirstSuccess(fs, x, 0);
    Then(ColorDecompositionRun((x: Raster) => ObjectListRun(tried, false, x), g),
      (first: Image) => Built(Abstraction(name, Regroup(PartsOf(first)))))
  }

  /** `monochrome_decomposition_abstraction`: every colour layer, each by the first branch that takes it. */
  function AbstractionLayersRun(name: string, fs: seq<Worker>, g: Raster): Run<Image>
  {
    Then(ColorDecompositionRun((x: Raster) => FirstSuccess(fs, x, 0), g),
      (first: Image) => Built(Abstraction(name, PartsOf(first))))
  }

  /** `simple_abstraction`: the child's image as the single part of an abstraction. */
  function SimpleAbstractionRun(name: string, f: Worker, g: Raster): Run<Image>
  {
    Then(f(g), (c: Image) => Built(Abstraction(name, [c])))
  }

  /** `add_info`: the first child, then the second, on the same grid. */
  function AddInfoRun(f: Worker, f2: Worker, g: Raster): Run<Image>
  {
    Bind(f(g), (a: Image) => Then(f2(g), (b: Image) => Built(Info(a, b))))
  }

  /** The branches of `alternatives` from i on: a branch that throws leaves `undefined` and is marked failed. */
  function AlternativesFrom(fs: seq<Worker>, g: Raster, i: nat): Run<seq<Image>>
  {
    Run(AlternativesOutcome(fs, g, i), AlternativesMarks(fs, g, i))
  }

  /** The slots the branches from i on leave: what each built, `undefined` where it threw. */
  function AlternativesOutcome(fs: seq<Worker>, g: Raster, i: nat): Outcome<seq<Image>>
    decreases |fs| - i
  {
    if i >= |fs| then Built([])
    else
      var r := fs[i](g).outcome;
      if r.Unmodelled? then Unmodelled
      else
        var rest := AlternativesOutcome(fs, g, i + 1);
        if rest.Built? then Built([if r.Built? then r.value else Absent] + rest.value) else rest
  }

  /** The nodes the branches from i on mark: their own marks, and each branch that threw. */
  function AlternativesMarks(fs: seq<Worker>, g: Raster, i: nat): set<Path>
    decreases |fs| - i
  {
    if i >= |fs| then {}
    else
      var r := fs[i](g);
      if r.outcome.Unmodelled? then Under(Item(i), r.marks)
      else
        var mark: set<Path> := if r.outcome.Thrown? then {[Item(i)]} else {};
        Under(Item(i), r.marks) + mark + AlternativesMarks(fs, g, i + 1)
  }

  /** `alternatives`: every branch on the same grid; none of their errors escapes. */
  function AlternativesRun(fs: seq<Worker>, g: Raster): Run<Image>
  {
    Then(AlternativesFrom(fs, g, 0), (list: seq<Image>) => Built(Alternatives(list)))
  }

  // ------------------------------------------------------------ building and running

  const WithChild: set<string> := {
    "image_window", "scaled", "tile", "tile_x", "tile_y", "transform", "trim_object", "trim_object_center",
    "monochrome", "background", "complement", "centered", "object_list", "object_list2", "block_list",
    "color_decomposition", "monochrome_object_list", "monochrome_object_list2", "horizontal_decomposition",
    "find_master_grid", "master_grid", "master_grid2", "simple_abstraction"}

  const Leaves: set<string> := {"basic_grid", "semantic_box", "solid_color", "pixel_grid"}

  const WithList: set<string> := {
    "monochrome_object_list_abstraction", "monochrome_decomposition_abstraction", "alternatives"}

  /** The names `build_decomposer` knows. */
  const Known: set<string> := WithChild + Leaves + WithList + {"add_info"}

  /** What `build_decomposer` throws before any grid is seen: an unknown name, or a child that is missing. */
  function BuildError(d: D.Decomposer): Option<string>
    decreases d
  {
    if d.name in WithChild then ChildError(d.decomposer)
    else if d.name in Leaves then None
    else if d.name == "add_info" then
      if ChildError(d.decomposer).Some? then ChildError(d.decomposer) else ChildError(d.decomposer2)
    else if d.name in WithList then ListError(d.decomposers)
    else Some("Unknown decomposer '" + d.name + "'")
  }

  function ChildError(o: Option<D.Decomposer>): Option<string>
    decreases o
  {
    if o.None? then Some(TypeError) else BuildError(o.value)
  }

  function ListError(l: D.List): Option<string>
    decreases l
  {
    if l.Unlisted? then Some(TypeError) else ItemsError(l, 0)
  }

  function ItemsError(l: D.List, i: nat): Option<string>
    requires l.Listed?
    decreases l, |l.items| - i
  {
    if i >= |l.items| then None
    else if BuildError(l.items[i]).Some? then BuildError(l.items[i])
    else ItemsError(l, i + 1)
  }

  /** The built branches of a list, one worker per entry. */
  ghost function Branches(l: D.List, blocks: Raster -> seq<Raster>): (fs: seq<Worker>)
    requires l.Listed?
    ensures |fs| == |l.items|
    decreases l
  {
    seq(|l.items|, i requires 0 <= i < |l.items| => (x: Raster) => Apply(l.items[i], x, blocks))
  }

  /** The case of the `build_decomposer` switch a name selects, in the order of its cases. */
  datatype Kind =
    ImageWindowKind | ScaledKind | TileKind | TileXKind | TileYKind | TransformKind | TrimObjectKind |
    TrimObjectCenterKind | MonochromeKind | BackgroundKind | ComplementKind | CenteredKind | BasicGridKind |
    SemanticBoxKind | SolidColorKind | PixelGridKind | ObjectListKind | ObjectList2Kind | BlockListKind |
    ColorDecompositionKind | MonochromeObjectListKind | MonochromeObjectList2Kind | HorizontalKind |
    FindMasterGridKind | MasterGridKind | MasterGrid2Kind | SimpleAbstractionKind | ObjectsAbstractionKind |
    LayersAbstractionKind | AddInfoKind | AlternativesKind | UnknownKind

  function KindOf(name: string): Kind
  {
    if name == "image_window" then ImageWindowKind
    else if name == "scaled" then ScaledKind
    else if name == "tile" then TileKind
    else if name == "tile_x" then TileXKind
    else if name == "tile_y" then TileYKind
    else if name == "transform" then TransformKind
    else if name == "trim_object" then TrimObjectKind
    else if name == "trim_object_center" then TrimObjectCenterKind
    else if name == "monochrome" then MonochromeKind
    else if name == "background" then BackgroundKind
    else if name == "complement" then ComplementKind
    else if name == "centered" then CenteredKind
    else if name == "basic_grid" then BasicGridKind
    else if name == "semantic_box" then SemanticBoxKind
    else if name == "solid_color" then SolidColorKind
    else if name == "pixel_grid" then PixelGridKind
    else if name == "object_list" then ObjectListKind
    else if name == "object_list2" then ObjectList2Kind
    else if name == "block_list" then BlockListKind
    else if name == "color_decomposition" then ColorDecompositionKind
    else if name == "monochrome_object_list" then MonochromeObjectListKind
    else if name == "monochrome_object_list2" then MonochromeObjectList2Kind
    else if name == "horizontal_decomposition" then HorizontalKind
    else if name == "find_master_grid" then FindMasterGridKind
    else if name == "master_grid" then MasterGridKind
    else if name == "master_grid2" then MasterGrid2Kind
    else if name == "simple_abstraction" then SimpleAbstractionKind
    else if name == "monochrome_object_list_abstraction" then ObjectsAbstractionKind
    else if name == "monochrome_decomposition_abstraction" then LayersAbstractionKind
    else if name == "add_info" then AddInfoKind
    else if name == "alternatives" then AlternativesKind
    else UnknownKind
  }

  /**
   * The function `build_decomposer(d)` returns, applied to grid g. `blocks`
   * stands for `foreach_block`, which is not part of this model. A child
   * that is missing throws here as it would when building.
   */
  ghost function Apply(d: D.Decomposer, g: Raster, blocks: Raster -> seq<Raster>): Run<Image>
    decreases d
  {
    var branches := if d.decomposers.Listed? then Branches(d.decomposers, blocks) else [];
    Dispatch(KindOf(d.name), d, Child(d.decomposer, Down, blocks), Child(d.decomposer2, Second, blocks), branches, g, blocks)
  }

  /** The built child at `step`; a child that is missing throws, as building would. */
  ghost function Child(o: Option<D.Decomposer>, step: Step, blocks: Raster -> seq<Raster>): Worker
    decreases o
  {
    (x: Raster) => if o.Some? then Within(step, Apply(o.value, x, blocks)) else Throw(TypeError)
  }

  /**
   * One case of the switch: `down` and `second` run the built child and
   * second child, `branches` the built entries of the list.
   */
  ghost function Dispatch(kind: Kind, d: D.Decomposer, down: Worker, second: Worker, branches: seq<Worker>,
                          g: Raster, blocks: Raster -> seq<Raster>): Run<Image>
  {
    match kind
    case ImageWindowKind => ImageWindowRun(down, g)
    case ScaledKind => ScaledRun(down, g)
    case TileKind => TileRun(Tile, down, g)
    case TileXKind => TileRun(TileX, down, g)
    case TileYKind => TileRun(TileY, down, g)
    case TransformKind => if d.transform.Some? then TransformRun(d.transform.value, down, g) else Skip()
    case TrimObjectKind => TrimObjectRun(down, g)
    case TrimObjectCenterKind => Skip()
    case MonochromeKind => MonochromeRun(down, g)
    case BackgroundKind => BackgroundRun(d.backgroundColor, down, g)
    case ComplementKind => down(Complement(g))
    case CenteredKind => Skip()
    case BasicGridKind => Pure(BasicImage(Flatten(g), g.width))
    case SemanticBoxKind => SemanticBoxRun(g)
    case SolidColorKind => SolidColorRun(g)
    case PixelGridKind => Skip()
    case ObjectListKind => ObjectListRun(down, false, g)
    case ObjectList2Kind => ObjectListRun(down, true, g)
    case BlockListKind => BlockListRun(down, blocks, g)
    case ColorDecompositionKind => ColorDecompositionRun(down, g)
    case MonochromeObjectListKind => MonochromeObjectListRun(down, false, g)
    case MonochromeObjectList2Kind => MonochromeObjectListRun(down, true, g)
    case HorizontalKind => HorizontalRun(down, g)
    case FindMasterGridKind => FindMasterGridRun(down, d.defaultGridColor, d.fixedSize == Some(true), g)
    case MasterGridKind => MasterGridRun(d.sx, d.sy, down, g)
    case MasterGrid2Kind => MasterGrid2Run(d.nx, d.ny, down, g)
    case SimpleAbstractionKind =>
      if d.abstractionName.Some? then SimpleAbstractionRun(d.abstractionName.value, down, g) else Skip()
    case ObjectsAbstractionKind =>
      if d.decomposers.Unlisted? then Throw(TypeError)
      else if d.abstractionName.None? then Skip()
      else AbstractionObjectsRun(d.abstractionName.value, branches, g)
    case LayersAbstractionKind =>
      if d.decomposers.Unlisted? then Throw(TypeError)
      else if d.abstractionName.None? then Skip()
      else AbstractionLayersRun(d.abstractionName.value, branches, g)
    case AddInfoKind => AddInfoRun(down, second, g)
    case AlternativesKind =>
      if d.decomposers.Unlisted? then Throw(TypeError) else AlternativesRun(branches, g)
    case UnknownKind => Throw("Unknown decomposer '" + d.name + "'")
  }

  /** `build_decomposer(d)(g)`: an error in building comes first. */
  ghost function Decompose(d: D.Decomposer, g: Raster, blocks: Raster -> seq<Raster>): Run<Image>
  {
    match BuildError(d)
    case Some(e) => Throw(e)
    case None => Apply(d, g, blocks)
  }

  /** The description once the run has written `failed = true` at each marked node; `at` is where d sits. */
  function Marked(d: D.Decomposer, marks: set<seq<Step>>, at: seq<Step>): (r: D.Decomposer)
    ensures r.name == d.name && r.decomposer.Some? == d.decomposer.Some? && r.decomposer2.Some? == d.decomposer2.Some?
    ensures r.decomposers.Listed? == d.decomposers.Listed?
    ensures d.decomposers.Listed? ==> |r.decomposers.items| == |d.decomposers.items|
    decreases d
  {
    d.(failed := if at in marks then Some(true) else d.failed,
       decomposer := if d.decomposer.Some? then Some(Marked(d.decomposer.value, marks, at + [Down])) else None,
       decomposer2 := if d.decomposer2.Some? then Some(Marked(d.decomposer2.value, marks, at + [Second])) else None,
       decomposers := MarkedList(d.decomposers, marks, at))
  }

  function MarkedList(l: D.List, marks: set<seq<Step>>, at: seq<Step>): (r: D.List)
    ensures r.Listed? == l.Listed? && (l.Listed? ==> |r.items| == |l.items|)
    decreases l
  {
    if l.Unlisted? then D.Unlisted
    else D.Listed(seq(|l.items|, i requires 0 <= i < |l.items| => Marked(l.items[i], marks, at + [Item(i)])))
  }

  /** `decomposer_to_list`: the names down the chain of single children. */
  function ToList(d: D.Decomposer): seq<string>
    decreases d
  {
    if d.decomposer.Some? then [d.name] + ToList(d.decomposer.value) else [d.name]
  }

  // ------------------------------------------------------------ properties

  /** Building fails with the unknown name of the first node down the chain of single children that has one. */
  lemma {:induction false} UnknownNameFails(d: D.Decomposer, k: nat)
    requires k < |D.Chain(d)| && D.Chain(d)[k].name !in Known
    requires forall j :: 0 <= j < k ==> D.Chain(d)[j].name in WithChild
    ensures BuildError(d) == Some("Unknown decomposer '" + D.Chain(d)[k].name + "'")
  {
    if k == 0 {
      UnknownHere(d);
    } else {
      assert D.Chain(d)[0] == d;
      ChainTail(d);
      var c := d.decomposer.value;
      ChildErrorPassed(d);
      UnknownNameFails(c, k - 1);
    }
  }

  /** A node with an unknown name fails with that name. */
  lemma UnknownHere(d: D.Decomposer)
    requires d.name !in Known
    ensures BuildError(d) == Some("Unknown decomposer '" + d.name + "'")
  {
  }

  /** A node that takes one child fails as its child does. */
  lemma ChildErrorPassed(d: D.Decomposer)
    requires d.name in WithChild && d.decomposer.Some?
    ensures BuildError(d) == BuildError(d.decomposer.value)
  {
  }

  /** Below the root, the chain goes on with the single child's chain. */
  lemma ChainTail(d: D.Decomposer)
    requires |D.Chain(d)| > 1
    ensures d.decomposer.Some? && |D.Chain(d)| == |D.Chain(d.decomposer.value)| + 1
    ensures forall j :: 0 <= j < |D.Chain(d.decomposer.value)| ==> D.Chain(d.decomposer.value)[j] == D.Chain(d)[j + 1]
  {
    assert D.Chain(d) == [d] + D.Chain(d.decomposer.value);
  }

  /** `decomposer_to_list` lists the names of the chain of single children, in order. */
  lemma {:induction false} ToListFollowsChain(d: D.Decomposer)
    ensures |ToList(d)| == |D.Chain(d)|
    ensures forall i :: 0 <= i < |ToList(d)| ==> ToList(d)[i] == D.Chain(d)[i].name
  {
    if d.decomposer.Some? {
      var c := d.decomposer.value;
      ToListFollowsChain(c);
      assert D.Chain(d) == [d] + D.Chain(c);
      assert ToList(d) == [d.name] + ToList(c);
    }
  }

  /** A list that holds each member of a set once has the set's size. */
  lemma {:induction false} DistinctCard(s: seq<Color>, t: set<Color>)
    requires Distinct(s) && forall c :: c in s <==> c in t
    ensures |s| == |t|
  {
    if |s| == 0 {
      assert forall c :: c in t ==> c in s;
      assert t == {};
    } else {
      var rest := s[1..];
      forall c
        ensures c in rest <==> c in t - {s[0]}
      {
        if c in rest {
          var j :| 0 <= j < |rest| && rest[j] == c;
          assert s[j + 1] == c;
        }
        if c in s && c != s[0] {
          var j :| 0 <= j < |s| && s[j] == c;
          assert rest[j - 1] == c;
        }
      }
      DistinctCard(rest, t - {s[0]});
    }
  }

  /** `colors(background).size`: the list is as long as the set of colours. */
  lemma FirstMetSize(g: Raster, background: Color)
    ensures |FirstMet(g, background)| == |ColorsOf(g, background)|
  {
    forall c
      ensures c in FirstMet(g, background) <==> c in ColorsOf(g, background)
    {
      FirstMetMembers(g, background, c);
    }
    DistinctCard(FirstMet(g, background), ColorsOf(g, background));
  }

  /**
   * `monochrome` throws on a grid with more than one colour besides black,
   * before its child runs; otherwise it paints the child's image of the mask
   * with that colour, blue when the grid has none.
   */
  lemma MonochromeColors(f: Worker, g: Raster)
    ensures |ColorsOf(g, Black)| > 1 ==> MonochromeRun(f, g) == Throw("not-a-monochrome-image")
    ensures |ColorsOf(g, Black)| <= 1 && f(MonochromeMask(g)).outcome.Built? ==>
      MonochromeRun(f, g).outcome.Built? &&
      var img := MonochromeRun(f, g).outcome.value;
      img.MonochromeColor? && img.image == f(MonochromeMask(g)).outcome.value
      && (ColorsOf(g, Black) == {} ==> img.color == Blue)
      && (ColorsOf(g, Black) != {} ==> ColorsOf(g, Black) == {img.color})
  {
    FirstMetSize(g, Black);
    var colors := FirstMet(g, Black);
    if |colors| == 1 {
      FirstMetMembers(g, Black, colors[0]);
      forall c | c in ColorsOf(g, Black)
        ensures c == colors[0]
      {
        FirstMetMembers(g, Black, c);
      }
    }
  }

  /** `solid_color` throws on a grid of more than one colour; otherwise it holds that colour, `undefined` for none. */
  lemma SolidColorColors(g: Raster)
    ensures |ColorsOf(g, Undefined)| > 1 ==> SolidColorRun(g) == Throw("not-a-solid-color")
    ensures |ColorsOf(g, Undefined)| == 0 ==> SolidColorRun(g) == Pure(SolidColor(Undefined))
    ensures |ColorsOf(g, Undefined)| == 1 ==>
      exists c :: ColorsOf(g, Undefined) == {c} && SolidColorRun(g) == Pure(SolidColor(c))
  {
    FirstMetSize(g, Undefined);
    var colors := FirstMet(g, Undefined);
    if |colors| == 1 {
      FirstMetMembers(g, Undefined, colors[0]);
      forall c | c in ColorsOf(g, Undefined)
        ensures c == colors[0]
      {
        FirstMetMembers(g, Undefined, c);
      }
      assert ColorsOf(g, Undefined) == {colors[0]};
    }
  }

  /**
   * Given no colour, `background` takes the most frequent colour of the
   * grid, the first met among equals, and `undefined` for a grid without
   * colours.
   */
  lemma AutoBackgroundIsMostFrequent(g: Raster)
    ensures ColorsOf(g, Undefined) == {} ==> AutoBackground(g) == Undefined
    ensures ColorsOf(g, Undefined) != {} ==>
      var b := AutoBackground(g);
      b in ColorsOf(g, Undefined)
      && (forall c :: c in ColorsOf(g, Undefined) ==> Occurrences(g, c) <= Occurrences(g, b))
      && forall i, j :: 0 <= j < i < |FirstMet(g, Undefined)| && FirstMet(g, Undefined)[i] == b ==>
        Occurrences(g, FirstMet(g, Undefined)[j]) < Occurrences(g, b)
  {
    var colors := FirstMet(g, Undefined);
    FirstMetSize(g, Undefined);
    forall c
      ensures c in colors <==> c in ColorsOf(g, Undefined)
    {
      FirstMetMembers(g, Undefined, c);
    }
    if |colors| > 0 {
      var f := Frequency(g);
      M.FirstArgMaxIsFirstMaximum(colors, f);
      var k := M.FirstArgMax(colors, f);
      assert AutoBackground(g) == colors[k];
      forall c | c in ColorsOf(g, Undefined)
        ensures Occurrences(g, c) <= Occurrences(g, colors[k])
      {
        var j :| 0 <= j < |colors| && colors[j] == c;
        assert f(colors[j]) <= f(colors[k]);
      }
      forall i, j | 0 <= j < i < |colors| && colors[i] == colors[k]
        ensures Occurrences(g, colors[j]) < Occurrences(g, colors[k])
      {
        assert i == k;
        assert f(colors[j]) < f(colors[k]);
      }
    }
  }

  /** `color_decomposition` visits the colours other than black once each, in increasing order. */
  lemma LayerColorsAreTheColors(g: Raster)
    ensures Increasing(LayerColors(g))
    ensures forall c :: c in LayerColors(g) <==> c in ColorsOf(g, Black)
  {
    forall c
      ensures c in LayerColors(g) <==> c in ColorsOf(g, Black)
    {
      FirstMetMembers(g, Black, c);
    }
  }

  /**
   * When `color_decomposition` builds, it holds one layer per colour, in
   * increasing order of colour, each painting the child's image of that
   * colour's mask; there are at most 30 of them.
   */
  lemma ColorDecompositionLayers(f: Worker, g: Raster)
    requires ColorDecompositionRun(f, g).outcome.Built?
    ensures var img := ColorDecompositionRun(f, g).outcome.value;
      var colors := LayerColors(g);
      img.SubImages? && img.mode == Free && img.gridColor == Black && !img.fixedSize
      && |img.parts| == |colors| <= 30
      && forall i :: 0 <= i < |colors| ==>
        img.parts[i].MonochromeColor? && img.parts[i].color == colors[i]
        && f(LayerMask(g, colors[i])).outcome == Built(img.parts[i].image)
  {
    var colors := LayerColors(g);
    var w := (color: Color) => Layer(f, g, color);
    var layers := Each(w, colors);
    assert layers.outcome.Built?;
    forall i | 0 <= i < |colors|
      ensures layers.outcome.value[i].MonochromeColor? && layers.outcome.value[i].color == colors[i]
      ensures f(LayerMask(g, colors[i])).outcome == Built(layers.outcome.value[i].image)
    {
      EachBuilt(w, colors, i);
    }
  }

  /** The branch `FirstSuccess` settles on: every branch throwing gives "Can't decompose image", else the first that does not throw. */
  lemma {:induction false} FirstSuccessPicks(fs: seq<Worker>, g: Raster, i: nat)
    ensures (forall j :: i <= j < |fs| ==> fs[j](g).outcome.Thrown?) ==>
      FirstSuccess(fs, g, i).outcome == Thrown("Can't decompose image")
    ensures forall k :: i <= k < |fs| && !fs[k](g).outcome.Thrown? && (forall j :: i <= j < k ==> fs[j](g).outcome.Thrown?) ==>
      FirstSuccess(fs, g, i).outcome == fs[k](g).outcome
  {
    if forall j :: i <= j < |fs| ==> fs[j](g).outcome.Thrown? {
      AllThrownFails(fs, g, i);
    }
    forall k | i <= k < |fs| && !fs[k](g).outcome.Thrown? && (forall j :: i <= j < k ==> fs[j](g).outcome.Thrown?)
      ensures FirstSuccess(fs, g, i).outcome == fs[k](g).outcome
    {
      FirstSuccessAt(fs, g, i, k);
    }
  }

  /** When every branch from i on throws, the combinator throws "Can't decompose image". */
  lemma {:induction false} AllThrownFails(fs: seq<Worker>, g: Raster, i: nat)
    requires forall j :: i <= j < |fs| ==> fs[j](g).outcome.Thrown?
    ensures FirstSuccess(fs, g, i).outcome == Thrown("Can't decompose image")
    decreases |fs| - i
  {
    if i < |fs| {
      FirstSuccessStep(fs, g, i);
      AllThrownFails(fs, g, i + 1);
    }
  }

  /** The first branch from i on that does not throw gives the outcome. */
  lemma {:induction false} FirstSuccessAt(fs: seq<Worker>, g: Raster, i: nat, k: nat)
    requires i <= k < |fs| && !fs[k](g).outcome.Thrown?
    requires forall j :: i <= j < k ==> fs[j](g).outcome.Thrown?
    ensures FirstSuccess(fs, g, i).outcome == fs[k](g).outcome
    decreases k - i
  {
    FirstSuccessStep(fs, g, i);
    if i < k {
      FirstSuccessAt(fs, g, i + 1, k);
    }
  }

  /** One branch less: the branch's own outcome unless it threw, else the outcome of the branches after it. */
  lemma FirstSuccessStep(fs: seq<Worker>, g: Raster, i: nat)
    requires i < |fs|
    ensures FirstSuccess(fs, g, i).outcome
      == if fs[i](g).outcome.Thrown? then FirstSuccess(fs, g, i + 1).outcome else fs[i](g).outcome
  {
  }

  /** What one branch leaves in the list of `alternatives`: its image, or `undefined` when it threw. */
  function Slot(o: Outcome<Image>): Image
  {
    if o.Built? then o.value else Absent
  }

  predicate AllModelled(fs: seq<Worker>, g: Raster)
  {
    forall j :: 0 <= j < |fs| ==> !fs[j](g).outcome.Unmodelled?
  }

  /** The branches of `alternatives` from i on: one slot each, and a mark on exactly those that threw. */
  lemma AlternativesFromSlots(fs: seq<Worker>, g: Raster, i: nat)
    requires i <= |fs| && AllModelled(fs, g)
    ensures var r := AlternativesFrom(fs, g, i);
      r.outcome.Built? && |r.outcome.value| == |fs| - i
      && (forall j :: i <= j < |fs| ==> r.outcome.value[j - i] == Slot(fs[j](g).outcome))
      && (forall p: Path :: p in r.marks ==> p[0].Item? && i <= p[0].index)
      && (forall j :: i <= j < |fs| ==> ([Item(j)] in r.marks <==> fs[j](g).outcome.Thrown?))
  {
    AlternativesFromValues(fs, g, i);
    AlternativesFromMarks(fs, g, i);
  }

  /** The slots of `alternatives` from i on: what each branch built, `Absent` for the others. */
  lemma {:induction false} AlternativesFromValues(fs: seq<Worker>, g: Raster, i: nat)
    requires i <= |fs| && AllModelled(fs, g)
    ensures var r := AlternativesFrom(fs, g, i);
      r.outcome.Built? && |r.outcome.value| == |fs| - i
      && (forall j :: i <= j < |fs| ==> r.outcome.value[j - i] == Slot(fs[j](g).outcome))
    decreases |fs| - i
  {
    if i < |fs| {
      AlternativesFromValues(fs, g, i + 1);
    }
  }

  /** The marks of `alternatives` from i on: under branches i and later, and a bare mark on each branch that threw. */
  lemma {:induction false} AlternativesFromMarks(fs: seq<Worker>, g: Raster, i: nat)
    requires i <= |fs| && AllModelled(fs, g)
    ensures var r := AlternativesFrom(fs, g, i);
      (forall p: Path :: p in r.marks ==> p[0].Item? && i <= p[0].index)
      && (forall j :: i <= j < |fs| ==> ([Item(j)] in r.marks <==> fs[j](g).outcome.Thrown?))
    decreases |fs| - i
  {
    if i < |fs| {
      AlternativesFromMarks(fs, g, i + 1);
      var r := fs[i](g);
      var rest := AlternativesFrom(fs, g, i + 1);
      var under := Under(Item(i), r.marks);
      assert [Item(i)] !in under;
      assert [Item(i)] !in rest.marks;
      forall j | i < j < |fs|
        ensures [Item(j)] !in under
      {
      }
    }
  }

  lemma {:induction false} AlternativesFromNeverThrows(fs: seq<Worker>, g: Raster, i: nat)
    ensures !AlternativesFrom(fs, g, i).outcome.Thrown?
    decreases |fs| - i
  {
    if i < |fs| {
      AlternativesFromNeverThrows(fs, g, i + 1);
    }
  }

  /** The name "alternatives" selects the last case of the switch. */
  lemma AlternativesName()
    ensures KindOf("alternatives") == AlternativesKind
  {
    assert "alternatives" != "image_window";
    assert "alternatives" != "scaled";
    assert "alternatives" != "tile";
    assert "alternatives" != "tile_x";
    assert "alternatives" != "tile_y";
    assert "alternatives" != "transform";
    assert "alternatives" != "trim_object";
    assert "alternatives" != "trim_object_center";
    assert "alternatives" != "monochrome";
    assert "alternatives" != "background";
    assert "alternatives" != "complement";
    assert "alternatives" != "centered";
    assert "alternatives" != "basic_grid";
    assert "alternatives" != "semantic_box";
    assert "alternatives" != "solid_color";
    assert "alternatives" != "pixel_grid";
    assert "alternatives" != "object_list";
    assert "alternatives" != "object_list2";
    assert "alternatives" != "block_list";
    assert "alternatives" != "color_decomposition";
    assert "alternatives" != "monochrome_object_list";
    assert "alternatives" != "monochrome_object_list2";
    assert "alternatives" != "horizontal_decomposition";
    assert "alternatives" != "find_master_grid";
    assert "alternatives" != "master_grid";
    assert "alternatives" != "master_grid2";
    assert "alternatives" != "simple_abstraction";
    assert "alternatives" != "monochrome_object_list_abstraction";
    assert "alternatives" != "monochrome_decomposition_abstraction";
    assert "alternatives" != "add_info";
  }

  /** The dispatch of an `alternatives` node. */
  lemma ApplyAlternatives(d: D.Decomposer, g: Raster, blocks: Raster -> seq<Raster>)
    requires KindOf(d.name) == AlternativesKind
    ensures d.decomposers.Unlisted? ==> Apply(d, g, blocks) == Throw(TypeError)
    ensures d.decomposers.Listed? ==> Apply(d, g, blocks) == AlternativesRun(Branches(d.decomposers, blocks), g)
  {
  }

  /** `alternatives` never throws: whatever its branches do, it builds or is not followed. */
  lemma AlternativesNeverThrow(fs: seq<Worker>, g: Raster)
    ensures !AlternativesRun(fs, g).outcome.Thrown?
  {
    AlternativesFromNeverThrows(fs, g, 0);
  }

  /** Branch j of a list, on grid g, is the run of its j-th description. */
  lemma BranchesRun(l: D.List, blocks: Raster -> seq<Raster>, g: Raster)
    requires l.Listed?
    ensures forall j :: 0 <= j < |l.items| ==> Branches(l, blocks)[j](g) == Apply(l.items[j], g, blocks)
  {
  }

  /** `alternatives` over branches that are all followed: one slot per branch, and a mark on exactly those that threw. */
  lemma AlternativesRunSlots(fs: seq<Worker>, g: Raster)
    requires AllModelled(fs, g)
    ensures var r := AlternativesRun(fs, g);
      r.outcome.Built? && r.outcome.value.Alternatives? && |r.outcome.value.alternatives| == |fs|
      && (forall j :: 0 <= j < |fs| ==> r.outcome.value.alternatives[j] == Slot(fs[j](g).outcome))
      && forall j :: 0 <= j < |fs| ==> ([Item(j)] in r.marks <==> fs[j](g).outcome.Thrown?)
  {
    AlternativesFromSlots(fs, g, 0);
    var from := AlternativesFrom(fs, g, 0);
    assert AlternativesRun(fs, g) == Run(Built(Alternatives(from.outcome.value)), from.marks);
  }

  /** An `alternatives` node keeps one slot per branch, `undefined` where the branch threw. */
  lemma AlternativesSlots(d: D.Decomposer, g: Raster, blocks: Raster -> seq<Raster>)
    requires d.name == "alternatives" && d.decomposers.Listed?
    requires forall j :: 0 <= j < |d.decomposers.items| ==> !Apply(d.decomposers.items[j], g, blocks).outcome.Unmodelled?
    ensures var r := Apply(d, g, blocks);
      var items := d.decomposers.items;
      r.outcome.Built? && r.outcome.value.Alternatives? && |r.outcome.value.alternatives| == |items|
      && forall j :: 0 <= j < |items| ==> r.outcome.value.alternatives[j] == Slot(Apply(items[j], g, blocks).outcome)
  {
    var fs := Branches(d.decomposers, blocks);
    BranchesRun(d.decomposers, blocks, g);
    AlternativesName();
    ApplyAlternatives(d, g, blocks);
    AlternativesRunSlots(fs, g);
  }

  /**
   * After an `alternatives` node has run, exactly the branches that threw
   * carry `failed = true`, besides those that already did.
   */
  lemma AlternativesRecordFailures(d: D.Decomposer, g: Raster, blocks: Raster -> seq<Raster>)
    requires d.name == "alternatives" && d.decomposers.Listed?
    requires forall j :: 0 <= j < |d.decomposers.items| ==> !Apply(d.decomposers.items[j], g, blocks).outcome.Unmodelled?
    ensures var items := d.decomposers.items;
      forall j :: 0 <= j < |items| ==>
        Marked(d, Apply(d, g, blocks).marks, []).decomposers.items[j].failed
          == if Apply(items[j], g, blocks).outcome.Thrown? then Some(true) else items[j].failed
  {
    var fs := Branches(d.decomposers, blocks);
    BranchesRun(d.decomposers, blocks, g);
    AlternativesName();
    ApplyAlternatives(d, g, blocks);
    AlternativesRunSlots(fs, g);
    MarkedItems(d, AlternativesRun(fs, g).marks);
  }

  /** Marking from the root writes `failed = true` on item j of the root's list exactly when the path to it is marked. */
  lemma MarkedItems(d: D.Decomposer, marks: set<seq<Step>>)
    requires d.decomposers.Listed?
    ensures forall j :: 0 <= j < |d.decomposers.items| ==>
      Marked(d, marks, []).decomposers.items[j].failed
        == if [Item(j)] in marks then Some(true) else d.decomposers.items[j].failed
  {
    var items := d.decomposers.items;
    forall j | 0 <= j < |items|
      ensures Marked(d, marks, []).decomposers.items[j].failed
        == if [Item(j)] in marks then Some(true) else items[j].failed
    {
      assert [] + [Item(j)] == [Item(j)];
      assert Marked(d, marks, []).decomposers.items[j] == Marked(items[j], marks, [Item(j)]);
    }
  }

  /** A path that begins with `at`. */
  predicate Below(p: seq<Step>, at: seq<Step>)
  {
    |at| <= |p| && p[..|at|] == at
  }

  /** Marking changes nothing below a node that no mark reaches. */
  lemma {:induction false} UnmarkedKept(d: D.Decomposer, marks: set<seq<Step>>, at: seq<Step>)
    requires forall p :: p in marks ==> !Below(p, at)
    ensures Marked(d, marks, at) == d
    decreases d
  {
    assert Below(at, at);
    forall step: Step
      ensures forall p :: p in marks ==> !Below(p, at + [step])
    {
      forall p | p in marks && Below(p, at + [step])
        ensures false
      {
      }
    }
    if d.decomposer.Some? {
      UnmarkedKept(d.decomposer.value, marks, at + [Down]);
    }
    if d.decomposer2.Some? {
      UnmarkedKept(d.decomposer2.value, marks, at + [Second]);
    }
    if d.decomposers.Listed? {
      var items := d.decomposers.items;
      forall i | 0 <= i < |items|
        ensures Marked(items[i], marks, at + [Item(i)]) == items[i]
      {
        UnmarkedKept(items[i], marks, at + [Item(i)]);
      }
      assert MarkedList(d.decomposers, marks, at).items == items;
    }
  }

  /** `basic_grid` loses nothing: drawing its image gives the grid back. */
  lemma BasicGridDecomposesLosslessly(g: Raster, blocks: Raster -> seq<Raster>)
    requires g.width > 0
    ensures Apply(D.BasicGrid(), g, blocks).outcome.Built?
    ensures Compiles(Apply(D.BasicGrid(), g, blocks).outcome.value)
    ensures Rasterize(Apply(D.BasicGrid(), g, blocks).outcome.value) == g
  {
    BasicGridName();
    ApplyBasicGrid(D.BasicGrid(), g, blocks);
    BasicGridRoundTrip(g);
  }

  lemma BasicGridName()
    ensures KindOf("basic_grid") == BasicGridKind
  {
  }

  /** The dispatch of a `basic_grid` node: the basic image of the grid, nothing marked. */
  lemma ApplyBasicGrid(d: D.Decomposer, g: Raster, blocks: Raster -> seq<Raster>)
    requires KindOf(d.name) == BasicGridKind
    ensures Apply(d, g, blocks) == Pure(BasicImage(Flatten(g), g.width))
  {
  }

  /** The row grids are those of the non-empty rows, and nothing else. */
  lemma {:induction false} RowGridsMembers(r: Raster, y0: nat, s: Raster)
    ensures s in RowGrids(r, y0) <==> exists y :: y0 <= y < r.height && !RowEmpty(r, y) && s == RowOnly(r, y)
    decreases r.height - y0
  {
    if y0 < r.height {
      RowGridsMembers(r, y0 + 1, s);
    }
  }

  /** When `horizontal_decomposition` builds, part i is the child's image of the i-th non-empty row. */
  lemma HorizontalRows(f: Worker, g: Raster)
    requires HorizontalRun(f, g).outcome.Built?
    ensures var img := HorizontalRun(f, g).outcome.value;
      img == SubImages(img.parts, Free, Black, false) && |img.parts| == |RowGrids(g, 0)| <= 30
      && forall i :: 0 <= i < |img.parts| ==> f(RowGrids(g, 0)[i]).outcome == Built(img.parts[i])
  {
    var rows := RowGrids(g, 0);
    forall i | 0 <= i < |rows|
      ensures f(rows[i]).outcome == Built(Each(f, rows).outcome.value[i])
    {
      EachBuilt(f, rows, i);
    }
  }

  lemma HorizontalName()
    ensures KindOf("horizontal_decomposition") == HorizontalKind
  {
  }

  /** `horizontal_decomposition` runs its child once per non-empty row and never sets `fixed_size`, whatever the description holds. */
  lemma HorizontalIgnoresFixedSize(d: D.Decomposer, fixedSize: bool, g: Raster, blocks: Raster -> seq<Raster>)
    requires Apply(D.HorizontalDecomposition(d, fixedSize), g, blocks).outcome.Built?
    ensures var img := Apply(D.HorizontalDecomposition(d, fixedSize), g, blocks).outcome.value;
      img.SubImages? && !img.fixedSize && |img.parts| == |RowGrids(g, 0)|
  {
    var h := D.HorizontalDecomposition(d, fixedSize);
    HorizontalName();
    assert KindOf(h.name) == HorizontalKind;
    var f := Child(h.decomposer, Down, blocks);
    assert Apply(h, g, blocks) == HorizontalRun(f, g);
    HorizontalRows(f, g);
  }

  /** The corners of the cells are those the two loops of `master_grid2` visit on a 4 x 4 grid with 2 x 2 cells, and so are their tags. */
  lemma SplitExample()
    ensures Corners(4, 4, 2, 2) == [(0, 0), (2, 0), (0, 2), (2, 2)]
    ensures SplitTags(4, 4, 2, 2, 3, 2, 2) == [Finite(3.0), Finite(1.0), Finite(1.0), Finite(1.0), Finite(1.0)]
    ensures SplitTags(4, 4, 4, 4, 0, 0, 0) == [Finite(0.0), Finite(0.0), Finite(0.0), NaN, NaN]
  {
    assert RowCorners(4, 2, 0, 4) == [];
    assert RowCorners(4, 2, 0, 0) == [(0, 0), (2, 0)];
    assert RowCorners(4, 2, 2, 4) == [];
    assert RowCorners(4, 2, 2, 0) == [(0, 2), (2, 2)];
    assert CornersFrom(4, 4, 2, 2, 4) == [];
    assert CornersFrom(4, 4, 2, 2, 2) == [(0, 2), (2, 2)];
  }

  /** A cell that builds lies inside the grid and holds the child's image of its window, placed at its corner and tagged. */
  lemma SplitCellBuilt(f: Worker, g: Raster, nx: int, ny: int, k: int, x0: int, y0: int)
    requires nx > 0 && ny > 0 && 0 <= x0 && 0 <= y0
    requires SplitCellRun(f, g, nx, ny, k, x0, y0).outcome.Built?
    ensures y0 + ny <= g.height
    ensures var c := f(Sub(g, x0, y0, x0 + nx, y0 + ny)).outcome;
      c.Built? && Compiles(c.value) && Bounds(c.value).Box?
      && SplitCellRun(f, g, nx, ny, k, x0, y0).outcome.value
        == ImageData(SplitTags(g.width, g.height, nx, ny, k, x0, y0), MakeTranslation(x0, y0, c.value, Zero, Zero))
  {
  }

  /** Every corner lies inside the grid. */
  lemma CornerInside(w: int, h: int, nx: int, ny: int, k: int)
    requires nx > 0 && ny > 0 && 0 <= k < |Corners(w, h, nx, ny)|
    ensures 0 <= Corners(w, h, nx, ny)[k].0 < w && 0 <= Corners(w, h, nx, ny)[k].1 < h
  {
    var p := Corners(w, h, nx, ny)[k];
    CornersMembers(w, h, nx, ny, p.0, p.1);
  }

  /** When the cells build, cell k is what the cell worker made of the k-th corner. */
  lemma SplitRunCell(f: Worker, g: Raster, nx: int, ny: int, k: int)
    requires nx > 0 && ny > 0 && SplitRun(f, g, nx, ny).outcome.Built?
    requires 0 <= k < |Corners(g.width, g.height, nx, ny)|
    ensures var p := Corners(g.width, g.height, nx, ny)[k];
      SplitCellRun(f, g, nx, ny, k, p.0, p.1).outcome == Built(SplitRun(f, g, nx, ny).outcome.value[k])
  {
    var corners := Corners(g.width, g.height, nx, ny);
    EachBuilt(CellWorker(f, g, nx, ny), Numbered(corners), k);
    assert Numbered(corners)[k] == (k, corners[k]);
  }

  /** Cell k of `master_grid`, at corner p, is the child's image of the window there, translated to p and tagged. */
  predicate SplitCell(f: Worker, g: Raster, nx: int, ny: int, k: int, p: (int, int), cell: Image)
  {
    && 0 <= p.0 && 0 <= p.1 && p.1 + ny <= g.height && nx >= 0 && ny >= 0
    && var c := f(Sub(g, p.0, p.1, p.0 + nx, p.1 + ny)).outcome;
    && c.Built? && Compiles(c.value) && Bounds(c.value).Box?
    && cell == ImageData(SplitTags(g.width, g.height, nx, ny, k, p.0, p.1), MakeTranslation(p.0, p.1, c.value, Zero, Zero))
  }

  /** When the cells of `master_grid` build, cell k is the child's image of the window at the k-th corner, placed there and tagged. */
  lemma SplitRunCells(f: Worker, g: Raster, nx: int, ny: int, k: int)
    requires nx > 0 && ny > 0 && SplitRun(f, g, nx, ny).outcome.Built?
    requires 0 <= k < |Corners(g.width, g.height, nx, ny)|
    ensures |SplitRun(f, g, nx, ny).outcome.value| == |Corners(g.width, g.height, nx, ny)|
    ensures SplitCell(f, g, nx, ny, k, Corners(g.width, g.height, nx, ny)[k], SplitRun(f, g, nx, ny).outcome.value[k])
  {
    var corners := Corners(g.width, g.height, nx, ny);
    var p := corners[k];
    CornerInside(g.width, g.height, nx, ny, k);
    SplitRunCell(f, g, nx, ny, k);
    SplitCellBuilt(f, g, nx, ny, k, p.0, p.1);
  }

  /** On a grid whose height is not a multiple of ny, the last row of cells reaches below the grid and the split throws. */
  lemma RaggedSplitFails(f: Worker, g: Raster, nx: int, ny: int)
    requires nx > 0 && ny > 0 && g.width > 0 && g.height % ny != 0
    ensures !SplitRun(f, g, nx, ny).outcome.Built?
  {
    var h := g.height;
    var last := (h / ny) * ny;
    assert h == (h / ny) * ny + h % ny;
    assert last % ny == 0 by {
      DivOfBlock(last, h / ny, ny);
    }
    CornersMembers(g.width, h, nx, ny, 0, last);
    var corners := Corners(g.width, h, nx, ny);
    if SplitRun(f, g, nx, ny).outcome.Built? {
      var k :| 0 <= k < |corners| && corners[k] == (0, last);
      SplitRunCells(f, g, nx, ny, k);
      assert false;
    }
  }

  /** `master_grid2` with a zero size throws before any child runs; otherwise it lays its cells out freely, without a fixed size. */
  lemma MasterGrid2Shape(nx: int, ny: int, f: Worker, g: Raster)
    ensures nx == 0 || ny == 0 ==> MasterGrid2Run(Some(nx), Some(ny), f, g) == Throw("master_grid() does not work")
    ensures MasterGrid2Run(Some(nx), Some(ny), f, g).outcome.Built? ==>
      nx > 0 && ny > 0 && MasterGrid2Run(Some(nx), Some(ny), f, g).outcome.value
        == SubImages(SplitRun(f, g, nx, ny).outcome.value, Free, Black, false)
  {
  }
}
