/**
 * `ImageCompilation.generate_grid` (lib/ConcreteImage.ts:41-53): the grid
 * an image draws, and how the image combinators act on that grid.
 */
module ImageRasters {
  import opened Colors
  import opened Transforms
  import opened GridValues
  import opened GridDrawing
  import opened GridShape
  import opened Grids
  import opened ConcreteImages

  /** `x1 - x0`, as the number of columns `new Grid` makes (none when it is not positive). */
  function Width(b: Box): nat
  {
    if b.Box? && b.x1 > b.x0 then b.x1 - b.x0 else 0
  }

  function Height(b: Box): nat
  {
    if b.Box? && b.y1 > b.y0 then b.y1 - b.y0 else 0
  }

  /** The colour `generate_grid` writes at cell (x, y): the centre of cell (x0 + x, y0 + y). */
  function RasterCell(img: Image, x: int, y: int): Color
    requires Compiles(img)
  {
    var b := Bounds(img);
    if b.Box? then Pixel(img, b.x0 + x, b.y0 + y) else Black
  }

  /** `compile().generate_grid()`. */
  function Rasterize(img: Image): (r: Raster)
    requires Compiles(img)
    ensures r.width == Width(Bounds(img)) && r.height == Height(Bounds(img))
    ensures forall x, y :: Inside(r, x, y) ==> At(r, x, y) == RasterCell(img, x, y)
  {
    FromFunction(Width(Bounds(img)), Height(Bounds(img)), (x, y) => RasterCell(img, x, y))
  }

  /** The grid is (x1 - x0) x (y1 - y0) and its cell (x, y) is `at(x0 + x + 0.5, y0 + y + 0.5)`. */
  lemma RasterizeAt(img: Image, x: int, y: int)
    requires Compiles(img) && Inside(Rasterize(img), x, y)
    ensures Bounds(img).Box?
    ensures Rasterize(img).width == Bounds(img).x1 - Bounds(img).x0
    ensures Rasterize(img).height == Bounds(img).y1 - Bounds(img).y0
    ensures At(Rasterize(img), x, y) == Sample(img, 2 * (Bounds(img).x0 + x) + 1, 2 * (Bounds(img).y0 + y) + 1)
  {
  }

  /** `generate_grid`: a fresh grid filled column by column. */
  method GenerateGrid(img: Image) returns (g: Grid)
    requires Compiles(img)
    ensures fresh(g) && fresh(g.cells) && g.Valid()
    ensures g.Value() == Rasterize(img)
  {
    var b := Bounds(img);
    var w, h := Width(b), Height(b);
    g := new Grid(w, h, Black);
    ghost var r := Rasterize(img);
    var x := 0;
    while x < w
      invariant 0 <= x <= w && g.Valid() && fresh(g.cells) && g.width == w && g.height == h
      invariant forall a, c :: 0 <= a < x && 0 <= c < h ==> g.cells[c, a] == At(r, a, c)
    {
      FillColumn(img, g, x);
      x := x + 1;
    }
    g.ValueIs(r);
  }

  /** The inner loop of `generate_grid`: column x of the grid, top to bottom. */
  method FillColumn(img: Image, g: Grid, x: int)
    requires Compiles(img) && g.Valid()
    requires g.width == Width(Bounds(img)) && g.height == Height(Bounds(img)) && 0 <= x < g.width
    modifies g.cells
    ensures forall a, c :: 0 <= a < g.width && 0 <= c < g.height ==>
      g.cells[c, a] == if a == x then RasterCell(img, a, c) else old(g.cells[c, a])
  {
    var b := Bounds(img);
    var y := 0;
    while y < g.height
      invariant 0 <= y <= g.height
      invariant forall a, c :: 0 <= a < g.width && 0 <= c < g.height ==>
        g.cells[c, a] == if a == x && c < y then RasterCell(img, a, c) else old(g.cells[c, a])
    {
      g.cells[y, x] := Sample(img, 2 * (b.x0 + x) + 1, 2 * (b.y0 + y) + 1);
      y := y + 1;
    }
  }

  // ------------------------------------------------------------ basic images

  /** A `BasicImage` draws its list row by row at its stride: `undefined` past the end of the list. */
  lemma BasicImageRaster(cells: seq<Color>, stride: int, x: int, y: int)
    requires stride > 0
    ensures Rasterize(BasicImage(cells, stride)).width == stride
    ensures Rasterize(BasicImage(cells, stride)).height == RowsOf(|cells|, stride)
    ensures Inside(Rasterize(BasicImage(cells, stride)), x, y) ==>
      At(Rasterize(BasicImage(cells, stride)), x, y) == Read(cells, y * stride + x)
  {
    if Inside(Rasterize(BasicImage(cells, stride)), x, y) {
      assert (2 * x + 1) / 2 == x && (2 * y + 1) / 2 == y;
    }
  }

  /** A basic image reads the same colour anywhere in a cell: its cells have whole-point edges. */
  lemma BasicImageAligned(cells: seq<Color>, stride: int, k: int, m: int)
    requires stride > 0
    ensures Sample(BasicImage(cells, stride), 2 * k, 2 * m) == Sample(BasicImage(cells, stride), 2 * k + 1, 2 * m + 1)
  {
    assert (2 * k + 1) / 2 == k == (2 * k) / 2;
    assert (2 * m + 1) / 2 == m == (2 * m) / 2;
  }

  // ------------------------------------------------------------ symmetries

  /** The size of a grid after a symmetry: swapped when the symmetry swaps the axes. */
  function TransformedWidth(t: Transform, r: Raster): nat
  {
    if KeepsAxes(t) then r.width else r.height
  }

  function TransformedHeight(t: Transform, r: Raster): nat
  {
    if KeepsAxes(t) then r.height else r.width
  }

  /** The cell arithmetic behind `TransformRaster`, one box at a time. */
  lemma TransformCell(t: Transform, b: Box, a: int, c: int)
    requires IsSymmetry(t) && b.Box?
    requires 0 <= a < Width(TransformBox(t, b)) && 0 <= c < Height(TransformBox(t, b))
    ensures var q := PasteSource(Plain(0, 0, t), Width(b), Height(b), a, c);
      0 <= q.0 < Width(b) && 0 <= q.1 < Height(b)
      && CellX(t, TransformBox(t, b).x0 + a, TransformBox(t, b).y0 + c) == b.x0 + q.0
      && CellY(t, TransformBox(t, b).x0 + a, TransformBox(t, b).y0 + c) == b.y0 + q.1
  {
  }

  /** A grid cell is the pixel at the same offset from the top-left corner of the bounds. */
  lemma RasterCellPixel(img: Image, b: Box, x: int, y: int)
    requires Compiles(img) && b == Bounds(img) && b.Box?
    ensures RasterCell(img, x, y) == Pixel(img, b.x0 + x, b.y0 + y)
  {
  }

  lemma TransformBounds(t: Transform, c: Image)
    requires IsSymmetry(t) && Compiles(c)
    ensures Bounds(ImageTransformation(t, c)) == TransformBox(t, Bounds(c))
    ensures TransformBox(t, Bounds(c)).Box? == Bounds(c).Box?
  {
  }

  /** One cell of a transformed image's grid is the child's pixel at the mirrored cell (u, v). */
  lemma TransformRasterPixel(t: Transform, c: Image, a: int, d: int, u: int, v: int)
    requires IsSymmetry(t) && Compiles(c) && Bounds(c).Box?
    requires var tb := TransformBox(t, Bounds(c));
      u == CellX(t, tb.x0 + a, tb.y0 + d) && v == CellY(t, tb.x0 + a, tb.y0 + d)
    ensures RasterCell(ImageTransformation(t, c), a, d) == Pixel(c, u, v)
  {
    var img, tb := ImageTransformation(t, c), TransformBox(t, Bounds(c));
    var x, y := tb.x0 + a, tb.y0 + d;
    assert Bounds(img) == tb by {
      TransformBounds(t, c);
    }
    assert Pixel(img, x, y) == Pixel(c, u, v) by {
      TransformPixel(t, c, x, y);
    }
    RasterCellFrom(img, a, d, x, y, Pixel(c, u, v));
  }

  /** A grid cell whose pixel is known. */
  lemma RasterCellFrom(img: Image, a: int, d: int, x: int, y: int, p: Color)
    requires Compiles(img) && Bounds(img).Box? && x == Bounds(img).x0 + a && y == Bounds(img).y0 + d
    requires Pixel(img, x, y) == p
    ensures RasterCell(img, a, d) == p
  {
  }

  /** One cell of a transformed image: the child's cell that the paste of the same symmetry reads. */
  lemma TransformRasterSource(t: Transform, c: Image, a: int, d: int)
    requires IsSymmetry(t) && Compiles(c) && Bounds(c).Box?
    requires 0 <= a < Width(TransformBox(t, Bounds(c))) && 0 <= d < Height(TransformBox(t, Bounds(c)))
    ensures var q := PasteSource(Plain(0, 0, t), Width(Bounds(c)), Height(Bounds(c)), a, d);
      0 <= q.0 < Width(Bounds(c)) && 0 <= q.1 < Height(Bounds(c))
      && RasterCell(ImageTransformation(t, c), a, d) == RasterCell(c, q.0, q.1)
  {
    var b := Bounds(c);
    var q := PasteSource(Plain(0, 0, t), Width(b), Height(b), a, d);
    TransformCell(t, b, a, d);
    TransformRasterFrom(t, c, b, a, d, q.0, q.1);
  }

  /** A transformed image's cell (a, d) is the child's cell that the mirrored pixel lies in. */
  lemma TransformRasterFrom(t: Transform, c: Image, b: Box, a: int, d: int, qx: int, qy: int)
    requires IsSymmetry(t) && Compiles(c) && b == Bounds(c) && b.Box?
    requires CellX(t, TransformBox(t, b).x0 + a, TransformBox(t, b).y0 + d) == b.x0 + qx
    requires CellY(t, TransformBox(t, b).x0 + a, TransformBox(t, b).y0 + d) == b.y0 + qy
    ensures RasterCell(ImageTransformation(t, c), a, d) == RasterCell(c, qx, qy)
  {
    var u, v := b.x0 + qx, b.y0 + qy;
    assert RasterCell(c, qx, qy) == Pixel(c, u, v) by {
      RasterCellFrom(c, qx, qy, u, v, Pixel(c, u, v));
    }
    assert RasterCell(ImageTransformation(t, c), a, d) == Pixel(c, u, v) by {
      TransformRasterPixel(t, c, a, d, u, v);
    }
  }

  /** One cell of a transformed image's grid: the cell `Transformed` gives for the child's grid. */
  lemma TransformRasterCell(t: Transform, c: Image, e: Raster, a: int, d: int)
    requires IsSymmetry(t) && Compiles(c) && Bounds(c).Box?
    requires 0 <= a < Width(TransformBox(t, Bounds(c))) && 0 <= d < Height(TransformBox(t, Bounds(c)))
    ensures RasterCell(ImageTransformation(t, c), a, d) == TransformedCell(e, Rasterize(c), Plain(0, 0, t), a, d)
  {
    TransformRasterSource(t, c, a, d);
    var r := Rasterize(c);
    var q := PasteSource(Plain(0, 0, t), r.width, r.height, a, d);
    assert Inside(r, q.0, q.1);
    assert At(r, q.0, q.1) == RasterCell(c, q.0, q.1);
  }

  /** A transformed image's grid has the child's grid's size, swapped when the symmetry swaps the axes. */
  lemma TransformRasterSize(t: Transform, c: Image)
    requires IsSymmetry(t) && Compiles(c)
    ensures Rasterize(ImageTransformation(t, c)).width == TransformedWidth(t, Rasterize(c))
    ensures Rasterize(ImageTransformation(t, c)).height == TransformedHeight(t, Rasterize(c))
  {
    TransformBounds(t, c);
    TransformBoxSize(t, Bounds(c));
  }

  /** A symmetry keeps a box's sides, swapped when it swaps the axes. */
  lemma TransformBoxSize(t: Transform, b: Box)
    requires IsSymmetry(t)
    ensures Width(TransformBox(t, b)) == if KeepsAxes(t) then Width(b) else Height(b)
    ensures Height(TransformBox(t, b)) == if KeepsAxes(t) then Height(b) else Width(b)
  {
  }

  /**
   * Drawing a transformed image gives the child's grid pasted under the same
   * symmetry into an empty grid of the matching shape: the image algebra and
   * `Grid.paste` agree on all eight symmetries.
   */
  lemma TransformRaster(t: Transform, c: Image)
    requires IsSymmetry(t) && Compiles(c)
    ensures var r := Rasterize(c);
      Rasterize(ImageTransformation(t, c))
        == Paste(Filled(TransformedWidth(t, r), TransformedHeight(t, r), Black), r, Plain(0, 0, t))
  {
    var r := Rasterize(c);
    var e := Filled(TransformedWidth(t, r), TransformedHeight(t, r), Black);
    var p := Plain(0, 0, t);
    var lhs := Rasterize(ImageTransformation(t, c));
    PasteUnderSymmetry(e, r, p);
    var rhs := Transformed(e, r, p);
    TransformRasterSize(t, c);
    TransformBounds(t, c);
    forall a, d | Inside(lhs, a, d)
      ensures At(lhs, a, d) == At(rhs, a, d)
    {
      TransformRasterCell(t, c, e, a, d);
    }
    Extensionality(lhs, rhs);
  }

  // ------------------------------------------------------------ scaling

  /** A half-unit centre divided by a doubled factor lands in the same block as the cell. */
  lemma HalfDiv(n: int, s: int)
    requires s > 0
    ensures (2 * n + 1) / (2 * s) == n / s
  {
    var k := n / s;
    assert k * s <= n < k * s + s;
    assert k * (2 * s) == 2 * (k * s);
    DivOfBlock(2 * n + 1, k, 2 * s);
  }

  /** The cell a scaled grid of factor s draws at x lies in the child grid. */
  lemma BlockInside(x: int, s: int, w: int)
    requires s > 0 && 0 <= x < w * s
    ensures 0 <= x / s < w
  {
    if x / s >= w {
      MulMonotonic(w, x / s, s);
    }
  }

  /** A positive factor keeps the sign of a length. */
  lemma ScaledLength(s: int, w: int)
    requires s > 0
    ensures (s * w > 0) == (w > 0)
    ensures w > 0 ==> s * w == w * s
  {
    if w > 0 {
      MulMonotonic(1, w, s);
    } else {
      MulMonotonic(w, 0, s);
    }
  }

  /** A scaled image keeps its child's top-left corner and stretches the rest. */
  lemma ScaleBounds(s: int, c: Image, g: Color)
    requires s > 0 && Compiles(c) && Bounds(c).Box?
    ensures var b, sb := Bounds(c), Bounds(Scale(s, c, g));
      sb.Box? && sb.x0 == b.x0 && sb.y0 == b.y0
      && sb.x1 - sb.x0 == (if g == NoColor then s * (b.x1 - b.x0) else GridSpan(s, b.x1 - b.x0))
      && sb.y1 - sb.y0 == (if g == NoColor then s * (b.y1 - b.y0) else GridSpan(s, b.y1 - b.y0))
  {
    assert Bounds(Scale(s, c, g)) == ScaledBounds(s, c, g);
  }

  /** A scaled image has bounds exactly when its child has. */
  lemma ScaleHasBounds(s: int, c: Image, g: Color)
    requires s > 0 && Compiles(c)
    ensures Bounds(Scale(s, c, g)).Box? == Bounds(c).Box?
  {
    assert Bounds(Scale(s, c, g)) == ScaledBounds(s, c, g);
  }

  /** How a scaled image reads its child, at any point. */
  lemma ScaleSample(s: int, c: Image, g: Color, X: int, Y: int)
    requires s > 0 && Compiles(c) && Bounds(c).Box?
    ensures var b := Bounds(c);
      Sample(Scale(s, c, g), X, Y) ==
        if g == NoColor then Sample(c, ScaleRead(b.x0, s, X), ScaleRead(b.y0, s, Y))
        else if 2 * b.x0 <= X < 2 * (b.x0 + GridSpan(s, b.x1 - b.x0)) && 2 * b.y0 <= Y < 2 * (b.y0 + GridSpan(s, b.y1 - b.y0)) then
          if OnSeparator(b.x0, s, X) || OnSeparator(b.y0, s, Y) then g
          else Sample(c, ScaleRead(b.x0, s + 1, X), ScaleRead(b.y0, s + 1, Y))
        else Black
  {
    assert Sample(Scale(s, c, g), X, Y) == SampleScaled(s, c, g, X, Y);
  }

  /** How a scaled image with separators reads its child, inside its bounds. */
  lemma ScaleGridSample(s: int, c: Image, g: Color, X: int, Y: int)
    requires s > 0 && Compiles(c) && Bounds(c).Box? && g != NoColor
    requires 2 * Bounds(c).x0 <= X < 2 * (Bounds(c).x0 + GridSpan(s, Bounds(c).x1 - Bounds(c).x0))
    requires 2 * Bounds(c).y0 <= Y < 2 * (Bounds(c).y0 + GridSpan(s, Bounds(c).y1 - Bounds(c).y0))
    ensures var b := Bounds(c);
      Sample(Scale(s, c, g), X, Y) ==
        if OnSeparator(b.x0, s, X) || OnSeparator(b.y0, s, Y) then g
        else Sample(c, ScaleRead(b.x0, s + 1, X), ScaleRead(b.y0, s + 1, Y))
  {
    ScaleSample(s, c, g, X, Y);
  }

  /** The centre of cell x of a scaled grid reads the centre of the child cell of its block. */
  lemma ScaleReadCentre(a: int, s: int, x: int)
    requires s > 0
    ensures ScaleRead(a, s, 2 * (a + x) + 1) == 2 * (a + x / s) + 1
  {
    HalfDiv(x, s);
  }

  /** One cell of a scaled image: the child's cell in the same block. */
  lemma ScaleCell(s: int, c: Image, x: int, y: int)
    requires s > 0 && Compiles(c) && Bounds(c).Box?
    ensures RasterCell(Scale(s, c, NoColor), x, y) == RasterCell(c, x / s, y / s)
  {
    var b := Bounds(c);
    var sc := Scale(s, c, NoColor);
    ScaleBounds(s, c, NoColor);
    var X, Y := 2 * (b.x0 + x) + 1, 2 * (b.y0 + y) + 1;
    calc {
      RasterCell(sc, x, y);
      { RasterCellPixel(sc, Bounds(sc), x, y); }
      Sample(sc, X, Y);
      { ScaleSample(s, c, NoColor, X, Y); }
      Sample(c, ScaleRead(b.x0, s, X), ScaleRead(b.y0, s, Y));
      { ScaleReadCentre(b.x0, s, x); ScaleReadCentre(b.y0, s, y); }
      Sample(c, 2 * (b.x0 + x / s) + 1, 2 * (b.y0 + y / s) + 1);
      { RasterCellPixel(c, b, x / s, y / s); }
      RasterCell(c, x / s, y / s);
    }
  }

  /** One cell of a scaled image's grid is the `Upscale` cell of the child's grid. */
  lemma ScaleRasterCell(s: int, c: Image, x: int, y: int)
    requires s > 0 && Compiles(c) && Inside(Rasterize(Scale(s, c, NoColor)), x, y)
    ensures Upscale(Rasterize(c), s).width == Rasterize(Scale(s, c, NoColor)).width
    ensures Upscale(Rasterize(c), s).height == Rasterize(Scale(s, c, NoColor)).height
    ensures At(Rasterize(Scale(s, c, NoColor)), x, y) == At(Upscale(Rasterize(c), s), x, y)
  {
    var r := Rasterize(c);
    var b := Bounds(c);
    ScaleHasBounds(s, c, NoColor);
    assert b.Box?;
    ScaleBounds(s, c, NoColor);
    ScaledLength(s, b.x1 - b.x0);
    ScaledLength(s, b.y1 - b.y0);
    ScaleCell(s, c, x, y);
    UpscaleAt(r, s, x, y);
  }

  /**
   * `Scale` without a grid colour draws every child cell as an s x s block:
   * the grid it draws is `Upscale` of the child's, so `inv_scale(s)` gives
   * the child's grid back (`InvScaleOfUpscale`).
   */
  lemma ScaleRaster(s: int, c: Image)
    requires s > 0 && Compiles(c)
    ensures Rasterize(Scale(s, c, NoColor)) == Upscale(Rasterize(c), s)
  {
    var r := Rasterize(c);
    var lhs, rhs := Rasterize(Scale(s, c, NoColor)), Upscale(r, s);
    var b := Bounds(c);
    ScaleHasBounds(s, c, NoColor);
    if b.Box? {
      ScaleBounds(s, c, NoColor);
      ScaledLength(s, b.x1 - b.x0);
      ScaledLength(s, b.y1 - b.y0);
      forall x, y | Inside(lhs, x, y)
        ensures At(lhs, x, y) == At(rhs, x, y)
      {
        ScaleRasterCell(s, c, x, y);
      }
    }
    Extensionality(lhs, rhs);
  }

  /** Dividing by a block size stays below the block count. */
  lemma GridBlockInside(x: int, s: int, w: int)
    requires s >= 0 && w > 0 && 0 <= x < w * (s + 1) - 1
    ensures 0 <= x / (s + 1) < w
  {
    BlockInside(x, s + 1, w);
  }

  /** The separator test and the block read at the centre of cell x of a scaled grid. */
  lemma SeparatorCell(a: int, s: int, x: int)
    requires s > 0
    ensures OnSeparator(a, s, 2 * (a + x) + 1) == (x % (s + 1) == s)
    ensures ScaleRead(a, s + 1, 2 * (a + x) + 1) == 2 * (a + x / (s + 1)) + 1
  {
    assert (2 * x + 1) / 2 == x;
    ScaleReadCentre(a, s + 1, x);
  }

  /** A cell of a scaled image on a separator line has the grid colour. */
  lemma ScaleGridSeparator(s: int, c: Image, g: Color, x: int, y: int)
    requires s > 0 && Compiles(c) && g != NoColor && Bounds(c).Box?
    requires 0 <= x < GridSpan(s, Bounds(c).x1 - Bounds(c).x0) && 0 <= y < GridSpan(s, Bounds(c).y1 - Bounds(c).y0)
    requires x % (s + 1) == s || y % (s + 1) == s
    ensures RasterCell(Scale(s, c, g), x, y) == g
  {
    var b := Bounds(c);
    var X, Y := 2 * (b.x0 + x) + 1, 2 * (b.y0 + y) + 1;
    ScaleBounds(s, c, g);
    SeparatorCell(b.x0, s, x);
    SeparatorCell(b.y0, s, y);
    ScaleGridSample(s, c, g, X, Y);
  }

  /** A cell of a scaled image off the separator lines is the child's cell of its block. */
  lemma ScaleGridBlock(s: int, c: Image, g: Color, x: int, y: int)
    requires s > 0 && Compiles(c) && g != NoColor && Bounds(c).Box?
    requires 0 <= x < GridSpan(s, Bounds(c).x1 - Bounds(c).x0) && 0 <= y < GridSpan(s, Bounds(c).y1 - Bounds(c).y0)
    requires x % (s + 1) != s && y % (s + 1) != s
    ensures RasterCell(Scale(s, c, g), x, y) == RasterCell(c, x / (s + 1), y / (s + 1))
  {
    ScaleBounds(s, c, g);
    ScaleGridBlockSample(s, c, g, x, y);
  }

  /** The sample at the centre of a cell off the separator lines is the child's sample at its block's centre. */
  lemma ScaleGridBlockSample(s: int, c: Image, g: Color, x: int, y: int)
    requires s > 0 && Compiles(c) && g != NoColor && Bounds(c).Box?
    requires 0 <= x < GridSpan(s, Bounds(c).x1 - Bounds(c).x0) && 0 <= y < GridSpan(s, Bounds(c).y1 - Bounds(c).y0)
    requires x % (s + 1) != s && y % (s + 1) != s
    ensures var b := Bounds(c);
      Sample(Scale(s, c, g), 2 * (b.x0 + x) + 1, 2 * (b.y0 + y) + 1)
        == Sample(c, 2 * (b.x0 + x / (s + 1)) + 1, 2 * (b.y0 + y / (s + 1)) + 1)
  {
    var b := Bounds(c);
    SeparatorCell(b.x0, s, x);
    SeparatorCell(b.y0, s, y);
    ScaleGridSample(s, c, g, 2 * (b.x0 + x) + 1, 2 * (b.y0 + y) + 1);
  }

  /** One cell of a scaled image with separators: the grid colour on a separator, else the child's cell. */
  lemma ScaleGridCell(s: int, c: Image, g: Color, x: int, y: int)
    requires s > 0 && Compiles(c) && g != NoColor && Bounds(c).Box?
    requires 0 <= x < GridSpan(s, Bounds(c).x1 - Bounds(c).x0) && 0 <= y < GridSpan(s, Bounds(c).y1 - Bounds(c).y0)
    ensures RasterCell(Scale(s, c, g), x, y) ==
      if x % (s + 1) == s || y % (s + 1) == s then g else RasterCell(c, x / (s + 1), y / (s + 1))
  {
    if x % (s + 1) == s || y % (s + 1) == s {
      ScaleGridSeparator(s, c, g, x, y);
    } else {
      ScaleGridBlock(s, c, g, x, y);
    }
  }

  /** One cell of a scaled image's grid with separators is the `UpscaleWithGrid` cell of the child's grid. */
  lemma ScaleGridRasterCell(s: int, c: Image, g: Color, x: int, y: int)
    requires s > 0 && Compiles(c) && g != NoColor
    requires Rasterize(c).width > 0 && Rasterize(c).height > 0
    requires Inside(Rasterize(Scale(s, c, g)), x, y)
    ensures UpscaleWithGrid(Rasterize(c), s, g).width == Rasterize(Scale(s, c, g)).width
    ensures UpscaleWithGrid(Rasterize(c), s, g).height == Rasterize(Scale(s, c, g)).height
    ensures At(Rasterize(Scale(s, c, g)), x, y) == At(UpscaleWithGrid(Rasterize(c), s, g), x, y)
  {
    var r := Rasterize(c);
    var b := Bounds(c);
    ScaleBounds(s, c, g);
    assert GridSpan(s, b.x1 - b.x0) == (b.x1 - b.x0) * (s + 1) - 1;
    assert GridSpan(s, b.y1 - b.y0) == (b.y1 - b.y0) * (s + 1) - 1;
    ScaleGridCell(s, c, g, x, y);
    GridBlockInside(x, s, r.width);
    GridBlockInside(y, s, r.height);
  }

  /**
   * `Scale` with a grid colour draws each child cell as an s x s block with
   * a one-cell separator line of the grid colour between blocks: the width
   * is s w + w - 1 and the grid it draws is `UpscaleWithGrid` of the child's.
   */
  lemma ScaleGridRaster(s: int, c: Image, g: Color)
    requires s > 0 && Compiles(c) && g != NoColor
    requires Rasterize(c).width > 0 && Rasterize(c).height > 0
    ensures Rasterize(Scale(s, c, g)) == UpscaleWithGrid(Rasterize(c), s, g)
  {
    var r := Rasterize(c);
    var lhs, rhs := Rasterize(Scale(s, c, g)), UpscaleWithGrid(r, s, g);
    var b := Bounds(c);
    ScaleBounds(s, c, g);
    assert GridSpan(s, b.x1 - b.x0) == (b.x1 - b.x0) * (s + 1) - 1;
    assert GridSpan(s, b.y1 - b.y0) == (b.y1 - b.y0) * (s + 1) - 1;
    forall x, y | Inside(lhs, x, y)
      ensures At(lhs, x, y) == At(rhs, x, y)
    {
      ScaleGridRasterCell(s, c, g, x, y);
    }
    Extensionality(lhs, rhs);
  }

  /** The last cell of the first row of a basic image, read from inside that cell. */
  lemma BasicLastOfRow(cells: seq<Color>, w: int, X: int, Y: int)
    requires w > 0 && |cells| >= w && X == 2 * w - 1 && Y == 1
    ensures Sample(BasicImage(cells, w), X, Y) == cells[w - 1]
  {
    assert RowsOf(|cells|, w) >= 1;
    assert X / 2 == w - 1 && Y / 2 == 0;
  }

  /**
   * The source reads a scaled image's child at the corner of a child cell.
   * Under a flip that corner belongs to the neighbouring cell: for
   * `Scale(1, flip_x(BasicImage([1, 2], 2)))` the first cell reads the
   * point just right of the flipped image and draws black, where the
   * flipped image shows 2. Reading the cell's centre gives 2.
   */
  lemma ScaleReadsCorner(cells: seq<Color>, w: int, Y: int)
    requires w > 0 && |cells| >= w && cells[w - 1] != Black && Y == 1
    ensures var c := ImageTransformation(FlipX, BasicImage(cells, w));
      Compiles(c) && Bounds(c).Box? && Bounds(c).x0 == -w && Bounds(c).y0 == 0
      && Sample(c, 1 - 2 * w, Y) == cells[w - 1]
      && Sample(c, CornerRead(-w, 1, 1 - 2 * w), Y - 1) == Black
      && Sample(c, ScaleRead(-w, 1, 1 - 2 * w), Y) == cells[w - 1]
  {
    var c := ImageTransformation(FlipX, BasicImage(cells, w));
    assert CornerRead(-w, 1, 1 - 2 * w) == -2 * w;
    assert ScaleRead(-w, 1, 1 - 2 * w) == 1 - 2 * w;
    BasicLastOfRow(cells, w, 2 * w - 1, Y);
  }

  /** Over a basic image the corner the source reads and the centre give the same colour. */
  lemma ScaleCornerAgreesOnBasic(cells: seq<Color>, stride: int, a: int, b: int, s: int, X: int, Y: int)
    requires stride > 0 && s > 0
    ensures Sample(BasicImage(cells, stride), CornerRead(a, s, X), CornerRead(b, s, Y))
         == Sample(BasicImage(cells, stride), ScaleRead(a, s, X), ScaleRead(b, s, Y))
  {
    var k, m := a + (X - 2 * a) / (2 * s), b + (Y - 2 * b) / (2 * s);
    assert CornerRead(a, s, X) == 2 * k && ScaleRead(a, s, X) == 2 * k + 1;
    assert CornerRead(b, s, Y) == 2 * m && ScaleRead(b, s, Y) == 2 * m + 1;
    BasicImageAligned(cells, stride, k, m);
  }

  // ------------------------------------------------------------ moving and framing

  /** One cell of a translated image's grid is the child's cell at the same offset. */
  lemma TranslationCell(c: Image, dx: int, dy: int, x0: int, y0: int, x1: int, y1: int, x: int, y: int)
    requires Compiles(c)
    ensures Width(Bounds(Translation(dx, dy, x0, y0, x1, y1, c))) == Width(Bounds(c))
    ensures Height(Bounds(Translation(dx, dy, x0, y0, x1, y1, c))) == Height(Bounds(c))
    ensures RasterCell(Translation(dx, dy, x0, y0, x1, y1, c), x, y) == RasterCell(c, x, y)
  {
    var b := Bounds(c);
    if b.Box? {
      TranslationPixel(c, dx, dy, b.x0 + dx + x, b.y0 + dy + y);
      RasterCellPixel(Translation(dx, dy, x0, y0, x1, y1, c), Bounds(Translation(dx, dy, x0, y0, x1, y1, c)), x, y);
      RasterCellPixel(c, b, x, y);
    }
  }

  /** A translation moves the bounds but draws the same grid. */
  lemma TranslationRaster(c: Image, dx: int, dy: int, x0: int, y0: int, x1: int, y1: int)
    requires Compiles(c)
    ensures Rasterize(Translation(dx, dy, x0, y0, x1, y1, c)) == Rasterize(c)
  {
    var lhs, rhs := Rasterize(Translation(dx, dy, x0, y0, x1, y1, c)), Rasterize(c);
    TranslationCell(c, dx, dy, x0, y0, x1, y1, 0, 0);
    forall x, y | Inside(lhs, x, y)
      ensures At(lhs, x, y) == At(rhs, x, y)
    {
      TranslationCell(c, dx, dy, x0, y0, x1, y1, x, y);
    }
    Extensionality(lhs, rhs);
  }

  /** `make_image_window(image)`: a window on the image's own bounds. */
  function MakeImageWindow(c: Image): (w: Image)
    requires Compiles(c) && Bounds(c).Box?
    ensures Compiles(w)
  {
    var b := Bounds(c);
    ImageWindow(b.x0, b.y0, b.x1, b.y1, c)
  }

  /** Inside the image's bounds its window shows the image. */
  lemma WindowCell(c: Image, x: int, y: int)
    requires Compiles(c) && Bounds(c).Box? && 0 <= x < Width(Bounds(c)) && 0 <= y < Height(Bounds(c))
    ensures RasterCell(MakeImageWindow(c), x, y) == RasterCell(c, x, y)
  {
    var b := Bounds(c);
    var w := MakeImageWindow(c);
    assert Bounds(w) == b;
    calc {
      RasterCell(w, x, y);
    == { RasterCellPixel(w, b, x, y); }
      Pixel(w, b.x0 + x, b.y0 + y);
    == { WindowPixel(c, b.x0, b.y0, b.x1, b.y1, b.x0 + x, b.y0 + y); }
      Pixel(c, b.x0 + x, b.y0 + y);
    == { RasterCellPixel(c, b, x, y); }
      RasterCell(c, x, y);
    }
  }

  /** A window shows its child at every cell inside it. */
  lemma WindowPixel(c: Image, x0: int, y0: int, x1: int, y1: int, x: int, y: int)
    requires Compiles(c) && x0 <= x < x1 && y0 <= y < y1
    ensures Pixel(ImageWindow(x0, y0, x1, y1, c), x, y) == Pixel(c, x, y)
  {
  }

  /** A window on the image's own bounds draws the image's grid. */
  lemma ImageWindowRaster(c: Image)
    requires Compiles(c) && Bounds(c).Box?
    ensures Bounds(MakeImageWindow(c)) == Bounds(c)
    ensures Rasterize(MakeImageWindow(c)) == Rasterize(c)
  {
    var lhs, rhs := Rasterize(MakeImageWindow(c)), Rasterize(c);
    assert Bounds(MakeImageWindow(c)) == Bounds(c);
    forall x, y | Inside(lhs, x, y)
      ensures At(lhs, x, y) == At(rhs, x, y)
    {
      WindowCell(c, x, y);
    }
    Extensionality(lhs, rhs);
  }

  /** One cell of the grid of two `BackgroundColor`s with the same colour is the child's cell. */
  lemma BackgroundTwiceCell(background: Color, c: Image, x: int, y: int)
    requires Compiles(c)
    ensures Bounds(BackgroundColor(background, BackgroundColor(background, c))) == Bounds(c)
    ensures RasterCell(BackgroundColor(background, BackgroundColor(background, c)), x, y) == RasterCell(c, x, y)
  {
    var b := Bounds(c);
    if b.Box? {
      BackgroundTwice(background, c, 2 * (b.x0 + x) + 1, 2 * (b.y0 + y) + 1);
    } else {
      BackgroundTwice(background, c, 0, 0);
    }
  }

  /** Two `BackgroundColor`s with the same colour draw the child's grid. */
  lemma BackgroundTwiceRaster(background: Color, c: Image)
    requires Compiles(c)
    ensures Rasterize(BackgroundColor(background, BackgroundColor(background, c))) == Rasterize(c)
  {
    var lhs, rhs := Rasterize(BackgroundColor(background, BackgroundColor(background, c))), Rasterize(c);
    BackgroundTwiceCell(background, c, 0, 0);
    forall x, y | Inside(lhs, x, y)
      ensures At(lhs, x, y) == At(rhs, x, y)
    {
      BackgroundTwiceCell(background, c, x, y);
    }
    Extensionality(lhs, rhs);
  }

  /** The hull of one box is that box. */
  lemma HullOfOne(b: Box)
    ensures HullOf([b]) == b
  {
    assert [b][1..] == [];
  }

  /**
   * An abstraction with one sub-image spans that sub-image's bounds and
   * draws the same grid: where the sub-image is black, no sub-image is
   * lit, and the abstraction is black there too.
   */
  lemma SinglePartRaster(name: string, c: Image)
    requires Compiles(c)
    ensures Compiles(Abstraction(name, [c]))
    ensures Bounds(Abstraction(name, [c])) == Bounds(c)
    ensures Rasterize(Abstraction(name, [c])) == Rasterize(c)
  {
    var a := Abstraction(name, [c]);
    assert Compiles(a);
    assert PartBounds([c]) == [Bounds(c)];
    HullOfOne(Bounds(c));
    assert Bounds(a) == Bounds(c);
    var lhs, rhs := Rasterize(a), Rasterize(c);
    forall x, y | Inside(lhs, x, y)
      ensures At(lhs, x, y) == At(rhs, x, y)
    {
      var b := Bounds(c);
      var X, Y := 2 * (b.x0 + x) + 1, 2 * (b.y0 + y) + 1;
      AbstractionSample(name, [c], X, Y);
      RasterCellPixel(a, b, x, y);
      RasterCellPixel(c, b, x, y);
    }
    Extensionality(lhs, rhs);
  }
}
