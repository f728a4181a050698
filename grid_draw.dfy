/**
 * Value-level specifications of the drawing operations of lib/Grid.ts:
 * painting sets of cells, lines, boxes, the grid border and `paste`.
 */
module GridDrawing {
  import opened Colors
  import opened GridValues
  import opened Transforms

  type Point = (int, int)

  /** `r` with every cell of `pts` that lies inside painted `c`. */
  function Painted(r: Raster, pts: set<Point>, c: Color): (s: Raster)
    ensures s.width == r.width && s.height == r.height
  {
    FromFunction(r.width, r.height, (x, y) => if (x, y) in pts then c else At(r, x, y))
  }

  /** Painting one point is `set`. */
  lemma PaintPoint(r: Raster, x: int, y: int, c: Color)
    ensures SetCell(r, x, y, c) == Painted(r, {(x, y)}, c)
  {
    forall a, b | Inside(r, a, b)
      ensures At(SetCell(r, x, y, c), a, b) == At(Painted(r, {(x, y)}, c), a, b)
    {
      SetThenAt(r, x, y, c, a, b);
    }
    Extensionality(SetCell(r, x, y, c), Painted(r, {(x, y)}, c));
  }

  /** Painting twice with the same colour paints the union. */
  lemma PaintUnion(r: Raster, p: set<Point>, q: set<Point>, c: Color)
    ensures Painted(Painted(r, p, c), q, c) == Painted(r, p + q, c)
  {
    Extensionality(Painted(Painted(r, p, c), q, c), Painted(r, p + q, c));
  }

  lemma PaintEmpty(r: Raster, c: Color)
    ensures Painted(r, {}, c) == r
  {
    Extensionality(Painted(r, {}, c), r);
  }

  /** One step of `draw_line`: -1, 0 or 1 towards the target. */
  function Step(from: int, to: int): int
  {
    if from < to then 1 else if from > to then -1 else 0
  }

  function Abs(n: int): nat
  {
    if n < 0 then -n else n
  }

  function Max(a: int, b: int): int
  {
    if a < b then b else a
  }

  /** The Chebyshev distance between two cells: the number of steps `draw_line` takes. */
  function Distance(x0: int, y0: int, x1: int, y1: int): nat
  {
    Max(Abs(x1 - x0), Abs(y1 - y0))
  }

  /** The cells `draw_line(x0, y0, x1, y1)` visits: diagonal steps first, then straight. */
  function LinePoints(x0: int, y0: int, x1: int, y1: int): set<Point>
    decreases Distance(x0, y0, x1, y1)
  {
    if x0 == x1 && y0 == y1 then {(x0, y0)}
    else {(x0, y0)} + LinePoints(x0 + Step(x0, x1), y0 + Step(y0, y1), x1, y1)
  }

  /** Each step of a line brings it closer to its end. */
  lemma LineShrinks(x0: int, y0: int, x1: int, y1: int)
    requires !(x0 == x1 && y0 == y1)
    ensures Distance(x0 + Step(x0, x1), y0 + Step(y0, y1), x1, y1) < Distance(x0, y0, x1, y1)
  {
  }

  /** `v` lies between `lo` and `hi`, whichever way round they are. */
  predicate Between(v: int, lo: int, hi: int)
  {
    lo <= v <= hi || hi <= v <= lo
  }

  /** A line holds both end points and stays inside their bounding box. */
  lemma LineEnds(x0: int, y0: int, x1: int, y1: int)
    ensures (x0, y0) in LinePoints(x0, y0, x1, y1) && (x1, y1) in LinePoints(x0, y0, x1, y1)
    ensures forall p :: p in LinePoints(x0, y0, x1, y1) ==>
      (x0 <= p.0 <= x1 || x1 <= p.0 <= x0) && (y0 <= p.1 <= y1 || y1 <= p.1 <= y0)
    ensures |LinePoints(x0, y0, x1, y1)| == Distance(x0, y0, x1, y1) + 1
  {
    LineHasEnd(x0, y0, x1, y1);
    LineInBox(x0, y0, x1, y1);
    LineSize(x0, y0, x1, y1);
  }

  /** The far end point is on the line. */
  lemma {:induction false} LineHasEnd(x0: int, y0: int, x1: int, y1: int)
    ensures (x1, y1) in LinePoints(x0, y0, x1, y1)
    decreases Distance(x0, y0, x1, y1)
  {
    if !(x0 == x1 && y0 == y1) {
      var a, b := LineStepDistance(x0, y0, x1, y1);
      LineHasEnd(a, b, x1, y1);
    }
  }

  /** Every cell of a line lies in the bounding box of its end points. */
  lemma {:induction false} LineInBox(x0: int, y0: int, x1: int, y1: int)
    ensures forall p :: p in LinePoints(x0, y0, x1, y1) ==> Between(p.0, x0, x1) && Between(p.1, y0, y1)
    decreases Distance(x0, y0, x1, y1)
  {
    if !(x0 == x1 && y0 == y1) {
      var a, b := LineStepDistance(x0, y0, x1, y1);
      LineInBox(a, b, x1, y1);
    }
  }

  /** A line visits one cell more than the longer side of its bounding box. */
  lemma {:induction false} LineSize(x0: int, y0: int, x1: int, y1: int)
    ensures |LinePoints(x0, y0, x1, y1)| == Distance(x0, y0, x1, y1) + 1
    decreases Distance(x0, y0, x1, y1)
  {
    if !(x0 == x1 && y0 == y1) {
      var a, b := LineStepDistance(x0, y0, x1, y1);
      LineSize(a, b, x1, y1);
      LineInBox(a, b, x1, y1);
      assert (x0, y0) !in LinePoints(a, b, x1, y1);
    }
  }

  /** Painting the first cell of a line and then the rest paints the whole line. */
  lemma LinePaintStep(r: Raster, s: Raster, x0: int, y0: int, x1: int, y1: int, c: Color)
    requires !(x0 == x1 && y0 == y1) && s == Painted(r, {(x0, y0)}, c)
    ensures Painted(s, LinePoints(x0 + Step(x0, x1), y0 + Step(y0, y1), x1, y1), c)
      == Painted(r, LinePoints(x0, y0, x1, y1), c)
    ensures LinePoints(x0 + Step(x0, x1), y0 + Step(y0, y1), x1, y1) < LinePoints(x0, y0, x1, y1)
  {
    var a, b := LineStepDistance(x0, y0, x1, y1);
    PaintUnion(r, {(x0, y0)}, LinePoints(a, b, x1, y1), c);
    LineInBox(a, b, x1, y1);
    assert (x0, y0) !in LinePoints(a, b, x1, y1);
  }

  /** One step of a line moves inside the bounding box and one cell closer to the end. */
  lemma LineStepDistance(x0: int, y0: int, x1: int, y1: int) returns (a: int, b: int)
    requires !(x0 == x1 && y0 == y1)
    ensures a == x0 + Step(x0, x1) && b == y0 + Step(y0, y1)
    ensures LinePoints(x0, y0, x1, y1) == {(x0, y0)} + LinePoints(a, b, x1, y1)
    ensures Between(a, x0, x1) && Between(b, y0, y1)
    ensures !(Between(x0, a, x1) && Between(y0, b, y1))
    ensures Distance(a, b, x1, y1) + 1 == Distance(x0, y0, x1, y1)
  {
    a, b := x0 + Step(x0, x1), y0 + Step(y0, y1);
  }

  /** A horizontal line is exactly the run of cells between its end points. */
  lemma {:induction false} HorizontalLine(x0: int, x1: int, y: int)
    requires x0 <= x1
    ensures LinePoints(x0, y, x1, y) == RowRun(x0, x1 + 1, y)
    decreases x1 - x0
  {
    if x0 < x1 {
      HorizontalLine(x0 + 1, x1, y);
    }
  }

  /** Steps from (x, y) before `draw_infinite_line` leaves the grid (positive inside). */
  function RayMeasure(r: Raster, x: int, y: int, dx: int, dy: int): nat
  {
    if !Inside(r, x, y) then 0
    else if dx > 0 then r.width - x else if dx < 0 then x + 1
    else if dy > 0 then r.height - y else y + 1
  }

  /** The cells `draw_infinite_line` paints: from (x, y) in steps of (dx, dy) until a cell reads `undefined`. */
  function RayPoints(r: Raster, x: int, y: int, dx: int, dy: int): set<Point>
    requires dx != 0 || dy != 0
    decreases RayMeasure(r, x, y, dx, dy)
  {
    if At(r, x, y) == Undefined then {}
    else {(x, y)} + RayPoints(r, x + dx, y + dy, dx, dy)
  }

  /** Every painted cell of a ray is a defined cell of the grid, and the ray starts at (x, y) when that is one. */
  lemma {:induction false} RayInside(r: Raster, x: int, y: int, dx: int, dy: int)
    requires dx != 0 || dy != 0
    ensures (x, y) in RayPoints(r, x, y, dx, dy) <==> At(r, x, y) != Undefined
    ensures forall p :: p in RayPoints(r, x, y, dx, dy) ==> Inside(r, p.0, p.1) && At(r, p.0, p.1) != Undefined
    decreases RayMeasure(r, x, y, dx, dy)
  {
    if At(r, x, y) != Undefined {
      RayInside(r, x + dx, y + dy, dx, dy);
    }
  }

  /** A horizontal ray through a grid with no `undefined` cell reaches the edge. */
  lemma {:induction false} RayToEdge(r: Raster, x: int, y: int)
    requires 0 <= x <= r.width && 0 <= y < r.height
    requires forall a :: 0 <= a < r.width ==> At(r, a, y) != Undefined
    ensures RayPoints(r, x, y, 1, 0) == RowRun(x, r.width, y)
    decreases r.width - x
  {
    if x < r.width {
      RayToEdge(r, x + 1, y);
    }
  }

  /** The cells x0 <= x < x1 of row y. */
  function RowRun(x0: int, x1: int, y: int): set<Point>
  {
    set x | x0 <= x < x1 :: (x, y)
  }

  /** The cells y0 <= y < y1 of column x. */
  function ColumnRun(x: int, y0: int, y1: int): set<Point>
  {
    set y | y0 <= y < y1 :: (x, y)
  }

  /** The cells `draw_box_perimiter(x0, y0, x1, y1)` writes. */
  function BoxPerimeterPoints(x0: int, y0: int, x1: int, y1: int): set<Point>
  {
    RowRun(x0, x1, y0) + RowRun(x0, x1, y1 - 1) + ColumnRun(x0, y0, y1) + ColumnRun(x1 - 1, y0, y1)
  }

  /** For a non-empty box these are exactly the cells of the box on its outer ring. */
  lemma BoxPerimeterIsRing(x0: int, y0: int, x1: int, y1: int, p: Point)
    requires x0 < x1 && y0 < y1
    ensures p in BoxPerimeterPoints(x0, y0, x1, y1) <==>
      x0 <= p.0 < x1 && y0 <= p.1 < y1 && (p.0 == x0 || p.0 == x1 - 1 || p.1 == y0 || p.1 == y1 - 1)
  {
    if x0 <= p.0 < x1 && y0 <= p.1 < y1 {
      if p.1 == y0 {
        assert p in RowRun(x0, x1, y0);
      } else if p.1 == y1 - 1 {
        assert p in RowRun(x0, x1, p.1);
      } else if p.0 == x0 {
        assert p in ColumnRun(x0, y0, y1);
      } else if p.0 == x1 - 1 {
        assert p in ColumnRun(p.0, y0, y1);
      }
    }
  }

  /** `draw_perimeter`: the border cells of the grid itself. */
  function BorderPoints(r: Raster): set<Point>
  {
    set x, y | 0 <= x < r.width && 0 <= y < r.height && OnBorder(r, x, y) :: (x, y)
  }

  /**
   * Where `paste` sends region cell (x, y) for a region of size w x h.
   * Without anchors, the eight symmetries add the offset; any other
   * transform, or any anchor, writes at the raw (x, y).
   */
  function PasteTarget(p: PasteParams, w: int, h: int, x: int, y: int): Point
  {
    if p.anchored then (x, y)
    else match p.transform
      case Identity => (p.offsetX + x, p.offsetY + y)
      case FlipX => (p.offsetX + w - 1 - x, p.offsetY + y)
      case FlipY => (p.offsetX + x, p.offsetY + h - 1 - y)
      case Transpose => (p.offsetX + y, p.offsetY + x)
      case OppositeTranspose => (p.offsetX + h - 1 - y, p.offsetY + w - 1 - x)
      case Rotate180 => (p.offsetX + w - 1 - x, p.offsetY + h - 1 - y)
      case Rotate90 => (p.offsetX + h - 1 - y, p.offsetY + x)
      case Rotate270 => (p.offsetX + y, p.offsetY + w - 1 - x)
      case _ => (x, y)
  }

  /**
   * The options of `paste`. A missing transform is `Identity`, missing
   * offsets are 0, and a missing transparent or monochrome colour is
   * `Undefined`; `anchored` records that `anchor_x` or `anchor_y` was given.
   */
  datatype PasteParams = PasteParams(
    anchored: bool, offsetX: int, offsetY: int, transform: Transform,
    transparent: Color, monochrome: Color, onlyIfNoColor: bool)

  /** The default options: plain copy at the origin. */
  function Plain(offsetX: int, offsetY: int, t: Transform): PasteParams
  {
    PasteParams(false, offsetX, offsetY, t, Undefined, Undefined, false)
  }

  /**
   * The effect of region cell (i, j) on `dest`. A transparent cell is
   * skipped; with `only_if_no_color` the test reads `dest` at the raw (i, j);
   * a monochrome colour replaces the cell's colour.
   */
  function PasteCell(dest: Raster, region: Raster, p: PasteParams, i: int, j: int): (s: Raster)
    ensures s.width == dest.width && s.height == dest.height
  {
    var c := At(region, i, j);
    if p.transparent != Undefined && c == p.transparent then dest
    else if p.onlyIfNoColor && At(dest, i, j) != p.transparent then dest
    else
      var t := PasteTarget(p, region.width, region.height, i, j);
      SetCell(dest, t.0, t.1, if p.monochrome != Undefined then p.monochrome else c)
  }

  /** Row j of the region pasted cell by cell, its first n cells. */
  function PasteRow(dest: Raster, region: Raster, p: PasteParams, j: int, n: nat): (s: Raster)
    ensures s.width == dest.width && s.height == dest.height
  {
    if n == 0 then dest else PasteCell(PasteRow(dest, region, p, j, n - 1), region, p, n - 1, j)
  }

  /** The first k rows of the region pasted row by row. */
  function PasteRows(dest: Raster, region: Raster, p: PasteParams, k: nat): (s: Raster)
    ensures s.width == dest.width && s.height == dest.height
  {
    if k == 0 then dest else PasteRow(PasteRows(dest, region, p, k - 1), region, p, k - 1, region.width)
  }

  /** `paste(region, params)` on the value of the grid. */
  function Paste(dest: Raster, region: Raster, p: PasteParams): (s: Raster)
    ensures s.width == dest.width && s.height == dest.height
  {
    PasteRows(dest, region, p, region.height)
  }

  /** The colour `paste` writes for a region cell. */
  function Ink(p: PasteParams, c: Color): Color
  {
    if p.monochrome != Undefined then p.monochrome else c
  }

  /** A plain paste: no anchor, one of the eight symmetries, nothing transparent. */
  predicate PlainSymmetry(p: PasteParams)
  {
    !p.anchored && IsSymmetry(p.transform) && p.transparent == Undefined && !p.onlyIfNoColor
  }

  /** The region cell that a symmetry sends to (a, b): the inverse of `PasteTarget`. */
  function PasteSource(p: PasteParams, w: int, h: int, a: int, b: int): Point
  {
    var u, v := a - p.offsetX, b - p.offsetY;
    match p.transform
      case FlipX => (w - 1 - u, v)
      case FlipY => (u, h - 1 - v)
      case Transpose => (v, u)
      case OppositeTranspose => (w - 1 - v, h - 1 - u)
      case Rotate180 => (w - 1 - u, h - 1 - v)
      case Rotate90 => (v, h - 1 - u)
      case Rotate270 => (w - 1 - v, u)
      case _ => (u, v)
  }

  lemma SourceOfTarget(p: PasteParams, w: int, h: int, i: int, j: int, a: int, b: int)
    requires PlainSymmetry(p)
    ensures PasteTarget(p, w, h, i, j) == (a, b) <==> PasteSource(p, w, h, a, b) == (i, j)
  {
  }

  /**
   * The reference meaning of a plain paste: each destination cell that is
   * the image of a region cell takes that cell's ink, every other cell is kept.
   */
  function Transformed(dest: Raster, region: Raster, p: PasteParams): (s: Raster)
    ensures s.width == dest.width && s.height == dest.height
    ensures forall a, b :: Inside(s, a, b) ==> At(s, a, b) == TransformedCell(dest, region, p, a, b)
  {
    FromFunction(dest.width, dest.height, (a, b) => TransformedCell(dest, region, p, a, b))
  }

  /** One cell of `Transformed`: the ink of the region cell that lands there, else the destination's cell. */
  function TransformedCell(dest: Raster, region: Raster, p: PasteParams, a: int, b: int): Color
  {
    var q := PasteSource(p, region.width, region.height, a, b);
    if Inside(region, q.0, q.1) then Ink(p, At(region, q.0, q.1)) else At(dest, a, b)
  }

  lemma {:induction false} PasteRowAt(d: Raster, region: Raster, p: PasteParams, j: int, n: nat, a: int, b: int)
    requires PlainSymmetry(p) && Inside(d, a, b)
    ensures var q := PasteSource(p, region.width, region.height, a, b);
      At(PasteRow(d, region, p, j, n), a, b) ==
        if q.1 == j && 0 <= q.0 < n then Ink(p, At(region, q.0, q.1)) else At(d, a, b)
  {
    if n > 0 {
      PasteRowAt(d, region, p, j, n - 1, a, b);
      var prev := PasteRow(d, region, p, j, n - 1);
      var t := PasteTarget(p, region.width, region.height, n - 1, j);
      SetThenAt(prev, t.0, t.1, Ink(p, At(region, n - 1, j)), a, b);
      SourceOfTarget(p, region.width, region.height, n - 1, j, a, b);
    }
  }

  lemma {:induction false} PasteRowsAt(d: Raster, region: Raster, p: PasteParams, k: nat, a: int, b: int)
    requires PlainSymmetry(p) && Inside(d, a, b)
    ensures var q := PasteSource(p, region.width, region.height, a, b);
      At(PasteRows(d, region, p, k), a, b) ==
        if 0 <= q.1 < k && 0 <= q.0 < region.width then Ink(p, At(region, q.0, q.1)) else At(d, a, b)
  {
    if k > 0 {
      PasteRowsAt(d, region, p, k - 1, a, b);
      PasteRowAt(PasteRows(d, region, p, k - 1), region, p, k - 1, region.width, a, b);
    }
  }

  /**
   * Under the eight symmetries a plain paste writes every region cell at its
   * image and nothing else, whatever the row-major order of the writes.
   */
  lemma PasteUnderSymmetry(dest: Raster, region: Raster, p: PasteParams)
    requires PlainSymmetry(p)
    ensures Paste(dest, region, p) == Transformed(dest, region, p)
  {
    forall a, b | Inside(dest, a, b)
      ensures At(Paste(dest, region, p), a, b) == At(Transformed(dest, region, p), a, b)
    {
      PasteRowsAt(dest, region, p, region.height, a, b);
    }
    Extensionality(Paste(dest, region, p), Transformed(dest, region, p));
  }

  /** Pasting a region of the same size at the origin with `Identity` replaces the whole grid. */
  lemma PasteCopies(dest: Raster, region: Raster)
    requires region.width == dest.width && region.height == dest.height
    ensures Paste(dest, region, Plain(0, 0, Identity)) == region
  {
    var p := Plain(0, 0, Identity);
    PasteUnderSymmetry(dest, region, p);
    var t := Transformed(dest, region, p);
    forall a, b | Inside(t, a, b)
      ensures At(t, a, b) == At(region, a, b)
    {
      assert PasteSource(p, region.width, region.height, a, b) == (a, b);
    }
    Extensionality(t, region);
  }

  /** Cells (a, b) on the far side of (x, y) along direction (dx, dy), (x, y) included. */
  predicate Ahead(a: int, b: int, x: int, y: int, dx: int, dy: int)
  {
    if dx > 0 then a >= x else if dx < 0 then a <= x else if dy > 0 then b >= y else b <= y
  }

  /** A ray reads only the cells ahead of its start. */
  lemma {:induction false} RayFrame(r: Raster, s: Raster, x: int, y: int, dx: int, dy: int)
    requires dx != 0 || dy != 0
    requires r.width == s.width && r.height == s.height
    requires forall a, b :: Inside(r, a, b) && Ahead(a, b, x, y, dx, dy) ==> At(r, a, b) == At(s, a, b)
    ensures RayPoints(r, x, y, dx, dy) == RayPoints(s, x, y, dx, dy)
    decreases RayMeasure(r, x, y, dx, dy)
  {
    if At(r, x, y) != Undefined {
      RayFrame(r, s, x + dx, y + dy, dx, dy);
    }
  }

  /** Painting the start of a ray leaves the rest of the ray as it was, and brings the edge closer. */
  lemma RayStep(r: Raster, s: Raster, x: int, y: int, dx: int, dy: int, c: Color)
    requires dx != 0 || dy != 0
    requires At(r, x, y) != Undefined && s == Painted(r, {(x, y)}, c)
    ensures RayPoints(s, x + dx, y + dy, dx, dy) == RayPoints(r, x + dx, y + dy, dx, dy)
    ensures RayMeasure(s, x + dx, y + dy, dx, dy) < RayMeasure(r, x, y, dx, dy)
  {
    RayAfterStart(r, s, x, y, dx, dy, c);
    RayMeasureStep(r, s, x, y, dx, dy);
  }

  /** Painting the start of a ray leaves the ray from the next cell as it was. */
  lemma RayAfterStart(r: Raster, s: Raster, x: int, y: int, dx: int, dy: int, c: Color)
    requires dx != 0 || dy != 0
    requires s == Painted(r, {(x, y)}, c)
    ensures RayPoints(s, x + dx, y + dy, dx, dy) == RayPoints(r, x + dx, y + dy, dx, dy)
  {
    forall a, b | Inside(s, a, b) && Ahead(a, b, x + dx, y + dy, dx, dy)
      ensures At(s, a, b) == At(r, a, b)
    {
      PaintedOff(r, x, y, dx, dy, c, a, b);
    }
    RayFrame(s, r, x + dx, y + dy, dx, dy);
  }

  /** A cell ahead of the next step of a ray is not its start, so painting the start leaves it alone. */
  lemma PaintedOff(r: Raster, x: int, y: int, dx: int, dy: int, c: Color, a: int, b: int)
    requires dx != 0 || dy != 0
    requires Ahead(a, b, x + dx, y + dy, dx, dy)
    ensures At(Painted(r, {(x, y)}, c), a, b) == At(r, a, b)
  {
  }

  /** The step of a ray from a defined cell of the grid brings it closer to the edge. */
  lemma RayMeasureStep(r: Raster, s: Raster, x: int, y: int, dx: int, dy: int)
    requires dx != 0 || dy != 0
    requires At(r, x, y) != Undefined && r.width == s.width && r.height == s.height
    ensures RayMeasure(s, x + dx, y + dy, dx, dy) < RayMeasure(r, x, y, dx, dy)
  {
  }

  /** `symmetrical(t)`: pasting the grid with `t` into an empty grid of the matching shape gives it back. */
  predicate Symmetrical(r: Raster, t: Transform)
  {
    var w, h := if KeepsAxes(t) then r.width else r.height, if KeepsAxes(t) then r.height else r.width;
    Paste(Filled(w, h, Black), r, Plain(0, 0, t)) == r
  }

  /** A grid is `flip_x`-symmetrical exactly when every row reads the same backwards. */
  lemma SymmetricalFlipX(r: Raster)
    ensures Symmetrical(r, FlipX) <==>
      forall x, y :: Inside(r, x, y) ==> At(r, x, y) == At(r, r.width - 1 - x, y)
  {
    var p := Plain(0, 0, FlipX);
    var e := Filled(r.width, r.height, Black);
    PasteUnderSymmetry(e, r, p);
    if forall x, y :: Inside(r, x, y) ==> At(r, x, y) == At(r, r.width - 1 - x, y) {
      Extensionality(Transformed(e, r, p), r);
    }
    if Symmetrical(r, FlipX) {
      forall x, y | Inside(r, x, y)
        ensures At(r, x, y) == At(r, r.width - 1 - x, y)
      {
        assert At(Transformed(e, r, p), x, y) == At(r, r.width - 1 - x, y);
      }
    }
  }
}
