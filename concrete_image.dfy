/**
 * The image algebra of lib/ConcreteImage.ts and what `compile()` makes of
 * it: a bounding box and a colour for every point of the plane.
 *
 * Points are written in half units: the point (x, y) of the source is
 * (X, Y) = (2x, 2y) here. `generate_grid` samples the centre of cell
 * (i, j), the point (2i+1, 2j+1); `Scale` samples its child at whole
 * points; negating a coordinate is exact. All bounds the model covers lie
 * on whole cells, so a box is kept in cell units.
 */
module ConcreteImages {
  import opened Colors
  import opened Transforms
  import opened GridValues

  /** The `stride` argument of `SubImages`; a number lays the parts out like 'free'. */
  datatype Mode = Stride(n: int) | Free | Xor | And

  /** The anchors of the `Translation` constructor that land on whole cells: 0, 1 and 'zero'. */
  datatype Anchor = Start | End | Zero

  datatype Image =
    | BasicImage(cells: seq<Color>, stride: int)
    | SemanticBox(width: int, height: int, colors: seq<Color>)
    | MonochromeColor(color: Color, image: Image)
    | BackgroundColor(background: Color, image: Image)
    | SubImages(parts: seq<Image>, mode: Mode, gridColor: Color, fixedSize: bool)
    | ImageWindow(x0: int, y0: int, x1: int, y1: int, image: Image)
    | Scale(scale: int, image: Image, gridColor: Color)
    | Translation(x: int, y: int, x0: int, y0: int, x1: int, y1: int, image: Image)
    | ImageTransformation(transformation: Transform, image: Image)
    | Alternatives(alternatives: seq<Image>)
    | ImageData(data: seq<Number>, image: Image)
    | Info(image: Image, info: Image)
    | SolidColor(color: Color)
    | PixelImage(color: Color)
    | Abstraction(name: string, subImages: seq<Image>)
    | Absent

  /** A JavaScript number as the `ImageData` tags hold it. */
  datatype Number = Finite(value: real) | PosInfinity | NegInfinity | NaN

  /** JavaScript's `a / b` on finite numbers: 0/0 is NaN, a non-zero over 0 an infinity of its sign. */
  function Divide(a: real, b: real): (r: Number)
    ensures b != 0.0 ==> r == Finite(a / b)
    ensures b == 0.0 ==> (r.NaN? <==> a == 0.0) && (r.PosInfinity? <==> a > 0.0)
  {
    if b != 0.0 then Finite(a / b)
    else if a == 0.0 then NaN
    else if a > 0.0 then PosInfinity
    else NegInfinity
  }

  /**
   * The bounds of a compilation, [x0, x1) x [y0, y1) in cell units.
   * `NoBox` is what `Math.min`/`Math.max` of no children give
   * (+Infinity, -Infinity): it holds no point.
   */
  datatype Box = Box(x0: int, y0: int, x1: int, y1: int) | NoBox

  /** The point (X, Y), in half units, lies in the box. */
  predicate Covers(b: Box, X: int, Y: int)
  {
    b.Box? && 2 * b.x0 <= X < 2 * b.x1 && 2 * b.y0 <= Y < 2 * b.y1
  }

  function Min(a: int, b: int): int { if a <= b then a else b }

  function Max(a: int, b: int): int { if a >= b then a else b }

  /** The componentwise min/max of two bounds. */
  function Hull(a: Box, b: Box): (h: Box)
    ensures a.NoBox? ==> h == b
    ensures b.NoBox? ==> h == a
  {
    if a.NoBox? then b
    else if b.NoBox? then a
    else Box(Min(a.x0, b.x0), Min(a.y0, b.y0), Max(a.x1, b.x1), Max(a.y1, b.y1))
  }

  function HullOf(boxes: seq<Box>): Box
  {
    if |boxes| == 0 then NoBox else Hull(boxes[0], HullOf(boxes[1..]))
  }

  /** The rows a flat list fills at the given stride: `Math.ceil(length / stride)`. */
  function RowsOf(length: nat, stride: int): nat
    requires stride > 0
  {
    (length + stride - 1) / stride
  }

  /** An array read: `undefined` past the end. */
  function Read(list: seq<Color>, k: int): Color
  {
    if 0 <= k < |list| then list[k] else Undefined
  }

  /** The width of a scaled image with separators: `scale` cells per child cell and one between. */
  function GridSpan(scale: int, w: int): int
  {
    scale * w + w - 1
  }

  /**
   * The images the source can compile: other strides, scales and transforms
   * loop, throw or leave whole cells; `SolidColor` (unbounded) and `Pixel`
   * (half a cell each way) are not compiled here, and `Absent`, the
   * `undefined` slot of a failed alternative, throws. Compared with `true` so that a
   * precondition `Compiles(img)` is checked as one fact rather than one
   * fact per constructor.
   */
  predicate Compiles(img: Image)
  {
    CompilesAll(img) == true
  }

  /** Every constructor of the tree meets what `compile()` demands of it. */
  function CompilesAll(img: Image): bool
  {
    match img
    case BasicImage(_, stride) => stride > 0
    case SemanticBox(_, _, _) => true
    case MonochromeColor(_, c) => CompilesAll(c)
    case BackgroundColor(_, c) => CompilesAll(c)
    case SubImages(parts, _, _, _) => forall i :: 0 <= i < |parts| ==> CompilesAll(parts[i])
    case ImageWindow(_, _, _, _, c) => CompilesAll(c)
    case Scale(s, c, _) => s > 0 && CompilesAll(c)
    case Translation(_, _, _, _, _, _, c) => CompilesAll(c)
    case ImageTransformation(t, c) => IsSymmetry(t) && CompilesAll(c)
    case Alternatives(alts) => |alts| > 0 && CompilesAll(alts[0])
    case ImageData(_, c) => CompilesAll(c)
    case Info(a, b) => CompilesAll(a) && CompilesAll(b)
    case SolidColor(_) => false
    case PixelImage(_) => false
    case Abstraction(_, parts) => forall i :: 0 <= i < |parts| ==> CompilesAll(parts[i])
    case Absent => false
  }

  // ------------------------------------------------------------ transforms

  /** The bounds of a transformed child (lib/ConcreteImage.ts:1144-1160). */
  function TransformBox(t: Transform, b: Box): Box
  {
    match b
    case NoBox => NoBox
    case Box(x0, y0, x1, y1) =>
      match t
      case FlipX => Box(-x1, y0, -x0, y1)
      case FlipY => Box(x0, -y1, x1, -y0)
      case Rotate180 => Box(-x1, -y1, -x0, -y0)
      case Transpose => Box(y0, x0, y1, x1)
      case OppositeTranspose => Box(-y1, -x1, -y0, -x0)
      case Rotate90 => Box(-y1, x0, -y0, x1)
      case Rotate270 => Box(y0, -x1, y1, -x0)
      case _ => b
  }

  /** The x coordinate at which a transformed image reads its child. */
  function SourceX(t: Transform, X: int, Y: int): int
  {
    match t
    case FlipX => -X
    case Rotate180 => -X
    case Transpose => Y
    case OppositeTranspose => -Y
    case Rotate90 => Y
    case Rotate270 => -Y
    case _ => X
  }

  /** The y coordinate at which a transformed image reads its child. */
  function SourceY(t: Transform, X: int, Y: int): int
  {
    match t
    case FlipY => -Y
    case Rotate180 => -Y
    case Transpose => X
    case OppositeTranspose => -X
    case Rotate90 => -X
    case Rotate270 => X
    case _ => Y
  }

  // ------------------------------------------------------------ scaling

  /**
   * The point a scaled image reads in its child: the centre of child cell
   * `a + floor((x - a) / s)`. The source reads the corner of that cell
   * instead (`CornerRead`); see `ScaleReadsCorner`.
   */
  function ScaleRead(a: int, s: int, X: int): int
    requires s > 0
  {
    2 * (a + (X - 2 * a) / (2 * s)) + 1
  }

  /** The point the source reads: `a + Math.floor((x - a) / s)`, a whole point. */
  function CornerRead(a: int, s: int, X: int): int
    requires s > 0
  {
    2 * (a + (X - 2 * a) / (2 * s))
  }

  /** On a scaled image with separators, the point lies on a separator line of the child box starting at `a`. */
  predicate OnSeparator(a: int, s: int, X: int)
    requires s >= 0
  {
    ((X - 2 * a) / 2) % (s + 1) == s
  }

  // ------------------------------------------------------------ compile

  /** The bounds `compile()` gives. */
  function Bounds(img: Image): Box
    requires Compiles(img)
    decreases img, 1
  {
    match img
    case BasicImage(cells, stride) => Box(0, 0, stride, RowsOf(|cells|, stride))
    case SemanticBox(w, h, _) => Box(0, 0, w, h)
    case MonochromeColor(_, c) => Bounds(c)
    case BackgroundColor(_, c) => Bounds(c)
    case SubImages(parts, _, _, _) => PartsHull(parts)
    case ImageWindow(x0, y0, x1, y1, _) => Box(x0, y0, x1, y1)
    case Scale(s, c, g) => ScaledBounds(s, c, g)
    case Translation(x, y, _, _, _, _, c) =>
      (match Bounds(c)
       case NoBox => NoBox
       case Box(a, b, a1, b1) => Box(a + x, b + y, a1 + x, b1 + y))
    case ImageTransformation(t, c) => TransformBox(t, Bounds(c))
    case Alternatives(alts) => Bounds(alts[0])
    case ImageData(_, c) => Bounds(c)
    case Info(a, b) => Hull(Bounds(a), Bounds(b))
    case Abstraction(_, parts) => PartsHull(parts)
    case SolidColor(_) => NoBox
    case PixelImage(_) => NoBox
    case Absent => NoBox
  }
  /** The bounds of each child of a `SubImages`. */
  function PartBounds(parts: seq<Image>): (boxes: seq<Box>)
    requires forall i :: 0 <= i < |parts| ==> Compiles(parts[i])
    ensures |boxes| == |parts| && forall i :: 0 <= i < |parts| ==> boxes[i] == Bounds(parts[i])
    decreases parts, 0
  {
    seq(|parts|, i requires 0 <= i < |parts| => Bounds(parts[i]))
  }

  /** A `SubImages` spans the hull of its children's bounds. */
  function PartsHull(parts: seq<Image>): Box
    requires forall i :: 0 <= i < |parts| ==> Compiles(parts[i])
    decreases parts, 1
  {
    HullOf(PartBounds(parts))
  }

  /** `Scale` keeps the child's top-left corner: s cells per child cell, and one more between blocks with a grid colour. */
  function ScaledBounds(s: int, c: Image, g: Color): Box
    requires s > 0 && Compiles(c)
    decreases Scale(s, c, g), 0
  {
    match Bounds(c)
    case NoBox => NoBox
    case Box(a, b, a1, b1) =>
      if g == NoColor then Box(a, b, a + s * (a1 - a), b + s * (b1 - b))
      else Box(a, b, a + GridSpan(s, a1 - a), b + GridSpan(s, b1 - b))
  }

  /** The column of a semantic box that holds x: the first, the inner ones, or the last. */
  function Band(X: int, w: int): int
  {
    if X < 2 then 0 else if X < 2 * w - 2 then 1 else 2
  }

  /** `BackgroundColor`: the background colour and black trade places. */
  function Swap(background: Color, c: Color): Color
  {
    if c == background then Black else if c == Black then background else c
  }

  /** 'xor': a running colour that a second non-black child cancels. */
  function XorOf(colors: seq<Color>): Color
  {
    if |colors| == 0 then Black
    else
      var value := XorOf(colors[..|colors| - 1]);
      var next := colors[|colors| - 1];
      if value == Black then next else if next != Black then Black else value
  }

  /** 'and': a running colour, starting at `true`, that any black child blackens. */
  function AndOf(colors: seq<Color>): Color
  {
    if |colors| == 0 then True
    else
      var value := AndOf(colors[..|colors| - 1]);
      var next := colors[|colors| - 1];
      if value == Black || next == Black then Black else next
  }

  /**
   * 'free' (and numeric strides) from child `i` on: the first child that
   * covers the point and is not black there; black if some child covered
   * it; the grid colour otherwise.
   */
  function FreeOf(boxes: seq<Box>, colors: seq<Color>, X: int, Y: int, hit: bool, grid: Color): Color
    requires |boxes| == |colors|
  {
    if |boxes| == 0 then (if hit then Black else grid)
    else if Covers(boxes[0], X, Y) && colors[0] != Black then colors[0]
    else FreeOf(boxes[1..], colors[1..], X, Y, hit || Covers(boxes[0], X, Y), grid)
  }

  /** The colour `compile().at` gives at the point (X, Y), in half units. */
  function Sample(img: Image, X: int, Y: int): Color
    requires Compiles(img)
    decreases img, 1
  {
    match img
    case BasicImage(cells, stride) =>
      if 0 <= X < 2 * stride && 0 <= Y < 2 * RowsOf(|cells|, stride)
      then Read(cells, (Y / 2) * stride + X / 2) else Black
    case SemanticBox(w, h, l) =>
      if 0 <= X < 2 * w && 0 <= Y < 2 * h then Read(l, 3 * Band(Y, h) + Band(X, w)) else Black
    case MonochromeColor(color, c) => if Sample(c, X, Y) != Black then color else Black
    case BackgroundColor(bg, c) => Swap(bg, Sample(c, X, Y))
    case SubImages(parts, mode, g, _) => Combine(parts, mode, g, X, Y)
    case ImageWindow(x0, y0, x1, y1, c) =>
      if X < 2 * x0 || X >= 2 * x1 || Y < 2 * y0 || Y >= 2 * y1 then Black else Sample(c, X, Y)
    case Scale(s, c, g) => SampleScaled(s, c, g, X, Y)
    case Translation(x, y, _, _, _, _, c) => Sample(c, X - 2 * x, Y - 2 * y)
    case ImageTransformation(t, c) => Sample(c, SourceX(t, X, Y), SourceY(t, X, Y))
    case Alternatives(alts) => Sample(alts[0], X, Y)
    case ImageData(_, c) => Sample(c, X, Y)
    case Info(a, _) => Sample(a, X, Y)
    case Abstraction(_, parts) => FreeOf(PartBounds(parts), PartSamples(parts, X, Y), X, Y, false, Black)
    case SolidColor(_) => Black
    case PixelImage(_) => Black
    case Absent => Black
  }
  /**
   * `Scale`: each child cell becomes an s x s block, read at the centre of
   * the child cell; with a grid colour, a separator line runs between blocks.
   */
  function SampleScaled(s: int, c: Image, g: Color, X: int, Y: int): Color
    requires s > 0 && Compiles(c)
    decreases Scale(s, c, g), 0
  {
    match Bounds(c)
    case NoBox => if g == NoColor then Sample(c, X, Y) else Black
    case Box(a, b, a1, b1) =>
      if g == NoColor then Sample(c, ScaleRead(a, s, X), ScaleRead(b, s, Y))
      else if 2 * a <= X < 2 * (a + GridSpan(s, a1 - a)) && 2 * b <= Y < 2 * (b + GridSpan(s, b1 - b)) then
        if OnSeparator(a, s, X) || OnSeparator(b, s, Y) then g
        else Sample(c, ScaleRead(a, s + 1, X), ScaleRead(b, s + 1, Y))
      else Black
  }

  /** The colours the children of a `SubImages` give at a point. */
  function PartSamples(parts: seq<Image>, X: int, Y: int): (colors: seq<Color>)
    requires forall i :: 0 <= i < |parts| ==> Compiles(parts[i])
    ensures |colors| == |parts| && forall i :: 0 <= i < |parts| ==> colors[i] == Sample(parts[i], X, Y)
    decreases parts, 0
  {
    seq(|parts|, i requires 0 <= i < |parts| => Sample(parts[i], X, Y))
  }
  /** How a `SubImages` combines its children at a point, as its `stride` says. */
  function Combine(parts: seq<Image>, mode: Mode, g: Color, X: int, Y: int): Color
    requires forall i :: 0 <= i < |parts| ==> Compiles(parts[i])
    decreases parts, 1
  {
    var colors := PartSamples(parts, X, Y);
    if mode.Xor? then XorOf(colors)
    else if mode.And? then AndOf(colors)
    else FreeOf(PartBounds(parts), colors, X, Y, false, g)
  }


  /** The colour at the centre of cell (x, y). */
  function Pixel(img: Image, x: int, y: int): Color
    requires Compiles(img)
  {
    Sample(img, 2 * x + 1, 2 * y + 1)
  }

  // ------------------------------------------------------------ bounds of a list

  /** A point in one of the boxes lies in their hull. */
  lemma {:induction false} HullOfCovers(boxes: seq<Box>, i: int, X: int, Y: int)
    requires 0 <= i < |boxes| && Covers(boxes[i], X, Y)
    ensures Covers(HullOf(boxes), X, Y)
  {
    if i > 0 {
      HullOfCovers(boxes[1..], i - 1, X, Y);
    }
  }

  /**
   * `Math.min`/`Math.max` over the children: the hull is empty exactly when
   * every box is, holds every box, and each of its sides is some box's side.
   */
  lemma {:induction false} HullOfTight(boxes: seq<Box>)
    ensures HullOf(boxes).NoBox? <==> forall i :: 0 <= i < |boxes| ==> boxes[i].NoBox?
    ensures forall i :: 0 <= i < |boxes| && boxes[i].Box? ==>
      HullOf(boxes).x0 <= boxes[i].x0 && HullOf(boxes).y0 <= boxes[i].y0
      && boxes[i].x1 <= HullOf(boxes).x1 && boxes[i].y1 <= HullOf(boxes).y1
    ensures HullOf(boxes).Box? ==>
      (exists i :: 0 <= i < |boxes| && boxes[i].Box? && boxes[i].x0 == HullOf(boxes).x0)
      && (exists i :: 0 <= i < |boxes| && boxes[i].Box? && boxes[i].y0 == HullOf(boxes).y0)
      && (exists i :: 0 <= i < |boxes| && boxes[i].Box? && boxes[i].x1 == HullOf(boxes).x1)
      && (exists i :: 0 <= i < |boxes| && boxes[i].Box? && boxes[i].y1 == HullOf(boxes).y1)
  {
    if |boxes| > 0 {
      var rest := boxes[1..];
      HullOfTight(rest);
      assert forall i :: 1 <= i < |boxes| ==> boxes[i] == rest[i - 1];
      var h := HullOf(boxes);
      if h.Box? && rest != [] && HullOf(rest).Box? && boxes[0].Box? {
        if h.x0 != boxes[0].x0 {
          var k :| 0 <= k < |rest| && rest[k].Box? && rest[k].x0 == HullOf(rest).x0;
          assert boxes[k + 1] == rest[k];
        }
        if h.y0 != boxes[0].y0 {
          var k :| 0 <= k < |rest| && rest[k].Box? && rest[k].y0 == HullOf(rest).y0;
          assert boxes[k + 1] == rest[k];
        }
        if h.x1 != boxes[0].x1 {
          var k :| 0 <= k < |rest| && rest[k].Box? && rest[k].x1 == HullOf(rest).x1;
          assert boxes[k + 1] == rest[k];
        }
        if h.y1 != boxes[0].y1 {
          var k :| 0 <= k < |rest| && rest[k].Box? && rest[k].y1 == HullOf(rest).y1;
          assert boxes[k + 1] == rest[k];
        }
      } else if h.Box? && (rest == [] || HullOf(rest).NoBox?) {
        assert h == boxes[0];
      } else if h.Box? {
        var k :| 0 <= k < |rest| && rest[k].Box? && rest[k].x0 == HullOf(rest).x0;
        assert boxes[k + 1] == rest[k];
        var k1 :| 0 <= k1 < |rest| && rest[k1].Box? && rest[k1].y0 == HullOf(rest).y0;
        assert boxes[k1 + 1] == rest[k1];
        var k2 :| 0 <= k2 < |rest| && rest[k2].Box? && rest[k2].x1 == HullOf(rest).x1;
        assert boxes[k2 + 1] == rest[k2];
        var k3 :| 0 <= k3 < |rest| && rest[k3].Box? && rest[k3].y1 == HullOf(rest).y1;
        assert boxes[k3 + 1] == rest[k3];
      }
    }
  }



  /** A point of any child lies in the bounds of a `SubImages`. */
  lemma SubImagesCover(img: Image, i: int, X: int, Y: int)
    requires img.SubImages? && Compiles(img) && 0 <= i < |img.parts|
    requires Covers(Bounds(img.parts[i]), X, Y)
    ensures Covers(Bounds(img), X, Y)
  {
    assert Bounds(img) == HullOf(PartBounds(img.parts));
    HullOfCovers(PartBounds(img.parts), i, X, Y);
  }

  // ------------------------------------------------------------ combining children

  /** 'xor' of two children: the non-black one when exactly one is non-black, black otherwise. */
  lemma XorOfTwo(a: Color, b: Color)
    ensures XorOf([a, b]) == if (a != Black) == (b != Black) then Black else if a != Black then a else b
  {
    assert [a][..0] == [];
    assert XorOf([a]) == a;
    assert [a, b][..1] == [a];
  }

  /** 'and': black when some child is black, otherwise the last child's colour (`true` with no child). */
  lemma {:induction false} AndOfSpec(colors: seq<Color>)
    ensures (exists i :: 0 <= i < |colors| && colors[i] == Black) ==> AndOf(colors) == Black
    ensures (forall i :: 0 <= i < |colors| ==> colors[i] != Black) ==>
      AndOf(colors) == if |colors| == 0 then True else colors[|colors| - 1]
  {
    if |colors| > 0 {
      var front := colors[..|colors| - 1];
      AndOfSpec(front);
      if exists i :: 0 <= i < |colors| && colors[i] == Black {
        var i :| 0 <= i < |colors| && colors[i] == Black;
        if i < |colors| - 1 {
          assert front[i] == Black;
        }
      }
      if forall i :: 0 <= i < |colors| ==> colors[i] != Black {
        if |front| > 0 {
          assert front[|front| - 1] == colors[|colors| - 2];
        }
      }
    }
  }

  /** Child i covers the point and is not black there. */
  predicate LitAt(boxes: seq<Box>, colors: seq<Color>, i: int, X: int, Y: int)
    requires 0 <= i < |boxes| == |colors|
  {
    Covers(boxes[i], X, Y) && colors[i] != Black
  }

  /** Child i is the first child lit at the point. */
  predicate FirstLitAt(boxes: seq<Box>, colors: seq<Color>, i: int, X: int, Y: int)
    requires 0 <= i < |boxes| == |colors|
  {
    LitAt(boxes, colors, i, X, Y) && forall j :: 0 <= j < i ==> !LitAt(boxes, colors, j, X, Y)
  }

  /** 'free': the first lit child gives its colour. */
  lemma {:induction false} FreeOfFirst(boxes: seq<Box>, colors: seq<Color>, X: int, Y: int, hit: bool, grid: Color, i: int)
    requires |boxes| == |colors| && 0 <= i < |boxes| && FirstLitAt(boxes, colors, i, X, Y)
    ensures FreeOf(boxes, colors, X, Y, hit, grid) == colors[i]
  {
    if i > 0 {
      var bs, cs := boxes[1..], colors[1..];
      assert !LitAt(boxes, colors, 0, X, Y);
      forall j | 0 <= j < i - 1
        ensures !LitAt(bs, cs, j, X, Y)
      {
        assert !LitAt(boxes, colors, j + 1, X, Y);
      }
      assert LitAt(bs, cs, i - 1, X, Y) by {
        assert LitAt(boxes, colors, i, X, Y);
      }
      FreeOfFirst(bs, cs, X, Y, hit || Covers(boxes[0], X, Y), grid, i - 1);
    }
  }

  /** 'free' with no lit child: black if some child covers the point (or one did before), the grid colour otherwise. */
  lemma {:induction false} FreeOfNone(boxes: seq<Box>, colors: seq<Color>, X: int, Y: int, hit: bool, grid: Color)
    requires |boxes| == |colors|
    requires forall i :: 0 <= i < |boxes| ==> !LitAt(boxes, colors, i, X, Y)
    ensures FreeOf(boxes, colors, X, Y, hit, grid) ==
      if hit || exists i :: 0 <= i < |boxes| && Covers(boxes[i], X, Y) then Black else grid
  {
    if |boxes| > 0 {
      var bs, cs := boxes[1..], colors[1..];
      var hit' := hit || Covers(boxes[0], X, Y);
      forall i | 0 <= i < |bs|
        ensures !LitAt(bs, cs, i, X, Y)
      {
        assert !LitAt(boxes, colors, i + 1, X, Y);
      }
      FreeOfNone(bs, cs, X, Y, hit', grid);
      assert !LitAt(boxes, colors, 0, X, Y);
      var anyAll := exists i :: 0 <= i < |boxes| && Covers(boxes[i], X, Y);
      var anyRest := exists i :: 0 <= i < |bs| && Covers(bs[i], X, Y);
      if anyAll {
        var i :| 0 <= i < |boxes| && Covers(boxes[i], X, Y);
        if i > 0 {
          assert Covers(bs[i - 1], X, Y);
        }
      }
      if anyRest {
        var i :| 0 <= i < |bs| && Covers(bs[i], X, Y);
        assert Covers(boxes[i + 1], X, Y);
      }
      assert (hit' || anyRest) == (hit || anyAll);
    }
  }



  /** A child shows a non-black colour at a point inside its bounds. */
  predicate Lit(p: Image, X: int, Y: int)
    requires Compiles(p)
  {
    Covers(Bounds(p), X, Y) && Sample(p, X, Y) != Black
  }

  /** Child i of a `SubImages` is the first one lit at the point. */
  predicate FirstLit(img: Image, i: int, X: int, Y: int)
    requires img.SubImages? && Compiles(img) && 0 <= i < |img.parts|
  {
    Lit(img.parts[i], X, Y) && forall j :: 0 <= j < i ==> !Lit(img.parts[j], X, Y)
  }

  /**
   * 'free' (and numeric strides): the first child lit at the point gives
   * its colour; with none lit, black if some child covers the point and
   * the grid colour if none does.
   */
  lemma SubImagesFree(img: Image, X: int, Y: int)
    requires img.SubImages? && !img.mode.Xor? && !img.mode.And? && Compiles(img)
    ensures forall i :: 0 <= i < |img.parts| && FirstLit(img, i, X, Y) ==> Sample(img, X, Y) == Sample(img.parts[i], X, Y)
    ensures (forall i :: 0 <= i < |img.parts| ==> !Lit(img.parts[i], X, Y)) ==>
      Sample(img, X, Y) ==
        if exists i :: 0 <= i < |img.parts| && Covers(Bounds(img.parts[i]), X, Y) then Black else img.gridColor
  {
    var boxes, colors := PartBounds(img.parts), PartSamples(img.parts, X, Y);
    assert Sample(img, X, Y) == FreeOf(boxes, colors, X, Y, false, img.gridColor);
    assert forall i :: 0 <= i < |img.parts| ==> LitAt(boxes, colors, i, X, Y) == Lit(img.parts[i], X, Y);
    forall i | 0 <= i < |img.parts| && FirstLit(img, i, X, Y)
      ensures Sample(img, X, Y) == Sample(img.parts[i], X, Y)
    {
      FreeOfFirst(boxes, colors, X, Y, false, img.gridColor, i);
    }
    if forall i :: 0 <= i < |img.parts| ==> !Lit(img.parts[i], X, Y) {
      FreeOfNone(boxes, colors, X, Y, false, img.gridColor);
    }
  }

  /**
   * `Abstraction.compile`: the hull of the sub-images' bounds; the first
   * sub-image lit at a point gives its colour, and black where none is.
   */
  lemma AbstractionSample(name: string, parts: seq<Image>, X: int, Y: int)
    requires Compiles(Abstraction(name, parts))
    ensures Bounds(Abstraction(name, parts)) == HullOf(PartBounds(parts))
    ensures forall i :: 0 <= i < |parts| && Lit(parts[i], X, Y) && (forall j :: 0 <= j < i ==> !Lit(parts[j], X, Y)) ==>
      Sample(Abstraction(name, parts), X, Y) == Sample(parts[i], X, Y)
    ensures (forall i :: 0 <= i < |parts| ==> !Lit(parts[i], X, Y)) ==> Sample(Abstraction(name, parts), X, Y) == Black
  {
    var boxes, colors := PartBounds(parts), PartSamples(parts, X, Y);
    assert forall i :: 0 <= i < |parts| ==> LitAt(boxes, colors, i, X, Y) == Lit(parts[i], X, Y);
    forall i | 0 <= i < |parts| && Lit(parts[i], X, Y) && (forall j :: 0 <= j < i ==> !Lit(parts[j], X, Y))
      ensures Sample(Abstraction(name, parts), X, Y) == Sample(parts[i], X, Y)
    {
      FreeOfFirst(boxes, colors, X, Y, false, Black, i);
    }
    if forall i :: 0 <= i < |parts| ==> !Lit(parts[i], X, Y) {
      FreeOfNone(boxes, colors, X, Y, false, Black);
    }
  }

  /** 'and': black where any child is black, otherwise the last child's colour. */
  lemma SubImagesAnd(img: Image, X: int, Y: int)
    requires img.SubImages? && img.mode.And? && Compiles(img)
    ensures (exists i :: 0 <= i < |img.parts| && Sample(img.parts[i], X, Y) == Black) ==> Sample(img, X, Y) == Black
    ensures (forall i :: 0 <= i < |img.parts| ==> Sample(img.parts[i], X, Y) != Black) ==>
      Sample(img, X, Y) == if |img.parts| == 0 then True else Sample(img.parts[|img.parts| - 1], X, Y)
  {
    var colors := PartSamples(img.parts, X, Y);
    assert Sample(img, X, Y) == AndOf(colors);
    AndOfSpec(colors);
  }

  /** 'xor' of two children: the non-black one when exactly one is non-black, black otherwise. */
  lemma SubImagesXor(img: Image, X: int, Y: int)
    requires img.SubImages? && img.mode.Xor? && Compiles(img) && |img.parts| == 2
    ensures var a, b := Sample(img.parts[0], X, Y), Sample(img.parts[1], X, Y);
      Sample(img, X, Y) == if (a != Black) == (b != Black) then Black else if a != Black then a else b
  {
    var colors := PartSamples(img.parts, X, Y);
    assert colors == [colors[0], colors[1]];
    XorOfTwo(colors[0], colors[1]);
  }

  // ------------------------------------------------------------ colour wrappers

  /** `MonochromeColor` keeps the bounds and paints every non-black point its colour. */
  lemma MonochromePaints(color: Color, c: Image, X: int, Y: int)
    requires Compiles(c)
    ensures Bounds(MonochromeColor(color, c)) == Bounds(c)
    ensures Sample(c, X, Y) != Black ==> Sample(MonochromeColor(color, c), X, Y) == color
    ensures Sample(c, X, Y) == Black ==> Sample(MonochromeColor(color, c), X, Y) == Black
  {
  }

  /** Swapping the same colour with black twice changes nothing. */
  lemma SwapInvolutive(background: Color, c: Color)
    ensures Swap(background, Swap(background, c)) == c
  {
  }

  /** The same `BackgroundColor` twice gives back the child's bounds and colours. */
  lemma BackgroundTwice(background: Color, c: Image, X: int, Y: int)
    requires Compiles(c)
    ensures Bounds(BackgroundColor(background, BackgroundColor(background, c))) == Bounds(c)
    ensures Sample(BackgroundColor(background, BackgroundColor(background, c)), X, Y) == Sample(c, X, Y)
  {
    SwapInvolutive(background, Sample(c, X, Y));
  }

  // ------------------------------------------------------------ symmetries

  /** The symmetry that undoes t. */
  function Inverse(t: Transform): (u: Transform)
    requires IsSymmetry(t)
    ensures IsSymmetry(u)
  {
    match t
    case Rotate90 => Rotate270
    case Rotate270 => Rotate90
    case _ => t
  }

  /**
   * A symmetry applied over its inverse gives back the child's bounds and
   * sampling: flip_x of flip_x, rotate_90 of rotate_270, and so on.
   */
  lemma InverseUndoes(t: Transform, c: Image, X: int, Y: int)
    requires IsSymmetry(t) && Compiles(c)
    ensures Bounds(ImageTransformation(t, ImageTransformation(Inverse(t), c))) == Bounds(c)
    ensures Sample(ImageTransformation(t, ImageTransformation(Inverse(t), c)), X, Y) == Sample(c, X, Y)
  {
  }

  /** `transpose` swaps the x and y bounds. */
  lemma TransposeSwaps(c: Image)
    requires Compiles(c)
    ensures var b := Bounds(c);
      Bounds(ImageTransformation(Transpose, c)) == if b.NoBox? then NoBox else Box(b.y0, b.x0, b.y1, b.x1)
  {
  }

  /** The cell a symmetry reads in its child for cell (x, y): a negated axis sends i to -i-1. */
  function CellX(t: Transform, x: int, y: int): int
  {
    match t
    case FlipX => -x - 1
    case Rotate180 => -x - 1
    case Transpose => y
    case OppositeTranspose => -y - 1
    case Rotate90 => y
    case Rotate270 => -y - 1
    case _ => x
  }

  function CellY(t: Transform, x: int, y: int): int
  {
    match t
    case FlipY => -y - 1
    case Rotate180 => -y - 1
    case Transpose => x
    case OppositeTranspose => -x - 1
    case Rotate90 => -x - 1
    case Rotate270 => x
    case _ => y
  }

  /** On cell centres, a transformed image is its child read at the mirrored cell. */
  lemma TransformPixel(t: Transform, c: Image, x: int, y: int)
    requires IsSymmetry(t) && Compiles(c)
    ensures Pixel(ImageTransformation(t, c), x, y) == Pixel(c, CellX(t, x, y), CellY(t, x, y))
  {
    CentreSource(t, x, y);
  }

  /** A symmetry sends the centre of cell (x, y) to the centre of the mirrored cell. */
  lemma CentreSource(t: Transform, x: int, y: int)
    ensures SourceX(t, 2 * x + 1, 2 * y + 1) == 2 * CellX(t, x, y) + 1
    ensures SourceY(t, 2 * x + 1, 2 * y + 1) == 2 * CellY(t, x, y) + 1
  {
  }

  // ------------------------------------------------------------ translation

  /** One axis of a `Translation`: the raw offset and the two ends. */
  datatype Axis = Axis(offset: int, lo: int, hi: int)

  /** The constructor's case analysis on one anchor, for a child spanning [c0, c1). */
  function Anchored(v: int, anchor: Anchor, c0: int, c1: int): (a: Axis)
    ensures anchor.Start? ==> a.lo == v
    ensures anchor.End? ==> a.hi == v
    ensures anchor.Zero? ==> a.offset == v
    ensures a.lo == a.offset + c0 && a.hi == a.offset + c1
  {
    match anchor
    case Start => Axis(v - c0, v, v - c0 + c1)
    case End => Axis(v - c1, v - c1 + c0, v)
    case Zero => Axis(v, v + c0, v + c1)
  }

  /** `new Translation(x, y, image, anchor_x, anchor_y)`. */
  function MakeTranslation(x: int, y: int, c: Image, ax: Anchor, ay: Anchor): (t: Image)
    requires Compiles(c) && Bounds(c).Box?
    ensures t.Translation? && t.image == c && Compiles(t)
  {
    var b := Bounds(c);
    var h := Anchored(x, ax, b.x0, b.x1);
    var v := Anchored(y, ay, b.y0, b.y1);
    Translation(h.offset, v.offset, h.lo, v.lo, h.hi, v.hi, c)
  }

  /**
   * Anchor 0 puts x0 at the given value, anchor 1 puts x1 there, 'zero'
   * makes it the raw offset; the width is the child's, and the stored ends
   * are the bounds `compile()` gives.
   */
  lemma TranslationAnchors(x: int, y: int, c: Image, ax: Anchor, ay: Anchor)
    requires Compiles(c) && Bounds(c).Box?
    ensures var t := MakeTranslation(x, y, c, ax, ay);
      (ax.Start? ==> t.x0 == x) && (ax.End? ==> t.x1 == x) && (ax.Zero? ==> t.x == x)
      && (ay.Start? ==> t.y0 == y) && (ay.End? ==> t.y1 == y) && (ay.Zero? ==> t.y == y)
      && t.x1 - t.x0 == Bounds(c).x1 - Bounds(c).x0 && t.y1 - t.y0 == Bounds(c).y1 - Bounds(c).y0
      && Bounds(t) == Box(t.x0, t.y0, t.x1, t.y1)
  {
  }

  /** A translated image shows its child's cell (x - dx, y - dy) at cell (x, y). */
  lemma TranslationPixel(c: Image, dx: int, dy: int, x: int, y: int)
    requires Compiles(c)
    ensures forall x0, y0, x1, y1 :: Pixel(Translation(dx, dy, x0, y0, x1, y1, c), x, y) == Pixel(c, x - dx, y - dy)
  {
  }

  // ------------------------------------------------------------ traversal

  /** `images()`: the direct children, in the order the generator yields them. */
  function Children(img: Image): (ch: seq<Image>)
    ensures forall i :: 0 <= i < |ch| ==> ch[i] < img
  {
    match img
    case BasicImage(_, _) => []
    case SemanticBox(_, _, _) => []
    case SubImages(parts, _, _, _) => parts
    case Alternatives(alts) => alts
    case Info(a, b) => [a, b]
    case Abstraction(_, parts) => parts
    case SolidColor(_) => []
    case PixelImage(_) => []
    case Absent => []
    case _ => [img.image]
  }

  function Concat(ss: seq<seq<Image>>): seq<Image>
  {
    if |ss| == 0 then [] else ss[0] + Concat(ss[1..])
  }

  /** `recur_images()`: the image, then each child's traversal in turn (pre-order). */
  function RecurImages(img: Image): (all: seq<Image>)
    ensures |all| > 0 && all[0] == img
  {
    var ch := Children(img);
    [img] + Concat(seq(|ch|, i requires 0 <= i < |ch| => RecurImages(ch[i])))
  }

  lemma {:induction false} ConcatHas(ss: seq<seq<Image>>, i: int, x: Image)
    requires 0 <= i < |ss| && x in ss[i]
    ensures x in Concat(ss)
  {
    if i > 0 {
      ConcatHas(ss[1..], i - 1, x);
    }
  }

  lemma {:induction false} ConcatBelow(ss: seq<seq<Image>>, img: Image)
    requires forall i, k :: 0 <= i < |ss| && 0 <= k < |ss[i]| ==> ss[i][k] < img
    ensures forall k :: 0 <= k < |Concat(ss)| ==> Concat(ss)[k] < img
  {
    if |ss| > 0 {
      ConcatBelow(ss[1..], img);
    }
  }

  /**
   * The traversal starts with the image, lists every image of each child's
   * traversal, and holds nothing but the image and its descendants.
   */
  lemma {:induction false} RecurImagesMembers(img: Image)
    ensures RecurImages(img)[0] == img
    ensures forall i, x :: 0 <= i < |Children(img)| && x in RecurImages(Children(img)[i]) ==> x in RecurImages(img)
    ensures forall k :: 1 <= k < |RecurImages(img)| ==> RecurImages(img)[k] < img
    decreases img
  {
    var ch := Children(img);
    var ss := seq(|ch|, i requires 0 <= i < |ch| => RecurImages(ch[i]));
    forall i, x | 0 <= i < |ch| && x in RecurImages(ch[i])
      ensures x in RecurImages(img)
    {
      ConcatHas(ss, i, x);
    }
    forall i, k | 0 <= i < |ss| && 0 <= k < |ss[i]|
      ensures ss[i][k] < img
    {
      RecurImagesMembers(ch[i]);
      assert ss[i][k] == ch[i] || ss[i][k] < ch[i];
    }
    ConcatBelow(ss, img);
  }
}
