/**
 * The mutable colour grid of lib/Grid.ts: a 2-D array of colours updated
 * in place, with the operations proved against the value functions of
 * `GridValues`.
 */
module Grids {
  import opened Colors
  import opened GridValues
  import opened GridDrawing
  import opened Transforms
  import opened GridShape
  import opened GridMaster
  import opened GridObjects
  import opened GridScan
  import opened Wrappers

  class Grid {
    const width: nat
    const height: nat
    /** `cells[y, x]` is the colour at column x of row y. */
    const cells: array2<Color>

    ghost predicate Valid()
    {
      cells.Length0 == height && cells.Length1 == width
    }

    /** The current contents as a value. */
    function Value(): (r: Raster)
      requires Valid()
      reads cells
      ensures r.width == width && r.height == height
      ensures forall x, y :: 0 <= x < width && 0 <= y < height ==> At(r, x, y) == cells[y, x]
    {
      RasterData(width, height,
        seq(height, y requires 0 <= y < height reads cells =>
          seq(width, x requires 0 <= x < width reads cells => cells[y, x])))
    }

    /** The contents are `r` when the sizes agree and every cell holds `r`'s colour. */
    lemma ValueIs(r: Raster)
      requires Valid()
      requires r.width == width && r.height == height
      requires forall x, y :: 0 <= x < width && 0 <= y < height ==> cells[y, x] == At(r, x, y)
      ensures Value() == r
    {
      Extensionality(Value(), r);
    }

    /** `new Grid(width, height, color)`: every cell holds `color` (black when none is given). */
    constructor (w: nat, h: nat, color: Color)
      ensures Valid() && fresh(cells)
      ensures Value() == Filled(w, h, color)
    {
      width, height := w, h;
      cells := new Color[h, w]((y, x) => color);
      new;
      ValueIs(Filled(w, h, color));
    }

    /** A fresh grid holding the given cells (`Grid.from_grid`). */
    constructor FromRows(r: Raster)
      ensures Valid() && fresh(cells)
      ensures Value() == r
    {
      width, height := r.width, r.height;
      cells := new Color[r.height, r.width]((y, x) requires 0 <= y < r.height && 0 <= x < r.width => r.rows[y][x]);
      new;
      ValueIs(r);
    }

    /** `at` on the array: the stored colour inside, `undefined` outside. */
    function Get(x: int, y: int): (c: Color)
      requires Valid()
      reads cells
      ensures c == At(Value(), x, y)
    {
      if 0 <= x < width && 0 <= y < height then cells[y, x] else Undefined
    }

    /** `set`: writes one cell when it lies inside the grid, nothing otherwise. */
    method Set(x: int, y: int, c: Color)
      requires Valid()
      modifies cells
      ensures Value() == SetCell(old(Value()), x, y, c)
      ensures forall a, b :: 0 <= a < width && 0 <= b < height ==>
        cells[b, a] == if a == x && b == y then c else old(cells[b, a])
    {
      ghost var before := Value();
      if 0 <= x < width && 0 <= y < height {
        cells[y, x] := c;
      }
      forall a, b | 0 <= a < width && 0 <= b < height
        ensures cells[b, a] == At(SetCell(before, x, y, c), a, b)
      {
        SetThenAt(before, x, y, c, a, b);
      }
      ValueIs(SetCell(before, x, y, c));
    }

    /** `set` seen as painting the one cell. */
    method Paint(x: int, y: int, c: Color)
      requires Valid()
      modifies cells
      ensures Value() == Painted(old(Value()), {(x, y)}, c)
    {
      ghost var before := Value();
      Set(x, y, c);
      PaintPoint(before, x, y, c);
    }

    /** `clone`: a fresh grid with the same cells. */
    method Clone() returns (g: Grid)
      requires Valid()
      ensures fresh(g) && fresh(g.cells) && g.Valid()
      ensures g.Value() == Value()
    {
      g := new Grid(width, height, Black);
      var j := 0;
      while j < height
        invariant 0 <= j <= height
        invariant forall x, y :: 0 <= x < width && 0 <= y < j ==> g.cells[y, x] == cells[y, x]
      {
        var i := 0;
        while i < width
          invariant 0 <= i <= width
          invariant forall x, y :: 0 <= x < width && 0 <= y < j ==> g.cells[y, x] == cells[y, x]
          invariant forall x :: 0 <= x < i ==> g.cells[j, x] == cells[j, x]
        {
          g.cells[j, i] := cells[j, i];
          i := i + 1;
        }
        j := j + 1;
      }
      g.ValueIs(Value());
    }

    /** `clear_clone(color)`: a fresh grid of the same size filled with `color`. */
    method ClearClone(color: Color) returns (g: Grid)
      requires Valid()
      ensures fresh(g) && fresh(g.cells) && g.Valid()
      ensures g.Value() == Filled(width, height, color)
    {
      g := new Grid(width, height, color);
    }

    /** `subgrid(x0, y0, x1, y1)`: a fresh copy of the window [x0, x1) x [y0, y1). */
    method Subgrid(x0: int, y0: int, x1: int, y1: int) returns (g: Grid)
      requires Valid()
      requires 0 <= y0 <= y1 <= height && x0 <= x1
      ensures fresh(g) && fresh(g.cells) && g.Valid()
      ensures g.Value() == Sub(Value(), x0, y0, x1, y1)
    {
      var target := Sub(Value(), x0, y0, x1, y1);
      g := new Grid(x1 - x0, y1 - y0, Black);
      var j := 0;
      while j < g.height
        invariant 0 <= j <= g.height
        invariant forall x, y :: 0 <= x < g.width && 0 <= y < j ==> g.cells[y, x] == At(target, x, y)
      {
        CopyRow(g, x0, y0, j);
        j := j + 1;
      }
      g.ValueIs(target);
    }

    /** The inner loop of `subgrid`: row j of the copy, read from row y0 + j of this grid from column x0 on. */
    method CopyRow(g: Grid, x0: int, y0: int, j: int)
      requires Valid() && g.Valid() && g.cells != cells && 0 <= j < g.height
      modifies g.cells
      ensures forall x, y :: 0 <= x < g.width && 0 <= y < g.height ==>
        g.cells[y, x] == if y == j then Get(x0 + x, y0 + j) else old(g.cells[y, x])
    {
      var i := 0;
      while i < g.width
        invariant 0 <= i <= g.width
        invariant forall x, y :: 0 <= x < g.width && 0 <= y < g.height ==>
          g.cells[y, x] == if y == j && x < i then Get(x0 + x, y0 + j) else old(g.cells[y, x])
      {
        g.cells[j, i] := Get(x0 + i, y0 + j);
        i := i + 1;
      }
    }

    /** `equals`: same size and the same colour in every cell. */
    method Equals(other: Grid) returns (r: bool)
      requires Valid() && other.Valid()
      ensures r <==> Value() == other.Value()
    {
      if width != other.width || height != other.height {
        return false;
      }
      var j := 0;
      while j < height
        invariant 0 <= j <= height
        invariant forall x, y :: 0 <= x < width && 0 <= y < j ==> cells[y, x] == other.cells[y, x]
      {
        var i := 0;
        while i < width
          invariant 0 <= i <= width
          invariant forall x :: 0 <= x < i ==> cells[j, x] == other.cells[j, x]
        {
          if other.cells[j, i] != cells[j, i] {
            assert At(Value(), i, j) != At(other.Value(), i, j);
            return false;
          }
          i := i + 1;
        }
        j := j + 1;
      }
      Extensionality(Value(), other.Value());
      return true;
    }

    /** `count(test)`: the number of cells passing `test`, row by row. */
    method Count(test: Color -> bool) returns (count: nat)
      requires Valid()
      ensures count == GridValues.Count(Value(), test)
    {
      count := 0;
      var j := 0;
      while j < height
        invariant 0 <= j <= height
        invariant count == CountRows(Value(), test, j)
      {
        var i := 0;
        while i < width
          invariant 0 <= i <= width
          invariant count == CountRows(Value(), test, j) + CountRow(Value(), test, j, i)
        {
          if test(cells[j, i]) {
            count := count + 1;
          }
          i := i + 1;
        }
        j := j + 1;
      }
    }

    /**
     * `count_perimeter(test)`. A grid with no rows and a positive width
     * makes the source read a cell of a missing first row, a TypeError;
     * that is None here.
     */
    method CountPerimeter(test: Color -> bool) returns (r: Option<nat>)
      requires Valid()
      ensures r.None? <==> height == 0 && width > 0
      ensures r.Some? ==> r.value == GridValues.CountPerimeter(Value(), test)
    {
      if height == 0 {
        return if width > 0 then None else Some(0);
      }
      var rows := CountEdgeRows(test);
      var sides := CountEndColumns(test);
      r := Some(rows + sides);
    }

    /** The first loop of `count_perimeter`: the cells of the first and the last row that pass. */
    method CountEdgeRows(test: Color -> bool) returns (count: nat)
      requires Valid() && height > 0
      ensures count == CountRow(Value(), test, 0, width) + CountRow(Value(), test, height - 1, width)
    {
      count := 0;
      var i := 0;
      var c1, c2 := 0, 0;
      while i < width
        invariant 0 <= i <= width
        invariant c1 == CountRow(Value(), test, 0, i) && c2 == CountRow(Value(), test, height - 1, i)
        invariant count == c1 + c2
      {
        if test(cells[0, i]) {
          count, c1 := count + 1, c1 + 1;
        }
        if test(cells[height - 1, i]) {
          count, c2 := count + 1, c2 + 1;
        }
        i := i + 1;
      }
    }

    /** The second loop of `count_perimeter`: the end cells of the inner rows that pass. */
    method CountEndColumns(test: Color -> bool) returns (count: nat)
      requires Valid() && height > 0
      ensures count == CountSides(Value(), test, if height >= 2 then height - 2 else 0)
    {
      count := 0;
      var j := 1;
      while j < height - 1
        invariant 1 <= j <= if height >= 2 then height - 1 else 1
        invariant count == CountSides(Value(), test, j - 1)
      {
        if test(Get(0, j)) {
          count := count + 1;
        }
        if test(Get(width - 1, j)) {
          count := count + 1;
        }
        j := j + 1;
      }
    }

    /** `colors(background)`: the defined colours other than the background; pass `undefined` for none. */
    method Colors(background: Color) returns (s: set<Color>)
      requires Valid()
      ensures s == ColorsOf(Value(), background)
    {
      s := {};
      var j := 0;
      while j < height
        invariant 0 <= j <= height
        invariant s == RowsColors(Value(), background, j)
      {
        var i := 0;
        while i < width
          invariant 0 <= i <= width
          invariant s == RowsColors(Value(), background, j) + RowColors(Value(), background, j, i)
        {
          var color := cells[j, i];
          if color != Undefined && color != background {
            s := s + {color};
          }
          i := i + 1;
        }
        j := j + 1;
      }
    }

    /** `map_colors(mapping)`: a fresh grid with every defined cell mapped. */
    method MapColors(mapping: Color -> Color) returns (g: Grid)
      requires Valid()
      ensures fresh(g) && fresh(g.cells) && g.Valid()
      ensures g.Value() == GridValues.MapColors(Value(), mapping)
    {
      var target := GridValues.MapColors(Value(), mapping);
      g := new Grid(width, height, Black);
      var j := 0;
      while j < height
        invariant 0 <= j <= height
        invariant forall x, y :: 0 <= x < width && 0 <= y < j ==> g.cells[y, x] == At(target, x, y)
      {
        MapRow(g, mapping, j);
        j := j + 1;
      }
      g.ValueIs(target);
    }

    /** The inner loop of `map_colors`: row j of the copy, each defined cell mapped. */
    method MapRow(g: Grid, mapping: Color -> Color, j: int)
      requires Valid() && g.Valid() && g.cells != cells && g.width == width && 0 <= j < height == g.height
      modifies g.cells
      ensures forall x, y :: 0 <= x < width && 0 <= y < height ==>
        g.cells[y, x] == if y != j then old(g.cells[y, x]) else if cells[j, x] == Undefined then Undefined else mapping(cells[j, x])
    {
      var i := 0;
      while i < width
        invariant 0 <= i <= width
        invariant forall x, y :: 0 <= x < width && 0 <= y < height ==>
          g.cells[y, x] == if y != j || x >= i then old(g.cells[y, x])
                           else if cells[j, x] == Undefined then Undefined else mapping(cells[j, x])
      {
        var c := cells[j, i];
        if c != Undefined {
          g.cells[j, i] := mapping(c);
        } else {
          g.cells[j, i] := Undefined;
        }
        i := i + 1;
      }
    }

    /** `complement`: a fresh grid, true where this one is false, black elsewhere. */
    method Complement() returns (c: Grid)
      requires Valid()
      ensures fresh(c) && fresh(c.cells) && c.Valid()
      ensures c.Value() == GridValues.Complement(Value())
    {
      var target := GridValues.Complement(Value());
      c := ClearClone(Black);
      var x := 0;
      while x < width
        invariant 0 <= x <= width
        invariant forall a, b :: 0 <= a < width && 0 <= b < height ==>
          c.cells[b, a] == if a < x then At(target, a, b) else Black
      {
        var y := 0;
        while y < height
          invariant 0 <= y <= height
          invariant forall a, b :: 0 <= a < width && 0 <= b < height ==>
            c.cells[b, a] == if a < x || (a == x && b < y) then At(target, a, b) else Black
        {
          if cells[y, x] == False {
            c.cells[y, x] := True;
          }
          y := y + 1;
        }
        x := x + 1;
      }
      c.ValueIs(target);
    }

    /** `is_solid_color`: every cell equals the one at (0, 0). */
    method IsSolidColor() returns (r: bool)
      requires Valid()
      ensures r <==> IsSolid(Value())
    {
      var color := Get(0, 0);
      var x := 0;
      while x < width
        invariant 0 <= x <= width
        invariant forall a, b :: 0 <= a < x && 0 <= b < height ==> cells[b, a] == color
      {
        var y := 0;
        while y < height
          invariant 0 <= y <= height
          invariant forall a, b :: 0 <= a < x && 0 <= b < height ==> cells[b, a] == color
          invariant forall b :: 0 <= b < y ==> cells[b, x] == color
        {
          if cells[y, x] != color {
            assert At(Value(), x, y) != At(Value(), 0, 0);
            return false;
          }
          y := y + 1;
        }
        x := x + 1;
      }
      return true;
    }

    /** `erase(grid)`: blackens every cell where `grid` is not black (outside `grid` it reads `undefined`). */
    method Erase(grid: Grid)
      requires Valid() && grid.Valid()
      requires grid.cells != cells
      modifies cells
      ensures Value() == Erased(old(Value()), grid.Value())
    {
      ghost var before := Value();
      ghost var target := Erased(before, grid.Value());
      var x := 0;
      while x < width
        invariant 0 <= x <= width
        invariant forall a, b :: 0 <= a < width && 0 <= b < height ==>
          cells[b, a] == if a < x then At(target, a, b) else At(before, a, b)
      {
        var y := 0;
        while y < height
          invariant 0 <= y <= height
          invariant forall a, b :: 0 <= a < width && 0 <= b < height ==>
            cells[b, a] == if a < x || (a == x && b < y) then At(target, a, b) else At(before, a, b)
        {
          if grid.Get(x, y) != Black {
            cells[y, x] := Black;
          }
          y := y + 1;
        }
        x := x + 1;
      }
      ValueIs(target);
    }

    /** `draw_box(x0, y0, x1, y1, color)`: paints the cells of the box that lie inside the grid. */
    method DrawBox(x0: int, y0: int, x1: int, y1: int, color: Color)
      requires Valid()
      modifies cells
      ensures Value() == Boxed(old(Value()), x0, y0, x1, y1, color)
    {
      ghost var before := Value();
      var x := x0;
      while x < x1
        invariant x == x0 || x0 <= x <= x1
        invariant forall a, b :: 0 <= a < width && 0 <= b < height ==>
          cells[b, a] == if x0 <= a < x && y0 <= b < y1 then color else At(before, a, b)
      {
        var y := y0;
        while y < y1
          invariant y == y0 || y0 <= y <= y1
          invariant forall a, b :: 0 <= a < width && 0 <= b < height ==>
            cells[b, a] == if (x0 <= a < x && y0 <= b < y1) || (a == x && y0 <= b < y) then color else At(before, a, b)
        {
          if 0 <= x < width && 0 <= y < height {
            cells[y, x] := color;
          }
          y := y + 1;
        }
        x := x + 1;
      }
      ValueIs(Boxed(before, x0, y0, x1, y1, color));
    }

    /** `horizontal_colors(y)`: the set of colours read along row y. */
    method HorizontalColors(y: int) returns (s: set<Color>)
      requires Valid()
      ensures s == set x | 0 <= x < width :: At(Value(), x, y)
    {
      s := {};
      var x := 0;
      while x < width
        invariant 0 <= x <= width
        invariant s == set a | 0 <= a < x :: At(Value(), a, y)
      {
        s := s + {Get(x, y)};
        x := x + 1;
      }
    }

    /** `vertical_colors(x)`: the set of colours read down column x. */
    method VerticalColors(x: int) returns (s: set<Color>)
      requires Valid()
      ensures s == set y | 0 <= y < height :: At(Value(), x, y)
    {
      s := {};
      var y := 0;
      while y < height
        invariant 0 <= y <= height
        invariant s == set b | 0 <= b < y :: At(Value(), x, b)
      {
        s := s + {Get(x, y)};
        y := y + 1;
      }
    }
  
    /**
     * `draw_perimeter(color)`: paints the border rows and columns through
     * the row arrays. A grid with rows of length 0 would grow them, and an
     * empty grid with a positive width has no first row to write.
     */
    method DrawPerimeter(color: Color)
      requires Valid()
      requires (width > 0 && height > 0) || (width == 0 && height <= 2)
      modifies cells
      ensures Value() == Painted(old(Value()), BorderPoints(old(Value())), color)
    {
      ghost var before := Value();
      var i := 0;
      while i < width
        invariant 0 <= i <= width
        invariant forall a, b :: 0 <= a < width && 0 <= b < height ==>
          cells[b, a] == if (b == 0 || b == height - 1) && a < i then color else At(before, a, b)
      {
        cells[0, i] := color;
        cells[height - 1, i] := color;
        i := i + 1;
      }
      var j := 1;
      while j < height - 1
        invariant 1 <= j <= if height >= 2 then height - 1 else 1
        invariant forall a, b :: 0 <= a < width && 0 <= b < height ==>
          cells[b, a] == if b == 0 || b == height - 1 || ((a == 0 || a == width - 1) && b < j) then color
                         else At(before, a, b)
      {
        cells[j, 0] := color;
        cells[j, width - 1] := color;
        j := j + 1;
      }
      forall a, b | 0 <= a < width && 0 <= b < height
        ensures cells[b, a] == At(Painted(before, BorderPoints(before), color), a, b)
      {
        assert (a, b) in BorderPoints(before) <==> OnBorder(before, a, b);
      }
      ValueIs(Painted(before, BorderPoints(before), color));
    }

    /**
     * `draw_infinite_line(x, y, dx, dy, color)`: paints from (x, y) in steps
     * of (dx, dy) until a cell reads `undefined`. A zero step on a defined
     * cell paints it and calls itself on the same cell without end, until
     * the call stack overflows (a RangeError); `overflow` reports that.
     */
    method DrawInfiniteLine(x: int, y: int, dx: int, dy: int, color: Color) returns (overflow: bool)
      requires Valid()
      modifies cells
      ensures overflow <==> dx == 0 && dy == 0 && At(old(Value()), x, y) != Undefined
      ensures overflow ==> Value() == Painted(old(Value()), {(x, y)}, color)
      ensures dx == 0 && dy == 0 && !overflow ==> Value() == old(Value())
      ensures dx != 0 || dy != 0 ==> Value() == Painted(old(Value()), RayPoints(old(Value()), x, y, dx, dy), color)
    {
      overflow := false;
      if dx == 0 && dy == 0 {
        ghost var before := Value();
        if Get(x, y) != Undefined {
          Set(x, y, color);
          PaintPoint(before, x, y, color);
          overflow := true;
        }
      } else {
        DrawRay(x, y, dx, dy, color);
      }
    }

    /** The recursion of `draw_infinite_line` with a nonzero step: the ray's cells inside the grid are painted. */
    method DrawRay(x: int, y: int, dx: int, dy: int, color: Color)
      requires Valid() && (dx != 0 || dy != 0)
      modifies cells
      ensures Value() == Painted(old(Value()), RayPoints(old(Value()), x, y, dx, dy), color)
      decreases RayMeasure(Value(), x, y, dx, dy)
    {
      ghost var before := Value();
      if Get(x, y) != Undefined {
        Set(x, y, color);
        PaintPoint(before, x, y, color);
        RayStep(before, Value(), x, y, dx, dy, color);
        DrawRay(x + dx, y + dy, dx, dy, color);
        PaintUnion(before, {(x, y)}, RayPoints(before, x + dx, y + dy, dx, dy), color);
      } else {
        PaintEmpty(before, color);
      }
    }

    /** `draw_line(x0, y0, x1, y1, color)`: paints the cells stepping from (x0, y0) to (x1, y1). */
    method DrawLine(x0: int, y0: int, x1: int, y1: int, color: Color)
      requires Valid()
      modifies cells
      ensures Value() == Painted(old(Value()), LinePoints(x0, y0, x1, y1), color)
      decreases LinePoints(x0, y0, x1, y1), 1
    {
      if x0 == x1 && y0 == y1 {
        Paint(x0, y0, color);
        assert LinePoints(x0, y0, x1, y1) == {(x0, y0)};
      } else {
        DrawLineFrom(x0, y0, x1, y1, color);
      }
    }

    /** The recursive branch of `draw_line`: the first cell, then the line from the next one. */
    method DrawLineFrom(x0: int, y0: int, x1: int, y1: int, color: Color)
      requires Valid() && !(x0 == x1 && y0 == y1)
      modifies cells
      ensures Value() == Painted(old(Value()), LinePoints(x0, y0, x1, y1), color)
      decreases LinePoints(x0, y0, x1, y1), 0
    {
      ghost var before := Value();
      Paint(x0, y0, color);
      var dx, dy := Step(x0, x1), Step(y0, y1);
      LinePaintStep(before, Value(), x0, y0, x1, y1, color);
      DrawLine(x0 + dx, y0 + dy, x1, y1, color);
    }

    /** `draw_box_perimiter(x0, y0, x1, y1, color)`: paints the outer ring of the box. */
    method DrawBoxPerimeter(x0: int, y0: int, x1: int, y1: int, color: Color)
      requires Valid()
      modifies cells
      ensures Value() == Painted(old(Value()), BoxPerimeterPoints(x0, y0, x1, y1), color)
    {
      ghost var before := Value();
      DrawTopAndBottom(x0, y0, x1, y1, color);
      DrawLeftAndRight(x0, y0, x1, y1, color);
      forall a, b | 0 <= a < width && 0 <= b < height
        ensures cells[b, a] == At(Painted(before, BoxPerimeterPoints(x0, y0, x1, y1), color), a, b)
      {
        assert (a, b) in BoxPerimeterPoints(x0, y0, x1, y1) <==>
          (x0 <= a < x1 && (b == y0 || b == y1 - 1)) || (y0 <= b < y1 && (a == x0 || a == x1 - 1)) by {
          assert (a, b) in RowRun(x0, x1, y0) <==> x0 <= a < x1 && b == y0;
          assert (a, b) in RowRun(x0, x1, y1 - 1) <==> x0 <= a < x1 && b == y1 - 1;
          assert (a, b) in ColumnRun(x0, y0, y1) <==> y0 <= b < y1 && a == x0;
          assert (a, b) in ColumnRun(x1 - 1, y0, y1) <==> y0 <= b < y1 && a == x1 - 1;
        }
      }
      ValueIs(Painted(before, BoxPerimeterPoints(x0, y0, x1, y1), color));
    }

    /** The first loop of `draw_box_perimiter`: the top and bottom rows of the box. */
    method DrawTopAndBottom(x0: int, y0: int, x1: int, y1: int, color: Color)
      requires Valid()
      modifies cells
      ensures forall a, b :: 0 <= a < width && 0 <= b < height ==>
        cells[b, a] == if x0 <= a < x1 && (b == y0 || b == y1 - 1) then color else old(cells[b, a])
    {
      var x := x0;
      while x < x1
        invariant x == x0 || x0 <= x <= x1
        invariant forall a, b :: 0 <= a < width && 0 <= b < height ==>
          cells[b, a] == if x0 <= a < x && (b == y0 || b == y1 - 1) then color else old(cells[b, a])
      {
        Set(x, y0, color);
        Set(x, y1 - 1, color);
        x := x + 1;
      }
    }

    /** The second loop of `draw_box_perimiter`: the left and right columns of the box. */
    method DrawLeftAndRight(x0: int, y0: int, x1: int, y1: int, color: Color)
      requires Valid()
      modifies cells
      ensures forall a, b :: 0 <= a < width && 0 <= b < height ==>
        cells[b, a] == if y0 <= b < y1 && (a == x0 || a == x1 - 1) then color else old(cells[b, a])
    {
      var y := y0;
      while y < y1
        invariant y == y0 || y0 <= y <= y1
        invariant forall a, b :: 0 <= a < width && 0 <= b < height ==>
          cells[b, a] == if y0 <= b < y && (a == x0 || a == x1 - 1) then color else old(cells[b, a])
      {
        Set(x0, y, color);
        Set(x1 - 1, y, color);
        y := y + 1;
      }
    }

    /**
     * `paste(region, params)`: writes the region's cells row by row through
     * `set` at their transformed positions, skipping transparent cells.
     */
    method Paste(region: Grid, p: PasteParams)
      requires Valid() && region.Valid()
      requires region.cells != cells
      modifies cells
      ensures Value() == GridDrawing.Paste(old(Value()), region.Value(), p)
    {
      ghost var before := Value();
      ghost var rv := region.Value();
      var j := 0;
      while j < region.height
        invariant 0 <= j <= region.height
        invariant Value() == PasteRows(before, rv, p, j)
      {
        PasteRegionRow(region, p, j);
        j := j + 1;
      }
    }

    /** The inner loop of `paste`: row j of the region, cell by cell. */
    method PasteRegionRow(region: Grid, p: PasteParams, j: int)
      requires Valid() && region.Valid()
      requires region.cells != cells && 0 <= j < region.height
      modifies cells
      ensures Value() == PasteRow(old(Value()), region.Value(), p, j, region.width)
    {
      ghost var before := Value();
      ghost var rv := region.Value();
      var i := 0;
      while i < region.width
        invariant 0 <= i <= region.width
        invariant Value() == PasteRow(before, rv, p, j, i)
      {
        var c := region.cells[j, i];
        if p.transparent == Undefined || c != p.transparent {
          if !p.onlyIfNoColor || Get(i, j) == p.transparent {
            var t := PasteTarget(p, region.width, region.height, i, j);
            Set(t.0, t.1, if p.monochrome != Undefined then p.monochrome else c);
          }
        }
        i := i + 1;
      }
    }

    /** `symmetrical(transform)`: equal to itself pasted with `transform` into a fresh grid of the matching shape. */
    method IsSymmetrical(t: Transform) returns (r: bool)
      requires Valid()
      ensures r <==> Symmetrical(Value(), t)
    {
      var grid := TransformedCopy(t);
      r := Equals(grid);
    }

    /** The grid `symmetrical` compares with: this one pasted with `transform` into a fresh black grid of the matching shape. */
    method TransformedCopy(t: Transform) returns (grid: Grid)
      requires Valid()
      ensures fresh(grid) && fresh(grid.cells) && grid.Valid()
      ensures var w, h := if KeepsAxes(t) then width else height, if KeepsAxes(t) then height else width;
        grid.Value() == GridDrawing.Paste(Filled(w, h, Black), Value(), Plain(0, 0, t))
    {
      ghost var v := Value();
      ghost var w, h := if KeepsAxes(t) then width else height, if KeepsAxes(t) then height else width;
      var noSwitch := t == FlipX || t == FlipY || t == Identity || t == Rotate180;
      if noSwitch {
        grid := new Grid(width, height, Black);
      } else {
        grid := new Grid(height, width, Black);
      }
      assert grid.Value() == Filled(w, h, Black);
      grid.Paste(this, Plain(0, 0, t));
      assert Value() == v;
    }
  
    /** The row test in `trim`'s loops: `subgrid(x0, y, x1, y + 1).is_solid_color()` and the first cell is the background. */
    method RowIsBlank(x0: int, x1: int, y: int, bg: Color) returns (r: bool)
      requires Valid()
      requires 0 <= y < height && x0 <= x1
      ensures r == RowBlank(Value(), bg, x0, x1, y)
    {
      var window := Subgrid(x0, y, x1, y + 1);
      r := window.IsSolidColor();
      r := r && Get(x0, y) == bg;
      RowBlankIsSolidSub(Value(), bg, x0, x1, y);
    }

    /** The column test in `trim`'s loops: `subgrid(x, y0, x + 1, y1).is_solid_color()` and the first cell is the background. */
    method ColumnIsBlank(x: int, y0: int, y1: int, bg: Color) returns (r: bool)
      requires Valid()
      requires 0 <= y0 <= y1 <= height
      ensures r == ColumnBlank(Value(), bg, x, y0, y1)
    {
      var window := Subgrid(x, y0, x + 1, y1);
      r := window.IsSolidColor();
      r := r && Get(x, y0) == bg;
      ColumnBlankIsSolidSub(Value(), bg, x, y0, y1);
    }

    /** `trim`'s first loop: the top edge moves down over blank rows. */
    method TrimTopEdge(bg: Color) returns (y0: nat)
      requires Valid()
      ensures y0 == TrimTop(Value(), bg, 0)
    {
      ghost var v := Value();
      y0 := 0;
      var more := y0 < height;
      if more {
        more := RowIsBlank(0, width, y0, bg);
      }
      while more
        invariant Valid() && Value() == v && y0 <= height
        invariant TrimTop(v, bg, y0) == TrimTop(v, bg, 0)
        invariant more == (y0 < height && RowBlank(v, bg, 0, width, y0))
        decreases height - y0
      {
        assert TrimTop(v, bg, y0) == TrimTop(v, bg, y0 + 1);
        y0 := y0 + 1;
        more := y0 < height;
        if more {
          more := RowIsBlank(0, width, y0, bg);
        }
      }
    }

    /** `trim`'s second loop: the bottom edge moves up over blank rows, never past the top edge. */
    method TrimBottomEdge(y0: nat, bg: Color) returns (y1: nat)
      requires Valid() && y0 <= height
      ensures y1 == TrimBottom(Value(), bg, y0, height)
    {
      ghost var v := Value();
      y1 := height;
      while y0 < y1
        invariant Valid() && Value() == v && y0 <= y1 <= height
        invariant TrimBottom(v, bg, y0, y1) == TrimBottom(v, bg, y0, height)
        decreases y1
      {
        var blank := RowIsBlank(0, width, y1 - 1, bg);
        if !blank {
          TrimBottomStops(v, bg, y0, y1);
          return;
        }
        TrimBottomStep(v, bg, y0, y1);
        y1 := y1 - 1;
      }
    }

    /** `trim`'s third loop: the left edge moves right over blank columns of the kept rows. */
    method TrimLeftEdge(y0: nat, y1: nat, bg: Color) returns (x0: nat)
      requires Valid() && y0 <= y1 <= height
      ensures x0 == TrimLeft(Value(), bg, y0, y1, 0)
    {
      ghost var v := Value();
      x0 := 0;
      var more := x0 < width;
      if more {
        more := ColumnIsBlank(x0, y0, y1, bg);
      }
      while more
        invariant Valid() && Value() == v && x0 <= width
        invariant TrimLeft(v, bg, y0, y1, x0) == TrimLeft(v, bg, y0, y1, 0)
        invariant more == (x0 < width && ColumnBlank(v, bg, x0, y0, y1))
        decreases width - x0
      {
        assert TrimLeft(v, bg, y0, y1, x0) == TrimLeft(v, bg, y0, y1, x0 + 1);
        x0 := x0 + 1;
        more := x0 < width;
        if more {
          more := ColumnIsBlank(x0, y0, y1, bg);
        }
      }
    }

    /** `trim`'s fourth loop: the right edge moves left over blank columns, never past the left edge. */
    method TrimRightEdge(y0: nat, y1: nat, x0: nat, bg: Color) returns (x1: nat)
      requires Valid() && y0 <= y1 <= height && x0 <= width
      ensures x1 == TrimRight(Value(), bg, y0, y1, x0, width)
    {
      ghost var v := Value();
      x1 := width;
      while x0 < x1
        invariant Valid() && Value() == v && x0 <= x1 <= width
        invariant TrimRight(v, bg, y0, y1, x0, x1) == TrimRight(v, bg, y0, y1, x0, width)
        decreases x1
      {
        var blank := ColumnIsBlank(x1 - 1, y0, y1, bg);
        if !blank {
          TrimRightStops(v, bg, y0, y1, x0, x1);
          return;
        }
        TrimRightStep(v, bg, y0, y1, x0, x1);
        x1 := x1 - 1;
      }
    }

    /**
     * `trim(background)`: moves the top, bottom, left and right edges in
     * over blank lines, in that order, and returns the window and its offset.
     */
    method Trim(bg: Color) returns (grid: Grid, x: int, y: int)
      requires Valid()
      ensures fresh(grid) && fresh(grid.cells) && grid.Valid()
      ensures Trimmed(grid.Value(), x, y) == TrimOf(Value(), bg)
    {
      var y0 := TrimTopEdge(bg);
      var y1 := TrimBottomEdge(y0, bg);
      var x0 := TrimLeftEdge(y0, y1, bg);
      var x1 := TrimRightEdge(y0, y1, x0, bg);
      grid := Subgrid(x0, y0, x1, y1);
      x, y := x0, y0;
    }

    /** `is_semantic_box`: the edge and inside scans of the source. */
    method IsSemanticBox() returns (r: bool)
      requires Valid()
      ensures r <==> GridShape.IsSemanticBox(Value())
    {
      ghost var v := Value();
      if width >= 3 && height >= 3 {
        var c1 := Get(1, 0);
        var c2 := Get(1, height - 1);
        var c3 := Get(0, 1);
        var c4 := Get(width - 1, 1);
        var c5 := Get(1, 1);
        var x := 2;
        while x < width - 1
          invariant 2 <= x <= width - 1
          invariant forall a :: 2 <= a < x ==> At(v, a, 0) == c1 && BottomAt(v, a) == c2
        {
          if Get(x, 0) != c1 || Get(x, height - 1) != c2 {
            assert !(At(v, x, 0) == At(v, 1, 0) && BottomAt(v, x) == BottomAt(v, 1));
            return false;
          }
          x := x + 1;
        }
        var y := 2;
        while y < height - 1
          invariant 2 <= y <= height - 1
          invariant forall b :: 2 <= b < y ==> At(v, 0, b) == c3 && LastColumnAt(v, b) == c4
        {
          if Get(0, y) != c3 || Get(width - 1, y) != c4 {
            assert !(At(v, 0, y) == At(v, 0, 1) && LastColumnAt(v, y) == LastColumnAt(v, 1));
            return false;
          }
          y := y + 1;
        }
        x := 1;
        while x < width - 1
          invariant 1 <= x <= width - 1
          invariant forall a, b :: 1 <= a < x && 1 <= b < height - 1 ==> At(v, a, b) == c5
        {
          y := 1;
          while y < height - 1
            invariant 1 <= y <= height - 1
            invariant forall a, b :: 1 <= a < x && 1 <= b < height - 1 ==> At(v, a, b) == c5
            invariant forall b :: 1 <= b < y ==> At(v, x, b) == c5
          {
            if Get(x, y) != c5 {
              return false;
            }
            y := y + 1;
          }
          x := x + 1;
        }
        return true;
      } else {
        return false;
      }
    }

    /** `get_semantic_box`: a fresh 3 x 3 grid of the corners, edge samples and inside sample. */
    method GetSemanticBox() returns (grid: Grid)
      requires Valid()
      ensures fresh(grid) && fresh(grid.cells) && grid.Valid()
      ensures grid.Value() == SemanticBoxOf(Value())
    {
      var c00, c10, c20 := Get(0, 0), Get(1, 0), Get(width - 1, 0);
      var c01, c11, c21 := Get(0, 1), Get(1, 1), Get(width - 1, 1);
      var c02, c12, c22 := Get(0, height - 1), Get(1, height - 1), Get(width - 1, height - 1);
      var box := [[c00, c10, c20], [c01, c11, c21], [c02, c12, c22]];
      grid := new Grid.FromRows(RasterData(3, 3, box));
      SemanticBoxRows(Value());
    }

    /** `inv_scale(s)`: a fresh grid holding the top-left cell of every s x s block. */
    method InvScale(s: int) returns (g: Grid)
      requires Valid()
      requires s > 0 && width % s == 0 && height % s == 0
      ensures fresh(g) && fresh(g.cells) && g.Valid()
      ensures g.Value() == GridShape.InvScale(Value(), s)
    {
      var target := GridShape.InvScale(Value(), s);
      g := new Grid(width / s, height / s, Black);
      var x := 0;
      while x < g.width
        invariant 0 <= x <= g.width
        invariant forall a, b :: 0 <= a < x && 0 <= b < g.height ==> g.cells[b, a] == At(target, a, b)
      {
        OriginColumn(g, s, x);
        x := x + 1;
      }
      g.ValueIs(target);
    }

    /** `inv_scale_width_grid(s)`: a fresh grid holding the origin cell of every block between grid lines. */
    method InvScaleWithGrid(s: int) returns (g: Grid)
      requires Valid()
      requires s >= 0 && (width + 1) % (s + 1) == 0 && (height + 1) % (s + 1) == 0
      ensures fresh(g) && fresh(g.cells) && g.Valid()
      ensures g.Value() == GridShape.InvScaleWithGrid(Value(), s)
    {
      var target := GridShape.InvScaleWithGrid(Value(), s);
      g := new Grid((width + 1) / (s + 1), (height + 1) / (s + 1), Black);
      var x := 0;
      while x < g.width
        invariant 0 <= x <= g.width
        invariant forall a, b :: 0 <= a < x && 0 <= b < g.height ==> g.cells[b, a] == At(target, a, b)
      {
        OriginColumn(g, s + 1, x);
        x := x + 1;
      }
      g.ValueIs(target);
    }

    /** The inner loop of `inv_scale` and `inv_scale_width_grid`: column x of the copy, from every step-th cell of column step * x. */
    method OriginColumn(g: Grid, step: int, x: int)
      requires Valid() && g.Valid() && g.cells != cells && 0 <= x < g.width
      modifies g.cells
      ensures forall a, b :: 0 <= a < g.width && 0 <= b < g.height ==>
        g.cells[b, a] == if a == x then Get(step * x, step * b) else old(g.cells[b, a])
    {
      var y := 0;
      while y < g.height
        invariant 0 <= y <= g.height
        invariant forall a, b :: 0 <= a < g.width && 0 <= b < g.height ==>
          g.cells[b, a] == if a == x && b < y then Get(step * x, step * b) else old(g.cells[b, a])
      {
        g.cells[y, x] := Get(step * x, step * y);
        y := y + 1;
      }
    }

    /** The innermost scan of the scaling checks: the n x n block at (x, y) repeats its corner. */
    method BlockIsUniform(x: int, y: int, n: int) returns (ok: bool)
      requires Valid()
      ensures ok <==> BlockUniform(Value(), x, y, n)
    {
      ghost var v := Value();
      var c := Get(x, y);
      var xx := x;
      while xx < x + n
        invariant xx == x || x <= xx <= x + n
        invariant forall a, b :: x <= a < xx && y <= b < y + n ==> At(v, a, b) == c
      {
        var yy := y;
        while yy < y + n
          invariant yy == y || y <= yy <= y + n
          invariant forall a, b :: x <= a < xx && y <= b < y + n ==> At(v, a, b) == c
          invariant forall b :: y <= b < yy ==> At(v, xx, b) == c
        {
          if Get(xx, yy) != c {
            return false;
          }
          yy := yy + 1;
        }
        xx := xx + 1;
      }
      return true;
    }

    /**
     * `is_scaled_by(n)`: n divides both sides and every n x n block is one
     * colour. A factor of 0 fails (the source's remainder by zero is NaN).
     */
    method IsScaledBy(n: int) returns (r: bool)
      requires Valid()
      requires n >= 0
      ensures r == GridShape.IsScaledBy(Value(), n)
    {
      ghost var v := Value();
      if n > 0 && width % n == 0 && height % n == 0 {
        IsScaledByColumns(v, n);
        var x := 0;
        ghost var kx := 0;
        while x < width
          invariant Valid() && Value() == v
          invariant 0 <= kx <= width / n && x == BlockAt(kx, n) && x <= width
          invariant UniformUpTo(v, n, kx)
        {
          BlockIndexBelow(x, n, width);
          DivOfBlock(x, kx, n);
          var ok := BlockColumnIsUniform(x, n, kx);
          if !ok {
            return false;
          }
          BlockEndsBelow(kx, n, width);
          BlockAtNext(kx, n);
          x, kx := x + n, kx + 1;
        }
        DivOfBlock(width, kx, n);
        return true;
      } else {
        return false;
      }
    }

    /** The inner loop of `is_scaled_by`: every block of the column of blocks kx, starting at column x, is one colour. */
    method BlockColumnIsUniform(x: int, n: int, ghost kx: int) returns (ok: bool)
      requires Valid() && n > 0 && height % n == 0 && x == BlockAt(kx, n)
      ensures ok <==> UniformColumn(Value(), n, kx)
    {
      ghost var v := Value();
      var y := 0;
      ghost var ky := 0;
      while y < height
        invariant 0 <= ky <= height / n && y == BlockAt(ky, n) && y <= height
        invariant forall j :: 0 <= j < ky ==> UniformBlock(v, n, kx, j)
      {
        BlockIndexBelow(y, n, height);
        DivOfBlock(y, ky, n);
        ok := BlockIsUniform(x, y, n);
        if !ok {
          assert !UniformBlock(v, n, kx, ky);
          return;
        }
        BlockEndsBelow(ky, n, height);
        BlockAtNext(ky, n);
        y, ky := y + n, ky + 1;
      }
      DivOfBlock(height, ky, n);
      ok := true;
    }

    /** Column x from y0 to y1 (excluded) holds only `c`. */
    method ColumnIsColor(x: int, y0: int, y1: int, c: Color) returns (ok: bool)
      requires Valid()
      ensures ok <==> ColumnIs(Value(), x, y0, y1, c)
    {
      ghost var v := Value();
      var y := y0;
      while y < y1
        invariant y == y0 || y0 <= y <= y1
        invariant forall b :: y0 <= b < y ==> At(v, x, b) == c
      {
        if Get(x, y) != c {
          return false;
        }
        y := y + 1;
      }
      return true;
    }

    /** Row y from x0 to x1 (excluded) holds only `c`. */
    method RowIsColor(x0: int, x1: int, y: int, c: Color) returns (ok: bool)
      requires Valid()
      ensures ok <==> RowIs(Value(), x0, x1, y, c)
    {
      ghost var v := Value();
      var x := x0;
      while x < x1
        invariant x == x0 || x0 <= x <= x1
        invariant forall a :: x0 <= a < x ==> At(v, a, y) == c
      {
        if Get(x, y) != c {
          return false;
        }
        x := x + 1;
      }
      return true;
    }

    /** The checks `is_scaled_with_grid_by` makes for the block at (x, y), in the source's order. */
    method GridBlockIsOk(n: int, gc: Color, x: int, y: int) returns (ok: bool)
      requires Valid()
      ensures ok <==> GridBlockOk(Value(), n, gc, x, y)
    {
      ok := BlockIsUniform(x, y, n);
      if ok && x + n + 1 < width {
        ok := ColumnIsColor(x + n, y, y + n, gc);
      }
      if ok && y + n + 1 < height {
        ok := RowIsColor(x, x + n, y + n, gc);
      }
      if ok && x + n + 1 < width && y + n + 1 < height {
        ok := Get(x + n, y + n) == gc;
      }
    }

    /**
     * `is_scaled_with_grid_by(n)`: the separator colour when the grid is made
     * of n x n blocks between one-cell grid lines, `no_color` otherwise.
     */
    method IsScaledWithGridBy(n: int) returns (c: Color)
      requires Valid()
      requires n >= 0
      ensures c == ScaledWithGridColor(Value(), n)
    {
      ghost var v := Value();
      if (width + 1) % (n + 1) == 0 && (height + 1) % (n + 1) == 0 {
        var gridColor := if width > n then Get(n, 0) else if height > n then Get(0, n) else NoColor;
        assert gridColor == GuessedGridColor(v, n);
        var x := 0;
        ghost var kx := 0;
        while x < width
          invariant kx >= 0 && x == Origin(kx, n)
          invariant forall i, j :: 0 <= i < kx && 0 <= j && Origin(j, n) < height ==> GridBlockAt(v, n, gridColor, i, j)
        {
          var y := 0;
          ghost var ky := 0;
          while y < height
            invariant ky >= 0 && y == Origin(ky, n)
            invariant forall j :: 0 <= j < ky ==> GridBlockAt(v, n, gridColor, kx, j)
          {
            var ok := GridBlockIsOk(n, gridColor, x, y);
            if !ok {
              assert !GridBlockAt(v, n, gridColor, kx, ky);
              return NoColor;
            }
            OriginNext(ky, n);
            y, ky := y + n + 1, ky + 1;
          }
          OriginsBelow(ky, n, height);
          OriginNext(kx, n);
          x, kx := x + n + 1, kx + 1;
        }
        OriginsBelow(kx, n, width);
        return gridColor;
      } else {
        return NoColor;
      }
    }

    /** `get_scaling_factor`: the largest width / i (i from 1 up) by which the grid is scaled, else 1. */
    method GetScalingFactor() returns (s: int)
      requires Valid()
      ensures s == ScalingFactor(Value())
    {
      var i := 1;
      while i < width
        invariant 1 <= i
        invariant ScalingFrom(Value(), i) == ScalingFactor(Value())
      {
        if width % i == 0 {
          var scaled := IsScaledBy(width / i);
          if scaled {
            return width / i;
          }
        }
        i := i + 1;
      }
      return 1;
    }

    /**
     * `get_scaling_factor_with_grid_color`: the first scale (width + 1) / i - 1
     * whose grid check yields a separator colour, with that colour; none
     * (`undefined` in the source) when no divisor below the width works.
     */
    method GetScalingFactorWithGridColor() returns (res: Option<(int, Color)>)
      requires Valid()
      ensures res == GridScalingFrom(Value(), 1)
    {
      ghost var v := Value();
      var i := 1;
      while i < width
        invariant 1 <= i
        invariant GridScalingFrom(v, i) == GridScalingFrom(v, 1)
      {
        if (width + 1) % i == 0 {
          var scale := GridScaleOf(width, i);
          GridScalePositive(width, i);
          var gridColor := IsScaledWithGridBy(scale);
          if gridColor != NoColor {
            return Some((scale, gridColor));
          }
        }
        i := i + 1;
      }
      return None;
    }

    /** `find_tile`'s inner scan for a width: columns `w` apart agree. */
    method HasPeriodX(w: int) returns (ok: bool)
      requires Valid()
      ensures ok <==> PeriodX(Value(), w)
    {
      ghost var v := Value();
      var x := 0;
      while x < width - w
        invariant x == 0 || 0 <= x <= width - w
        invariant forall a, b :: 0 <= a < x && 0 <= b < height ==> At(v, a, b) == At(v, a + w, b)
      {
        var y := 0;
        while y < height
          invariant 0 <= y <= height
          invariant forall a, b :: 0 <= a < x && 0 <= b < height ==> At(v, a, b) == At(v, a + w, b)
          invariant forall b :: 0 <= b < y ==> At(v, x, b) == At(v, x + w, b)
        {
          if Get(x, y) != Get(x + w, y) {
            return false;
          }
          y := y + 1;
        }
        x := x + 1;
      }
      return true;
    }

    /** `find_tile`'s inner scan for a height: rows `h` apart agree. */
    method HasPeriodY(h: int) returns (ok: bool)
      requires Valid()
      ensures ok <==> PeriodY(Value(), h)
    {
      ghost var v := Value();
      var x := 0;
      while x < width
        invariant 0 <= x <= width
        invariant forall a, b :: 0 <= a < x && 0 <= b < height - h ==> At(v, a, b) == At(v, a, b + h)
      {
        var y := 0;
        while y < height - h
          invariant y == 0 || 0 <= y <= height - h
          invariant forall a, b :: 0 <= a < x && 0 <= b < height - h ==> At(v, a, b) == At(v, a, b + h)
          invariant forall b :: 0 <= b < y ==> At(v, x, b) == At(v, x, b + h)
        {
          if Get(x, y) != Get(x, y + h) {
            return false;
          }
          y := y + 1;
        }
        x := x + 1;
      }
      return true;
    }

    /**
     * `find_tile`: the least horizontal and vertical periods up to three
     * quarters of each side (the side itself when none), and the top-left
     * window of that size.
     */
    method FindTile() returns (tile: Grid)
      requires Valid()
      ensures fresh(tile) && fresh(tile.cells) && tile.Valid()
      ensures tile.Value() == TileOf(Value())
    {
      var tileX, tileY := width, height;
      var w := 1;
      while 4 * w <= 3 * width
        invariant 1 <= w
        invariant TileWidthFrom(Value(), w) == TileWidthFrom(Value(), 1)
      {
        var ok := HasPeriodX(w);
        if ok {
          tileX := w;
          break;
        }
        w := w + 1;
      }
      assert tileX == TileWidthFrom(Value(), 1);
      var h := 1;
      while 4 * h <= 3 * height
        invariant 1 <= h
        invariant TileHeightFrom(Value(), h) == TileHeightFrom(Value(), 1)
      {
        var ok := HasPeriodY(h);
        if ok {
          tileY := h;
          break;
        }
        h := h + 1;
      }
      assert tileY == TileHeightFrom(Value(), 1);
      tile := Subgrid(0, 0, tileX, tileY);
    }

    /** The colour sets of the columns, and the colours of the single-coloured ones in first-seen order. */
    method ColumnSets() returns (vs: seq<set<Color>>, candidates: seq<Color>)
      requires Valid()
      ensures |vs| == width && forall x :: 0 <= x < width ==> vs[x] == ColumnSet(Value(), x)
      ensures candidates == ColumnCandidates(Value(), width)
    {
      ghost var v := Value();
      vs, candidates := [], [];
      var x := 0;
      while x < width
        invariant 0 <= x <= width
        invariant |vs| == x && forall a :: 0 <= a < x ==> vs[a] == ColumnSet(v, a)
        invariant candidates == ColumnCandidates(v, x)
      {
        var line := VerticalColors(x);
        vs := vs + [line];
        if |line| == 1 {
          var c :| c in line;
          assert At(v, x, 0) in line;
          SingletonMembers(line, c, At(v, x, 0));
          candidates := AddNew(candidates, c);
        }
        x := x + 1;
      }
    }

    /** The colour sets of the rows, and `start` extended by the colours of the single-coloured ones. */
    method RowSets(start: seq<Color>) returns (hs: seq<set<Color>>, candidates: seq<Color>)
      requires Valid()
      ensures |hs| == height && forall y :: 0 <= y < height ==> hs[y] == RowSet(Value(), y)
      ensures candidates == RowCandidates(Value(), start, height)
    {
      ghost var v := Value();
      hs, candidates := [], start;
      var y := 0;
      while y < height
        invariant 0 <= y <= height
        invariant |hs| == y && forall b :: 0 <= b < y ==> hs[b] == RowSet(v, b)
        invariant candidates == RowCandidates(v, start, y)
      {
        var line := HorizontalColors(y);
        hs := hs + [line];
        if |line| == 1 {
          var c :| c in line;
          assert At(v, 0, y) in line;
          SingletonMembers(line, c, At(v, 0, y));
          candidates := AddNew(candidates, c);
        }
        y := y + 1;
      }
    }

    /** `xs` for colour c: -1, the columns whose colour set is exactly {c}, then the width. */
    method CutColumns(vs: seq<set<Color>>, c: Color) returns (xs: seq<int>)
      requires Valid()
      requires |vs| == width && forall x :: 0 <= x < width ==> vs[x] == ColumnSet(Value(), x)
      ensures xs == Xs(Value(), c)
    {
      ghost var v := Value();
      var lines := [];
      var x := 0;
      while x < width
        invariant 0 <= x <= width
        invariant lines == ColumnLinesTo(v, c, x)
      {
        if |vs[x]| == 1 && c in vs[x] {
          lines := lines + [x];
        }
        x := x + 1;
      }
      xs := [-1] + lines + [width];
    }

    /** `ys` for colour c: -1, the rows whose colour set is exactly {c}, then the height. */
    method CutRows(hs: seq<set<Color>>, c: Color) returns (ys: seq<int>)
      requires Valid()
      requires |hs| == height && forall y :: 0 <= y < height ==> hs[y] == RowSet(Value(), y)
      ensures ys == Ys(Value(), c)
    {
      ghost var v := Value();
      var lines := [];
      var y := 0;
      while y < height
        invariant 0 <= y <= height
        invariant lines == RowLinesTo(v, c, y)
      {
        if |hs[y]| == 1 && c in hs[y] {
          lines := lines + [y];
        }
        y := y + 1;
      }
      ys := [-1] + lines + [height];
    }

    /**
     * One band of the cell loops of `find_master_grid`: the subgrids of rows
     * [y0, y1) between consecutive column cuts, their number, and whether
     * none contains colour c.
     */
    method CutBand(c: Color, xs: seq<int>, y0: int, y1: int) returns (band: seq<MasterCell>, count: int, clean: bool)
      requires Valid()
      requires |xs| >= 1 && 0 <= y0 <= y1 <= height
      ensures band == BandTo(Value(), xs, y0, y1, |xs| - 1) && count == |band|
      ensures clean == Clean(band, c)
    {
      ghost var v := Value();
      band, count, clean := [], 0, true;
      var i := 0;
      while i < |xs| - 1
        invariant 0 <= i <= |xs| - 1
        invariant band == BandTo(v, xs, y0, y1, i) && count == |band|
        invariant clean == Clean(band, c)
      {
        band, count, clean := CutBandCell(c, xs, y0, y1, i, band, count, clean);
        i := i + 1;
      }
    }

    /** One pass of `CutBand`'s loop: the cell between cuts i and i + 1, when they are not adjacent. */
    method CutBandCell(c: Color, xs: seq<int>, y0: int, y1: int, i: nat, band0: seq<MasterCell>, count0: int, clean0: bool)
      returns (band: seq<MasterCell>, count: int, clean: bool)
      requires Valid()
      requires i + 1 < |xs| && 0 <= y0 <= y1 <= height
      requires band0 == BandTo(Value(), xs, y0, y1, i) && count0 == |band0| && clean0 == Clean(band0, c)
      ensures band == BandTo(Value(), xs, y0, y1, i + 1) && count == |band| && clean == Clean(band, c)
    {
      band, count, clean := band0, count0, clean0;
      var x0, x1 := xs[i] + 1, xs[i + 1];
      if x0 < x1 {
        var sub := Subgrid(x0, y0, x1, y1);
        var colors := sub.Colors(Undefined);
        var cell := MasterCell(x0, y0, sub.Value());
        CleanOne(cell, c);
        CleanConcat(band, [cell], c);
        if c in colors {
          clean := false;
        }
        count := count + 1;
        band := band + [cell];
      }
    }

    /**
     * The cell loops of `find_master_grid` for colour c: the subgrids between
     * consecutive cuts, row by row, the cells per row, and whether the colour
     * is kept (a default was given or no cell contains it).
     */
    method CutCells(c: Color, xs: seq<int>, ys: seq<int>, hasDefault: bool) returns (cells: seq<MasterCell>, stride: int, valid: bool)
      requires Valid()
      requires |xs| >= 1 && |ys| >= 1 && Bounded(ys, height)
      ensures cells == GridTo(Value(), xs, ys, |ys| - 1) && stride == StrideTo(Value(), xs, ys, |ys| - 1)
      ensures valid == (hasDefault || Clean(cells, c))
    {
      ghost var v := Value();
      cells, stride, valid := [], 0, true;
      var j := 0;
      while j < |ys| - 1
        invariant 0 <= j <= |ys| - 1
        invariant cells == GridTo(v, xs, ys, j) && stride == StrideTo(v, xs, ys, j)
        invariant valid == (hasDefault || Clean(cells, c))
      {
        cells, stride, valid := CutRow(v, c, xs, ys, hasDefault, j, cells, stride, valid);
        j := j + 1;
      }
    }

    /** One pass of `CutCells`'s loop: the band between cuts j and j + 1, when they are not adjacent. */
    method CutRow(ghost v: Raster, c: Color, xs: seq<int>, ys: seq<int>, hasDefault: bool, j: nat, cells0: seq<MasterCell>, stride0: int, valid0: bool)
      returns (cells: seq<MasterCell>, stride: int, valid: bool)
      requires Valid() && v == Value()
      requires |xs| >= 1 && j + 1 < |ys| && Bounded(ys, v.height)
      requires cells0 == GridTo(v, xs, ys, j) && stride0 == StrideTo(v, xs, ys, j)
      requires valid0 == (hasDefault || Clean(cells0, c))
      ensures cells == GridTo(v, xs, ys, j + 1) && stride == StrideTo(v, xs, ys, j + 1)
      ensures valid == (hasDefault || Clean(cells, c))
    {
      cells, stride, valid := cells0, stride0, valid0;
      GridToStep(v, xs, ys, j);
      var y0, y1 := ys[j] + 1, ys[j + 1];
      if y0 < y1 {
        var band, count, clean := CutBand(c, xs, y0, y1);
        CleanConcat(cells, band, c);
        cells := cells + band;
        stride := count;
        valid := valid && (clean || hasDefault);
      }
    }

    /** One pass of `find_master_grid`'s colour loop: the cells cut by colour c, when c is kept. */
    method TryGridColor(vs: seq<set<Color>>, hs: seq<set<Color>>, c: Color, default: Color) returns (kept: bool, g: MasterGrid)
      requires Valid()
      requires |vs| == width && forall x :: 0 <= x < width ==> vs[x] == ColumnSet(Value(), x)
      requires |hs| == height && forall y :: 0 <= y < height ==> hs[y] == RowSet(Value(), y)
      ensures kept == Accepted(Value(), c, default)
      ensures kept ==> g == MasterGrid(MasterCells(Value(), c), c, MasterStride(Value(), c))
    {
      ghost var v := Value();
      var xs := CutColumns(vs, c);
      var ys := CutRows(hs, c);
      YsBounded(v, c);
      var cells, stride, valid := CutCells(c, xs, ys, default != Undefined);
      kept := valid;
      g := MasterGrid(cells, c, stride);
    }

    /**
     * `find_master_grid(default_grid_color)` (`undefined` for no default):
     * the cells cut by the first candidate colour that is kept, else the
     * whole grid as one cell with stride 1.
     */
    method FindMasterGrid(default: Color) returns (g: MasterGrid)
      requires Valid()
      ensures g == MasterGridOf(Value(), default)
    {
      ghost var v := Value();
      var vs, columnCandidates := ColumnSets();
      var hs, candidates := RowSets(columnCandidates);
      if default != Undefined {
        candidates := [default];
      }
      assert candidates == Candidates(v, default);
      var k := 0;
      while k < |candidates|
        invariant 0 <= k <= |candidates|
        invariant FirstAccepted(v, default, candidates, k) == MasterGridOf(v, default)
      {
        var kept, attempt := TryGridColor(vs, hs, candidates[k], default);
        if kept {
          return attempt;
        }
        k := k + 1;
      }
      return MasterGrid([MasterCell(0, 0, Value())], Undefined, 1);
    }

    /**
     * `propagate(x, y, corners)`: `obj` holds the cells reachable from
     * (x, y) through solid neighbours, black elsewhere, and `contour` marks
     * the `undefined` points met on the way, shifted by one.
     */
    method Propagate(x: int, y: int, corners: bool) returns (obj: Grid, contour: Grid)
      requires Valid()
      ensures fresh(obj) && fresh(obj.cells) && obj.Valid()
      ensures fresh(contour) && fresh(contour.cells) && contour.Valid()
      ensures obj.Value() == ObjectOf(Value(), (x, y), corners)
      ensures contour.Value() == ContourOf(Value(), (x, y), corners)
    {
      var objV, contourV := Fill(Value(), (x, y), corners);
      obj := new Grid.FromRows(objV);
      contour := new Grid.FromRows(contourV);
    }

    /** One cell of the scan of `foreach_object`: propagate and erase when the working copy shows it. */
    method ScanStep(work: Grid, x: int, y: int, corners: bool, objs: seq<Raster>, ghost seeds: seq<Point>)
      returns (objs': seq<Raster>, ghost seeds': seq<Point>)
      requires Valid() && work.Valid() && work.cells != cells
      requires work.width == width && work.height == height
      requires 0 <= x < width && 0 <= y < height
      requires work.Value() == Remaining(Value(), corners, seeds)
      requires ObjectsOfSeeds(Value(), corners, objs, seeds)
      modifies work.cells
      ensures work.Value() == Remaining(Value(), corners, seeds')
      ensures seeds' + SeedsFrom(Value(), corners, seeds', x, y + 1) == seeds + SeedsFrom(Value(), corners, seeds, x, y)
      ensures ObjectsOfSeeds(Value(), corners, objs', seeds')
    {
      ghost var r := Value();
      SeedsFromStep(r, corners, seeds, x, y);
      if work.Get(x, y) != Black {
        var obj, _ := Propagate(x, y, corners);
        EraseObject(r, corners, seeds, (x, y));
        ObjectsOfSeedsAdd(r, corners, objs, seeds, (x, y));
        work.Erase(obj);
        objs' := objs + [obj.Value()];
        seeds' := seeds + [(x, y)];
      } else {
        objs', seeds' := objs, seeds;
      }
    }

    /** One column of the scan of `foreach_object`. */
    method ScanColumn(work: Grid, x: int, corners: bool, objs: seq<Raster>, ghost seeds: seq<Point>)
      returns (objs': seq<Raster>, ghost seeds': seq<Point>)
      requires Valid() && work.Valid() && work.cells != cells
      requires work.width == width && work.height == height
      requires 0 <= x < width
      requires work.Value() == Remaining(Value(), corners, seeds)
      requires ObjectsOfSeeds(Value(), corners, objs, seeds)
      modifies work.cells
      ensures work.Value() == Remaining(Value(), corners, seeds')
      ensures seeds' + SeedsFrom(Value(), corners, seeds', x + 1, 0) == seeds + SeedsFrom(Value(), corners, seeds, x, 0)
      ensures ObjectsOfSeeds(Value(), corners, objs', seeds')
    {
      ghost var r := Value();
      ghost var all := seeds + SeedsFrom(r, corners, seeds, x, 0);
      objs', seeds' := objs, seeds;
      var y := 0;
      while y < height
        invariant 0 <= y <= height
        invariant work.Value() == Remaining(r, corners, seeds')
        invariant ObjectsOfSeeds(r, corners, objs', seeds')
        invariant seeds' + SeedsFrom(r, corners, seeds', x, y) == all
      {
        objs', seeds' := ScanStep(work, x, y, corners, objs', seeds');
        y := y + 1;
      }
      SeedsFromWrap(r, corners, seeds', x);
    }

    /**
     * `foreach_object(corners)`: the objects met by a column-major scan of
     * a working copy, from which each object found is erased.
     */
    method ForeachObject(corners: bool) returns (objs: seq<Raster>)
      requires Valid()
      ensures objs == Objects(Value(), corners)
    {
      ghost var r := Value();
      var work := Clone();
      RemainingNone(r, corners);
      ghost var seeds: seq<Point> := [];
      objs := [];
      var x := 0;
      while x < width
        invariant 0 <= x <= width && work.Valid() && fresh(work.cells)
        invariant work.width == width && work.height == height
        invariant work.Value() == Remaining(r, corners, seeds)
        invariant ObjectsOfSeeds(r, corners, objs, seeds)
        invariant seeds + SeedsFrom(r, corners, seeds, x, 0) == Seeds(r, corners)
      {
        objs, seeds := ScanColumn(work, x, corners, objs, seeds);
        x := x + 1;
      }
      SeedsFromEnd(r, corners, seeds, x);
      SeedsObjects(r, corners, objs, seeds);
    }
  }
}
