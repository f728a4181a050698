/**
 * The tiles of lib/Rasterizer.ts. A `Tile` is the square window of radius
 * r around one cell of the input grid, read row by row, together with the
 * colours drawn into it so far; it never changes (`set` makes a new one).
 * A `Rasterizer` keeps, per layer, the distinct tiles met so far, an index
 * from tile key to position, and the tile of each cell, and draws into them
 * the colours a learned tile function asks for.
 */
module Tiles {
  import opened Colors
  import opened GridValues
  import opened Wrappers

  // -------------------------------------------------- row-major positions

  /** The position of cell (x, y) in a row-major layout of width w. */
  function Cell(w: int, x: int, y: int): int
  {
    y * w + x
  }

  lemma MulLe(a: int, b: int, k: int)
    requires a <= b && 0 <= k
    ensures a * k <= b * k
  {
    assert b * k - a * k == (b - a) * k;
  }

  /** A cell inside a w by h layout has a position below w * h. */
  lemma CellRange(w: nat, h: nat, x: int, y: int)
    requires 0 <= x < w && 0 <= y < h
    ensures 0 <= Cell(w, x, y) < w * h
  {
    MulLe(0, y, w);
    MulLe(y + 1, h, w);
  }

  /** Row and column are read back from a position by division and remainder. */
  lemma CellDivMod(w: nat, x: int, y: int)
    requires 0 <= x < w && 0 <= y
    ensures Cell(w, x, y) / w == y && Cell(w, x, y) % w == x
  {
    var c := Cell(w, x, y);
    var q, m := c / w, c % w;
    assert c == q * w + m && 0 <= m < w;
    assert (y - q) * w == m - x;
    if y - q >= 1 {
      MulLe(1, y - q, w);
    } else if y - q <= -1 {
      MulLe(y - q, -1, w);
    }
  }

  /** Distinct cells of a layout have distinct positions. */
  lemma CellInjective(w: nat, x1: int, y1: int, x2: int, y2: int)
    requires 0 <= x1 < w && 0 <= y1 && 0 <= x2 < w && 0 <= y2
    requires Cell(w, x1, y1) == Cell(w, x2, y2)
    ensures x1 == x2 && y1 == y2
  {
    CellDivMod(w, x1, y1);
    CellDivMod(w, x2, y2);
  }

  /** Every position below w * h is the position of a cell inside the layout. */
  lemma CellOf(w: nat, h: nat, c: int)
    requires 0 <= c < w * h
    ensures 0 <= c % w < w && 0 <= c / w < h && Cell(w, c % w, c / w) == c
  {
    if c / w >= h {
      MulLe(h, c / w, w);
    }
  }

  // -------------------------------------------------------------- tiles

  datatype Tile = Tile(x: int, y: int, radius: nat, input: Raster, output: Option<Raster>, data: seq<Color>)

  /** `size`: the side of the window. */
  function Size(radius: nat): nat
  {
    2 * radius + 1
  }

  /** `coord`: the tile's cell as a position in the input grid. */
  function Coord(t: Tile): int
  {
    Cell(t.input.width, t.x, t.y)
  }

  /** The window's data has one entry per cell of the window. */
  predicate Shaped(t: Tile)
  {
    |t.data| == Size(t.radius) * Size(t.radius)
  }

  /** A cell of the input as a tile reads it: `no_color` outside the grid. */
  function OriginCell(input: Raster, x: int, y: int): Color
  {
    var c := At(input, x, y);
    if c == Undefined then NoColor else c
  }

  /** `origin`: entry i of the window is the cell i % size to the right and i / size down from its corner. */
  function Origin(x: int, y: int, radius: nat, input: Raster): (o: seq<Color>)
    ensures |o| == Size(radius) * Size(radius)
  {
    var size := Size(radius);
    seq(size * size, i requires 0 <= i < size * size => OriginCell(input, x - radius + i % size, y - radius + i / size))
  }

  /** `new Tile(x, y, radius, input, output)`: the data starts as a copy of the origin. */
  function MakeTile(x: int, y: int, radius: nat, input: Raster, output: Option<Raster>): (t: Tile)
    ensures Shaped(t)
  {
    Tile(x, y, radius, input, output, Origin(x, y, radius, input))
  }

  /** The tile builds its origin by reading the window row by row. */
  method NewTile(x: int, y: int, radius: nat, input: Raster, output: Option<Raster>) returns (t: Tile)
    ensures t == MakeTile(x, y, radius, input, output)
  {
    var size := Size(radius);
    var origin: seq<Color> := [];
    for row := 0 to size
      invariant |origin| == row * size
      invariant forall i :: 0 <= i < |origin| ==> origin[i] == OriginCell(input, x - radius + i % size, y - radius + i / size)
    {
      for col := 0 to size
        invariant |origin| == row * size + col
        invariant forall i :: 0 <= i < |origin| ==> origin[i] == OriginCell(input, x - radius + i % size, y - radius + i / size)
      {
        CellDivMod(size, col, row);
        origin := origin + [OriginCell(input, x - radius + col, y - radius + row)];
      }
    }
    t := Tile(x, y, radius, input, output, origin);
  }

  /** Whether (x, y) lies within the tile's window. */
  predicate InWindow(t: Tile, x: int, y: int)
  {
    var r := t.radius as int;
    -r <= x - t.x <= r && -r <= y - t.y <= r
  }

  /** Where (x, y) of the window is kept in the data. */
  function Offset(t: Tile, x: int, y: int): nat
    requires InWindow(t, x, y)
    ensures Offset(t, x, y) < Size(t.radius) * Size(t.radius)
  {
    CellRange(Size(t.radius), Size(t.radius), x - t.x + t.radius, y - t.y + t.radius);
    Cell(Size(t.radius), x - t.x + t.radius, y - t.y + t.radius)
  }

  /** `at`: the window's colour at (x, y), `no_color` outside the window. */
  function TileGet(t: Tile, x: int, y: int): Color
    requires Shaped(t)
  {
    if InWindow(t, x, y) then t.data[Offset(t, x, y)] else NoColor
  }

  /** `at_center`. */
  function Centre(t: Tile): Color
    requires Shaped(t)
  {
    TileGet(t, t.x, t.y)
  }

  /** `set`: a new tile with colour c at (x, y) when that lies within the window. */
  function TileSet(t: Tile, x: int, y: int, c: Color): (r: Tile)
    requires Shaped(t)
    ensures Shaped(r) && r.x == t.x && r.y == t.y && r.radius == t.radius && r.input == t.input && r.output == t.output
    ensures !InWindow(t, x, y) ==> r == t
  {
    if InWindow(t, x, y) then t.(data := t.data[Offset(t, x, y) := c]) else t
  }

  /** A new tile reads, within its window, the input's colours, and `no_color` where the window leaves the grid. */
  lemma OriginWindow(x: int, y: int, radius: nat, input: Raster, output: Option<Raster>, x': int, y': int)
    ensures var t := MakeTile(x, y, radius, input, output);
      TileGet(t, x', y') == if InWindow(t, x', y') then OriginCell(input, x', y') else NoColor
  {
    var t := MakeTile(x, y, radius, input, output);
    if InWindow(t, x', y') {
      CellDivMod(Size(radius), x' - x + radius, y' - y + radius);
    }
  }

  /** After `set`, `at` reads the colour written there and the old colours everywhere else. */
  lemma SetThenGet(t: Tile, x: int, y: int, c: Color, x': int, y': int)
    requires Shaped(t)
    ensures TileGet(TileSet(t, x, y, c), x', y') == if x' == x && y' == y && InWindow(t, x, y) then c else TileGet(t, x', y')
  {
    if InWindow(t, x, y) && InWindow(t, x', y') && (x' != x || y' != y) {
      var s := Size(t.radius);
      if Offset(t, x, y) == Offset(t, x', y') {
        CellInjective(s, x - t.x + t.radius, y - t.y + t.radius, x' - t.x + t.radius, y' - t.y + t.radius);
      }
    }
  }

  /**
   * `target`: `None` stands for the TypeError that `output_grid!.at` raises
   * without an output grid; otherwise `no_color` exactly when the output
   * already agrees with the centre (or itself reads `no_color`), and the
   * output's colour there when it does not.
   */
  function Target(t: Tile): (r: Option<Color>)
    requires Shaped(t)
    ensures t.output.None? <==> r.None?
    ensures r.Some? ==> (r.value == NoColor <==> At(t.output.value, t.x, t.y) in {Centre(t), NoColor})
    ensures r.Some? && r.value != NoColor ==> r.value == At(t.output.value, t.x, t.y) && r.value != Centre(t)
  {
    match t.output
    case None => None
    case Some(out) =>
      var c := At(out, t.x, t.y);
      Some(if c == Centre(t) then NoColor else c)
  }

  /** Once the centre holds the output's colour, the tile's target is `no_color`. */
  lemma TargetAfterDrawing(t: Tile)
    requires Shaped(t) && t.output.Some?
    ensures Target(TileSet(t, t.x, t.y, At(t.output.value, t.x, t.y))) == Some(NoColor)
  {
    SetThenGet(t, t.x, t.y, At(t.output.value, t.x, t.y), t.x, t.y);
  }

  /** `key`: the tile's coordinate and its data. */
  datatype Key = Key(coord: int, data: seq<Color>)

  function KeyOf(t: Tile): Key
  {
    Key(Coord(t), t.data)
  }
}

/**
 * The `Rasterizer` of lib/Rasterizer.ts. The learned tile functions are
 * given functions from a tile to a colour (a negative colour meaning none).
 */
module Rasterizers {
  import opened Colors
  import opened GridValues
  import opened Wrappers
  import opened Tiles
  import Grids

  type TileFn = Tile -> Color

  /** `range(n)`. */
  function Coords(n: nat): (r: seq<nat>)
    ensures |r| == n && forall i :: 0 <= i < n ==> r[i] == i
  {
    seq(n, i requires 0 <= i < n => i)
  }

  /** `Set.add`: insertion order, no repeats. */
  function Add(s: seq<nat>, k: nat): (r: seq<nat>)
    ensures forall j :: j in r <==> j in s || j == k
  {
    if k in s then s else s + [k]
  }

  /** `Set.delete`. */
  function Delete(s: seq<nat>, k: nat): (r: seq<nat>)
    ensures forall j :: j in r <==> j in s && j != k
  {
    if |s| == 0 then [] else (if s[0] == k then [] else [s[0]]) + Delete(s[1..], k)
  }

  /** A tile after `set(x, y, c)`, or none when there is no tile. */
  function Painted(o: Option<Tile>, x: int, y: int, c: Color): Option<Tile>
    requires o.Some? ==> Shaped(o.value)
  {
    if o.Some? then Some(TileSet(o.value, x, y, c)) else None
  }

  /** A colour drawing may leave at (x, y): a colour, and the output grid's colour there when there is one. */
  predicate Drawn(output: Option<Raster>, x: int, y: int, c: Color)
  {
    c >= 0 && (output.Some? ==> At(output.value, x, y) == c)
  }

  /** A visited tile draws colour c: c is a colour other than its centre, and the output grid, if any, holds c there. */
  predicate Draws(output: Option<Raster>, t: Tile, c: Color)
    requires Shaped(t)
  {
    c >= 0 && c != Centre(t) && (output.None? || At(output.value, t.x, t.y) == c)
  }

  /** A visited tile counts an error: c is a colour other than its centre that the output grid disagrees with. */
  predicate Disagrees(output: Option<Raster>, t: Tile, c: Color)
    requires Shaped(t)
  {
    c >= 0 && c != Centre(t) && output.Some? && At(output.value, t.x, t.y) != c
  }

  predicate AllShaped(ts: seq<Tile>)
  {
    forall i :: 0 <= i < |ts| ==> Shaped(ts[i])
  }

  /** The `error_count` of a sequence of visits, tile function f asked at each visited tile. */
  function ErrorsOf(output: Option<Raster>, f: TileFn, visited: seq<Tile>): (n: nat)
    requires AllShaped(visited)
    ensures n <= |visited|
    ensures output.None? ==> n == 0
  {
    if |visited| == 0 then 0
    else ErrorsOf(output, f, visited[..|visited| - 1]) + (if Disagrees(output, visited[|visited| - 1], f(visited[|visited| - 1])) then 1 else 0)
  }

  /** None of the visits lo, ..., hi - 1 draws. */
  predicate Quiet(output: Option<Raster>, f: TileFn, visited: seq<Tile>, lo: int, hi: int)
  {
    forall k :: lo <= k < hi && 0 <= k < |visited| ==> Shaped(visited[k]) && !Draws(output, visited[k], f(visited[k]))
  }

  /** Whether a prefix of the visits is quiet does not depend on the visits after it. */
  lemma QuietPrefix(output: Option<Raster>, f: TileFn, visited: seq<Tile>, more: seq<Tile>, lo: int)
    requires visited <= more
    ensures forall hi :: hi <= |visited| ==> (Quiet(output, f, more, lo, hi) <==> Quiet(output, f, visited, lo, hi))
  {
  }

  /** A quiet stretch of visits stays quiet when cut shorter. */
  lemma QuietMono(output: Option<Raster>, f: TileFn, visited: seq<Tile>, lo: int, hi: int, hi': int)
    requires hi <= hi'
    ensures Quiet(output, f, visited, lo, hi') ==> Quiet(output, f, visited, lo, hi)
  {
  }

  /** The coordinates of the visited tiles, in order. */
  function CoordsOf(visited: seq<Tile>): (r: seq<int>)
    ensures |r| == |visited| && forall i :: 0 <= i < |visited| ==> r[i] == Coord(visited[i])
  {
    seq(|visited|, i requires 0 <= i < |visited| => Coord(visited[i]))
  }

  /** A pass over the worklist `0 .. n-1` visits the n cells in order. */
  lemma InOrder(round: seq<Tile>, n: nat)
    requires CoordsOf(round) == Coords(n)
    ensures |round| == n && forall i :: 0 <= i < n ==> Coord(round[i]) == i
  {
    forall i | 0 <= i < n
      ensures Coord(round[i]) == i
    {
      assert CoordsOf(round)[i] == Coords(n)[i];
    }
  }

  /** A worklist drawn from `coords` that holds none of them is empty. */
  lemma Emptied(coords: seq<nat>, rest: seq<nat>)
    requires forall j :: j in rest ==> j in coords
    requires forall k :: 0 <= k < |coords| ==> coords[k] !in rest
    ensures rest == []
  {
    if rest != [] {
      First(rest);
      assert false;
    }
  }

  /** A non-empty worklist holds its first coordinate. */
  lemma First(s: seq<nat>)
    requires s != []
    ensures s[0] in s
  {
  }

  /** A visit either draws, counts an error, or does nothing: never both. */
  lemma DrawsOrDisagrees(output: Option<Raster>, t: Tile, c: Color)
    requires Shaped(t)
    ensures !(Draws(output, t, c) && Disagrees(output, t, c))
    ensures Draws(output, t, c) || Disagrees(output, t, c) <==> c >= 0 && c != Centre(t)
  {
  }

  /** Everywhere, t reads what s reads or a colour drawn there. */
  ghost predicate KeptOrDrawn(t: Tile, s: Tile)
    requires Shaped(t) && Shaped(s)
  {
    forall a, b :: TileGet(t, a, b) == TileGet(s, a, b) || Drawn(t.output, a, b, TileGet(t, a, b))
  }

  /** Drawing a colour allowed at (x, y) keeps a tile's colours accounted for. */
  lemma PaintKeeps(t: Tile, s: Tile, x: int, y: int, c: Color)
    requires Shaped(t) && Shaped(s) && KeptOrDrawn(t, s) && Drawn(t.output, x, y, c)
    ensures KeptOrDrawn(TileSet(t, x, y, c), s)
  {
    var t' := TileSet(t, x, y, c);
    forall a, b
      ensures TileGet(t', a, b) == TileGet(s, a, b) || Drawn(t'.output, a, b, TileGet(t', a, b))
    {
      SetThenGet(t, x, y, c, a, b);
    }
  }

  /** Accounting composes across layers that share an output grid. */
  lemma KeptOrDrawnChain(t: Tile, s: Tile, u: Tile)
    requires Shaped(t) && Shaped(s) && Shaped(u) && t.output == s.output
    requires KeptOrDrawn(t, s) && KeptOrDrawn(s, u)
    ensures KeptOrDrawn(t, u)
  {
    forall a, b
      ensures TileGet(t, a, b) == TileGet(u, a, b) || Drawn(t.output, a, b, TileGet(t, a, b))
    {
      assert TileGet(t, a, b) == TileGet(s, a, b) || Drawn(t.output, a, b, TileGet(t, a, b));
      assert TileGet(s, a, b) == TileGet(u, a, b) || Drawn(s.output, a, b, TileGet(s, a, b));
    }
  }

  class Rasterizer {
    const radius: nat
    const width: nat
    const height: nat
    const input: Raster
    const output: Option<Raster>
    const functions: seq<TileFn>
    /** Per layer: the position of each tile key in `tiles`. */
    var tileIndex: seq<map<Key, nat>>
    /** Per layer: the distinct tiles met so far. */
    var tiles: seq<seq<Tile>>
    /** Per layer: the position in `tiles` of each cell's tile. */
    var tileGrid: seq<seq<nat>>

    /** A tile made by this rasterizer: its radius and grids, at a cell inside the grid. */
    predicate Fits(t: Tile)
    {
      t.radius == radius && t.input == input && t.output == output
      && 0 <= t.x < width && 0 <= t.y < height && Shaped(t)
    }

    /** In one rasterizer, a key names one tile. */
    lemma KeyDetermines(a: Tile, b: Tile)
      requires width == input.width && Fits(a) && Fits(b) && KeyOf(a) == KeyOf(b)
      ensures a == b
    {
      CellInjective(width, a.x, a.y, b.x, b.y);
    }

    ghost predicate Lengths()
      reads this
    {
      |tileIndex| == |tiles| == |tileGrid|
    }

    /** The tiles fit and are indexed by their keys, each key once. */
    predicate IndexedOf(ts: seq<Tile>, index: map<Key, nat>)
    {
      && (forall i :: 0 <= i < |ts| ==> Fits(ts[i]) && KeyOf(ts[i]) in index && index[KeyOf(ts[i])] == i)
      && (forall k :: k in index ==> index[k] < |ts| && KeyOf(ts[index[k]]) == k)
    }

    /** Position c of a layer points to a tile of that coordinate. */
    predicate PointsOf(ts: seq<Tile>, grid: seq<nat>, c: int)
    {
      0 <= c < |grid| && grid[c] < |ts| && Coord(ts[grid[c]]) == c
    }

    /** Every position of the grid points to a fitting tile of its coordinate. */
    predicate Complete(ts: seq<Tile>, grid: seq<nat>)
    {
      && width == input.width && height == input.height && |grid| == width * height
      && (forall i :: 0 <= i < |ts| ==> Fits(ts[i]))
      && forall c :: 0 <= c < width * height ==> PointsOf(ts, grid, c)
    }

    /** The tile of cell (x, y) of a complete layer; undefined outside the grid. */
    function TileOf(ts: seq<Tile>, grid: seq<nat>, x: int, y: int): (r: Option<Tile>)
      requires Complete(ts, grid)
      ensures r.Some? <==> 0 <= x < width && 0 <= y < height
      ensures r.Some? ==> Fits(r.value) && r.value.x == x && r.value.y == y && r.value in ts
    {
      if 0 <= x < width && 0 <= y < height then
        CellRange(width, height, x, y);
        var c := Cell(width, x, y);
        assert PointsOf(ts, grid, c);
        var t := ts[grid[c]];
        CellInjective(width, t.x, t.y, x, y);
        Some(t)
      else None
    }

    /** The tile a cell starts a layer with: a new tile on layer 0, its tile one layer down otherwise. */
    function StartOf(layer: nat, below: seq<Tile>, belowGrid: seq<nat>, x: int, y: int): (t: Tile)
      requires layer > 0 ==> Complete(below, belowGrid)
      requires 0 <= x < width && 0 <= y < height
      ensures Fits(t) && t.x == x && t.y == y
    {
      if layer == 0 then MakeTile(x, y, radius, input, output) else TileOf(below, belowGrid, x, y).value
    }

    /** t is the tile its cell starts the layer with, the layer below being given. */
    predicate IsStartOf(layer: nat, below: seq<Tile>, belowGrid: seq<nat>, t: Tile)
      requires layer > 0 ==> Complete(below, belowGrid)
    {
      0 <= t.x < width && 0 <= t.y < height && t == StartOf(layer, below, belowGrid, t.x, t.y)
    }

    ghost predicate LayerOk(l: nat)
      reads this
      requires Lengths() && l < |tiles|
    {
      Complete(tiles[l], tileGrid[l]) && IndexedOf(tiles[l], tileIndex[l])
    }

    /** Layer l is complete: it may be read. */
    ghost predicate Ready(l: nat)
      reads this
    {
      Lengths() && l < |tiles| && LayerOk(l)
    }

    ghost predicate Valid()
      reads this
    {
      width == input.width && height == input.height && Lengths() && forall l :: 0 <= l < |tiles| ==> LayerOk(l)
    }

    /** `tile_at`: the tile of cell (x, y) of a layer; undefined outside the grid. */
    function TileAt(layer: nat, x: int, y: int): (r: Option<Tile>)
      reads this
      requires Ready(layer)
      ensures r.Some? <==> 0 <= x < width && 0 <= y < height
      ensures r.Some? ==> Fits(r.value) && r.value.x == x && r.value.y == y && r.value in tiles[layer]
    {
      TileOf(tiles[layer], tileGrid[layer], x, y)
    }

    /** The tile a cell starts a layer with. */
    ghost function Start(layer: nat, x: int, y: int): (t: Tile)
      reads this
      requires layer > 0 ==> Ready(layer - 1)
      requires 0 <= x < width && 0 <= y < height
    {
      if layer == 0 then StartOf(0, [], [], x, y) else StartOf(layer, tiles[layer - 1], tileGrid[layer - 1], x, y)
    }

    /** A tile its cell starts the layer with. */
    ghost predicate StartTile(layer: nat, t: Tile)
      reads this
      requires layer > 0 ==> Ready(layer - 1)
    {
      0 <= t.x < width && 0 <= t.y < height && t == Start(layer, t.x, t.y)
    }

    /** The layer being filled: its index, and the tiles of the positions filled so far. */
    ghost predicate Filling(layer: nat)
      reads this
    {
      width == input.width && height == input.height && Lengths() && layer < |tiles|
      && IndexedOf(tiles[layer], tileIndex[layer]) && |tileGrid[layer]| == width * height
    }

    /**
     * `set_tile`: reuse the position of a tile with the same key or append
     * the tile, then point the tile's cell at it. Every other position
     * keeps the index it held.
     */
    method SetTile(layer: nat, tile: Tile) returns (index: nat)
      requires Filling(layer) && Fits(tile)
      modifies this
      ensures Filling(layer) && |tiles| == old(|tiles|)
      ensures forall l :: 0 <= l < |tiles| && l != layer ==>
        tiles[l] == old(tiles[l]) && tileIndex[l] == old(tileIndex[l]) && tileGrid[l] == old(tileGrid[l])
      ensures tiles[layer] == old(tiles[layer]) + (if old(KeyOf(tile) in tileIndex[layer]) then [] else [tile])
      ensures tileIndex[layer] == old(tileIndex[layer])[KeyOf(tile) := index]
      ensures 0 <= Coord(tile) < width * height && tileGrid[layer] == old(tileGrid[layer])[Coord(tile) := index]
      ensures index < |tiles[layer]| && tiles[layer][index] == tile
    {
      var key := KeyOf(tile);
      CellRange(width, height, tile.x, tile.y);
      if key in tileIndex[layer] {
        index := tileIndex[layer][key];
        KeyDetermines(tiles[layer][index], tile);
      } else {
        index := |tiles[layer]|;
        tiles := tiles[layer := tiles[layer] + [tile]];
        var keys: map<Key, nat> := tileIndex[layer][key := index];
        tileIndex := tileIndex[layer := keys];
      }
      var row: seq<nat> := tileGrid[layer][Coord(tile) := index];
      tileGrid := tileGrid[layer := row];
    }

    /** Whether position c of the layer points to the given tile. */
    ghost predicate Holds(layer: nat, c: int, t: Tile)
      reads this
      requires Lengths() && layer < |tiles|
    {
      0 <= c < |tileGrid[layer]| && tileGrid[layer][c] < |tiles[layer]| && tiles[layer][tileGrid[layer][c]] == t
    }

    /** The positions of column x. */
    ghost function Column(x: int): set<int>
    {
      set y | 0 <= y < height :: Cell(width, x, y)
    }

    /** One round of the outer loop of `reset_tiles`: column x is reset and the columns before it keep their start tiles. */
    method ResetNextColumn(layer: nat, x: int, ghost below: seq<Tile>, ghost belowGrid: seq<nat>)
      requires Filling(layer) && 0 <= x < width
      requires layer > 0 ==> tiles[layer - 1] == below && tileGrid[layer - 1] == belowGrid && Complete(below, belowGrid)
      requires forall x', y' :: 0 <= x' < x && 0 <= y' < height ==>
        Holds(layer, Cell(width, x', y'), StartOf(layer, below, belowGrid, x', y'))
      modifies this
      ensures Filling(layer) && |tiles| == old(|tiles|) && old(tiles[layer]) <= tiles[layer]
      ensures forall l :: 0 <= l < |tiles| && l != layer ==>
        tiles[l] == old(tiles[l]) && tileIndex[l] == old(tileIndex[l]) && tileGrid[l] == old(tileGrid[l])
      ensures forall x', y' :: 0 <= x' <= x && 0 <= y' < height ==>
        Holds(layer, Cell(width, x', y'), StartOf(layer, below, belowGrid, x', y'))
      ensures forall i :: |old(tiles[layer])| <= i < |tiles[layer]| ==> IsStartOf(layer, below, belowGrid, tiles[layer][i])
    {
      ResetColumn(layer, x, below, belowGrid);
      forall x', y' | 0 <= x' < x && 0 <= y' < height
        ensures Holds(layer, Cell(width, x', y'), StartOf(layer, below, belowGrid, x', y'))
      {
        CellRange(width, height, x', y');
        if Cell(width, x', y') in Column(x) {
          var y'' :| 0 <= y'' < height && Cell(width, x, y'') == Cell(width, x', y');
          CellInjective(width, x, y'', x', y');
        }
        assert old(Holds(layer, Cell(width, x', y'), StartOf(layer, below, belowGrid, x', y')));
      }
    }

    /** The inner loop of `reset_tiles`: give each cell of column x its start tile. */
    method ResetColumn(layer: nat, x: int, ghost below: seq<Tile>, ghost belowGrid: seq<nat>)
      requires Filling(layer) && 0 <= x < width
      requires layer > 0 ==> tiles[layer - 1] == below && tileGrid[layer - 1] == belowGrid && Complete(below, belowGrid)
      modifies this
      ensures Filling(layer) && |tiles| == old(|tiles|) && old(tiles[layer]) <= tiles[layer]
      ensures forall l :: 0 <= l < |tiles| && l != layer ==>
        tiles[l] == old(tiles[l]) && tileIndex[l] == old(tileIndex[l]) && tileGrid[l] == old(tileGrid[l])
      ensures forall y :: 0 <= y < height ==> Holds(layer, Cell(width, x, y), StartOf(layer, below, belowGrid, x, y))
      ensures forall c :: 0 <= c < |tileGrid[layer]| && c !in Column(x) ==> tileGrid[layer][c] == old(tileGrid[layer][c])
      ensures forall i :: |old(tiles[layer])| <= i < |tiles[layer]| ==> IsStartOf(layer, below, belowGrid, tiles[layer][i])
    {
      for y := 0 to height
        invariant Filling(layer) && |tiles| == old(|tiles|) && old(tiles[layer]) <= tiles[layer]
        invariant forall l :: 0 <= l < |tiles| && l != layer ==>
          tiles[l] == old(tiles[l]) && tileIndex[l] == old(tileIndex[l]) && tileGrid[l] == old(tileGrid[l])
        invariant forall y' :: 0 <= y' < y ==> Holds(layer, Cell(width, x, y'), StartOf(layer, below, belowGrid, x, y'))
        invariant forall c :: 0 <= c < |tileGrid[layer]| && c !in Column(x) ==> tileGrid[layer][c] == old(tileGrid[layer][c])
        invariant forall i :: |old(tiles[layer])| <= i < |tiles[layer]| ==> IsStartOf(layer, below, belowGrid, tiles[layer][i])
      {
        var t;
        if layer == 0 {
          t := NewTile(x, y, radius, input, output);
        } else {
          t := TileOf(tiles[layer - 1], tileGrid[layer - 1], x, y).value;
        }
        label before:
        var index := SetTile(layer, t);
        forall y' | 0 <= y' < y
          ensures Holds(layer, Cell(width, x, y'), StartOf(layer, below, belowGrid, x, y'))
        {
          CellRange(width, height, x, y');
          if Cell(width, x, y') == Cell(width, x, y) {
            CellInjective(width, x, y', x, y);
          }
          assert old@before(Holds(layer, Cell(width, x, y'), StartOf(layer, below, belowGrid, x, y')));
        }
        assert Cell(width, x, y) in Column(x);
      }
    }

    /** The loop at the head of `reset_tiles`: add empty layers up to the given one. */
    method AddLayers(layer: nat)
      requires Lengths()
      modifies this
      ensures Lengths() && |tiles| == (if layer < old(|tiles|) then old(|tiles|) else layer + 1)
      ensures forall l :: 0 <= l < old(|tiles|) ==>
        tiles[l] == old(tiles[l]) && tileIndex[l] == old(tileIndex[l]) && tileGrid[l] == old(tileGrid[l])
      ensures forall l :: old(|tiles|) <= l < |tiles| ==> tiles[l] == [] && tileIndex[l] == map[] && |tileGrid[l]| == width * height
    {
      while |tileIndex| <= layer
        invariant Lengths() && old(|tiles|) <= |tiles| && (|tiles| <= layer + 1 || |tiles| == old(|tiles|))
        invariant forall l :: 0 <= l < old(|tiles|) ==>
          tiles[l] == old(tiles[l]) && tileIndex[l] == old(tileIndex[l]) && tileGrid[l] == old(tileGrid[l])
        invariant forall l :: old(|tiles|) <= l < |tiles| ==> tiles[l] == [] && tileIndex[l] == map[] && |tileGrid[l]| == width * height
        decreases layer + 1 - |tileIndex|
      {
        tileIndex := tileIndex + [map[]];
        tiles := tiles + [[]];
        tileGrid := tileGrid + [Coords(width * height)];
      }
    }

    /**
     * `reset_tiles`: create the layer when it is new, then give every cell
     * its start tile. Other layers are left alone and known tiles are kept.
     */
    method ResetTiles(layer: nat)
      requires Valid() && layer <= |tiles|
      modifies this
      ensures Valid() && |tiles| == (if layer < old(|tiles|) then old(|tiles|) else layer + 1)
      ensures forall l :: 0 <= l < |tiles| && l != layer ==>
        tiles[l] == old(tiles[l]) && tileIndex[l] == old(tileIndex[l]) && tileGrid[l] == old(tileGrid[l])
      ensures layer < old(|tiles|) ==> old(tiles[layer]) <= tiles[layer]
      ensures forall i :: (if layer < old(|tiles|) then |old(tiles[layer])| else 0) <= i < |tiles[layer]| ==> StartTile(layer, tiles[layer][i])
      ensures forall x, y :: 0 <= x < width && 0 <= y < height ==> TileAt(layer, x, y) == Some(Start(layer, x, y))
    {
      AddLayers(layer);
      ghost var first := |tiles[layer]|;
      ghost var below := if layer > 0 then tiles[layer - 1] else [];
      ghost var belowGrid := if layer > 0 then tileGrid[layer - 1] else [];
      if layer > 0 {
        assert old(LayerOk(layer - 1));
      }
      if layer < old(|tiles|) {
        assert old(LayerOk(layer));
      }
      for x := 0 to width
        invariant Filling(layer) && |tiles| == (if layer < old(|tiles|) then old(|tiles|) else layer + 1)
        invariant forall l :: 0 <= l < |tiles| && l != layer ==>
          tiles[l] == old(tiles[l]) && tileIndex[l] == old(tileIndex[l]) && tileGrid[l] == old(tileGrid[l])
        invariant layer < old(|tiles|) ==> old(tiles[layer]) <= tiles[layer]
        invariant layer > 0 ==> tiles[layer - 1] == below && tileGrid[layer - 1] == belowGrid && Complete(below, belowGrid)
        invariant forall x', y' :: 0 <= x' < x && 0 <= y' < height ==>
          Holds(layer, Cell(width, x', y'), StartOf(layer, below, belowGrid, x', y'))
        invariant first <= |tiles[layer]|
        invariant forall i :: first <= i < |tiles[layer]| ==> IsStartOf(layer, below, belowGrid, tiles[layer][i])
      {
        ResetNextColumn(layer, x, below, belowGrid);
      }
      forall c | 0 <= c < width * height
        ensures PointsOf(tiles[layer], tileGrid[layer], c)
      {
        CellOf(width, height, c);
        assert Holds(layer, Cell(width, c % width, c / width), StartOf(layer, below, belowGrid, c % width, c / width));
      }
      assert LayerOk(layer);
      forall l | 0 <= l < |tiles|
        ensures LayerOk(l)
      {
        if l != layer {
          assert old(LayerOk(l));
        }
      }
      forall x, y | 0 <= x < width && 0 <= y < height
        ensures TileAt(layer, x, y) == Some(Start(layer, x, y))
      {
        assert Holds(layer, Cell(width, x, y), StartOf(layer, below, belowGrid, x, y));
      }
      forall i | first <= i < |tiles[layer]|
        ensures StartTile(layer, tiles[layer][i])
      {
        assert IsStartOf(layer, below, belowGrid, tiles[layer][i]);
      }
    }

    /** Within the radius of (x, y) in both directions. */
    predicate Near(x: int, y: int, x': int, y': int)
    {
      x - radius <= x' <= x + radius && y - radius <= y' <= y + radius
    }

    /** Putting a fitting tile at its cell changes the tile of that cell and no other. */
    lemma ReplaceTile(ts: seq<Tile>, grid: seq<nat>, ts': seq<Tile>, grid': seq<nat>, t: Tile, index: nat)
      requires Complete(ts, grid) && ts <= ts' && forall i :: 0 <= i < |ts'| ==> Fits(ts'[i])
      requires Fits(t) && index < |ts'| && ts'[index] == t
      requires 0 <= Coord(t) < |grid| && grid' == grid[Coord(t) := index]
      ensures Complete(ts', grid')
      ensures forall x', y' :: TileOf(ts', grid', x', y') == if x' == t.x && y' == t.y then Some(t) else TileOf(ts, grid, x', y')
    {
      forall c | 0 <= c < width * height
        ensures PointsOf(ts', grid', c)
      {
        assert PointsOf(ts, grid, c);
      }
      forall x', y'
        ensures TileOf(ts', grid', x', y') == if x' == t.x && y' == t.y then Some(t) else TileOf(ts, grid, x', y')
      {
        if 0 <= x' < width && 0 <= y' < height {
          CellRange(width, height, x', y');
          var c := Cell(width, x', y');
          assert PointsOf(ts', grid', c);
          if c == Coord(t) {
            CellInjective(width, x', y', t.x, t.y);
          } else {
            assert PointsOf(ts, grid, c);
            assert ts'[grid'[c]] == ts[grid[c]];
          }
        }
      }
    }

    /** The inner loop of `draw_at`: paint (x, y) into the tiles of column xx within the radius. */
    method DrawColumn(layer: nat, x: int, y: int, c: Color, xx: int, affected: seq<nat>) returns (result: seq<nat>)
      requires Filling(layer) && Complete(tiles[layer], tileGrid[layer])
      modifies this
      ensures Filling(layer) && Complete(tiles[layer], tileGrid[layer]) && |tiles| == old(|tiles|) && old(tiles[layer]) <= tiles[layer]
      ensures forall l :: 0 <= l < |tiles| && l != layer ==>
        tiles[l] == old(tiles[l]) && tileIndex[l] == old(tileIndex[l]) && tileGrid[l] == old(tileGrid[l])
      ensures forall x', y' :: TileOf(tiles[layer], tileGrid[layer], x', y') == if x' == xx then Painted(old(TileOf(tiles[layer], tileGrid[layer], x', y')), x, y, c) else old(TileOf(tiles[layer], tileGrid[layer], x', y'))
      ensures forall j :: j in result <==> j in affected || exists y' :: 0 <= xx < width && 0 <= y' < height && y - radius <= y' <= y + radius && j == Cell(width, xx, y')
    {
      ghost var ts0, g0 := tiles[layer], tileGrid[layer];
      result := affected;
      forall x', y' | x' == xx && y' < y - radius
        ensures Painted(TileOf(ts0, g0, x', y'), x, y, c) == TileOf(ts0, g0, x', y')
      {
      }
      for yy := y - radius to y + radius + 1
        invariant Filling(layer) && Complete(tiles[layer], tileGrid[layer]) && |tiles| == old(|tiles|) && ts0 <= tiles[layer]
        invariant forall l :: 0 <= l < |tiles| && l != layer ==>
          tiles[l] == old(tiles[l]) && tileIndex[l] == old(tileIndex[l]) && tileGrid[l] == old(tileGrid[l])
        invariant forall x', y' :: TileOf(tiles[layer], tileGrid[layer], x', y') == if x' == xx && y' < yy then Painted(TileOf(ts0, g0, x', y'), x, y, c) else TileOf(ts0, g0, x', y')
        invariant forall j :: j in result <==> j in affected || exists y' :: 0 <= xx < width && 0 <= y' < height && y - radius <= y' < yy && j == Cell(width, xx, y')
      {
        result := DrawTile(layer, x, y, c, xx, yy, result);
      }
      forall x', y' | x' == xx && y' >= y + radius + 1
        ensures Painted(TileOf(ts0, g0, x', y'), x, y, c) == TileOf(ts0, g0, x', y')
      {
      }
    }

    /** One step of the inner loop of `draw_at`: paint (x, y) into the tile at (xx, yy), if there is one. */
    method DrawTile(layer: nat, x: int, y: int, c: Color, xx: int, yy: int, affected: seq<nat>) returns (result: seq<nat>)
      requires Filling(layer) && Complete(tiles[layer], tileGrid[layer])
      modifies this
      ensures Filling(layer) && Complete(tiles[layer], tileGrid[layer]) && |tiles| == old(|tiles|) && old(tiles[layer]) <= tiles[layer]
      ensures forall l :: 0 <= l < |tiles| && l != layer ==>
        tiles[l] == old(tiles[l]) && tileIndex[l] == old(tileIndex[l]) && tileGrid[l] == old(tileGrid[l])
      ensures forall x', y' :: TileOf(tiles[layer], tileGrid[layer], x', y') == if x' == xx && y' == yy then Painted(old(TileOf(tiles[layer], tileGrid[layer], x', y')), x, y, c) else old(TileOf(tiles[layer], tileGrid[layer], x', y'))
      ensures forall j :: j in result <==> j in affected || (0 <= xx < width && 0 <= yy < height && j == Cell(width, xx, yy))
    {
      result := affected;
      var o := TileAt(layer, xx, yy);
      if o.Some? {
        var updated := TileSet(o.value, x, y, c);
        result := Add(result, Coord(updated));
        ghost var ts1, g1 := tiles[layer], tileGrid[layer];
        var index := SetTile(layer, updated);
        ReplaceTile(ts1, g1, tiles[layer], tileGrid[layer], updated, index);
      }
    }

    /**
     * `draw_at`: every tile of the layer within the radius of (x, y) gets
     * colour c at (x, y), and the coordinates of those tiles join the
     * worklist.
     */
    method DrawAt(layer: nat, x: int, y: int, c: Color, affected: seq<nat>) returns (result: seq<nat>)
      requires Valid() && layer < |tiles|
      modifies this
      ensures Valid() && |tiles| == old(|tiles|) && old(tiles[layer]) <= tiles[layer]
      ensures forall l :: 0 <= l < |tiles| && l != layer ==>
        tiles[l] == old(tiles[l]) && tileIndex[l] == old(tileIndex[l]) && tileGrid[l] == old(tileGrid[l])
      ensures forall x', y' :: 0 <= x' < width && 0 <= y' < height ==>
        TileAt(layer, x', y') == Some(TileSet(old(TileAt(layer, x', y')).value, x, y, c))
      ensures forall j :: j in result <==> j in affected || exists x', y' :: 0 <= x' < width && 0 <= y' < height && Near(x, y, x', y') && j == Cell(width, x', y')
    {
      assert LayerOk(layer);
      ghost var ts0, g0 := tiles[layer], tileGrid[layer];
      result := affected;
      for xx := x - radius to x + radius + 1
        invariant Filling(layer) && Complete(tiles[layer], tileGrid[layer]) && |tiles| == old(|tiles|) && ts0 <= tiles[layer]
        invariant Complete(ts0, g0)
        invariant forall l :: 0 <= l < |tiles| && l != layer ==>
          tiles[l] == old(tiles[l]) && tileIndex[l] == old(tileIndex[l]) && tileGrid[l] == old(tileGrid[l])
        invariant forall x', y' :: x' < xx ==>
          TileOf(tiles[layer], tileGrid[layer], x', y') == Painted(TileOf(ts0, g0, x', y'), x, y, c)
        invariant forall x', y' :: x' >= xx ==> TileOf(tiles[layer], tileGrid[layer], x', y') == TileOf(ts0, g0, x', y')
        invariant forall j :: j in result <==> j in affected || exists x', y' :: 0 <= x' < width && 0 <= y' < height && x - radius <= x' < xx && y - radius <= y' <= y + radius && j == Cell(width, x', y')
      {
        result := DrawColumn(layer, x, y, c, xx, result);
      }
      forall l | 0 <= l < |tiles|
        ensures LayerOk(l)
      {
        if l != layer {
          assert old(LayerOk(l));
        }
      }
      forall x', y' | 0 <= x' < width && 0 <= y' < height
        ensures TileAt(layer, x', y') == Some(TileSet(old(TileAt(layer, x', y')).value, x, y, c))
      {
        if x' >= x + radius + 1 {
          assert TileAt(layer, x', y') == TileOf(ts0, g0, x', y');
        }
      }
    }

    /** All tiles of the layer account for their colours against their start tiles. */
    ghost predicate Accounted(layer: nat, below: seq<Tile>, belowGrid: seq<nat>)
      reads this
      requires Ready(layer) && (layer > 0 ==> Complete(below, belowGrid))
    {
      forall x, y :: 0 <= x < width && 0 <= y < height ==>
        KeptOrDrawn(TileAt(layer, x, y).value, StartOf(layer, below, belowGrid, x, y))
    }

    /** After a visit that draws around t: j is queued iff it was, or lies near t, and is not the visited coordinate. */
    predicate Queued(coords: seq<nat>, coord: nat, t: Tile, j: nat)
    {
      j != coord && (j in coords || exists x, y :: 0 <= x < width && 0 <= y < height && Near(t.x, t.y, x, y) && j == Cell(width, x, y))
    }

    /**
     * One visit of the worklist loop of `rasterize_layer`: the tile at
     * `coord` asks `f` for a colour; a colour that differs from its centre
     * is drawn when the output grid (if any) agrees, and counted as an
     * error otherwise. The coordinate then leaves the worklist.
     */
    method Visit(layer: nat, f: TileFn, coord: nat, coords: seq<nat>, errors: nat, ghost below: seq<Tile>, ghost belowGrid: seq<nat>)
      returns (coords': seq<nat>, errors': nat, ghost visited: Tile)
      requires Valid() && layer < |tiles| && coord < width * height
      requires layer > 0 ==> tiles[layer - 1] == below && tileGrid[layer - 1] == belowGrid && Complete(below, belowGrid)
      requires Accounted(layer, below, belowGrid)
      requires forall j :: j in coords ==> j < width * height
      modifies this
      ensures Valid() && |tiles| == old(|tiles|) && old(tiles[layer]) <= tiles[layer]
      ensures forall l :: 0 <= l < |tiles| && l != layer ==> tiles[l] == old(tiles[l]) && tileIndex[l] == old(tileIndex[l]) && tileGrid[l] == old(tileGrid[l])
      ensures Accounted(layer, below, belowGrid)
      ensures forall j :: j in coords' ==> j < width * height
      ensures coord !in coords' && forall j :: j in coords && j != coord ==> j in coords'
      ensures Fits(visited) && Cell(width, visited.x, visited.y) == coord && Some(visited) == old(TileAt(layer, visited.x, visited.y))
      ensures visited in tiles[layer]
      ensures errors' == errors + (if Disagrees(output, visited, f(visited)) then 1 else 0)
      ensures !Draws(output, visited, f(visited)) ==>
        tiles == old(tiles) && tileIndex == old(tileIndex) && tileGrid == old(tileGrid) && coords' == Delete(coords, coord)
      ensures Draws(output, visited, f(visited)) ==> forall x, y :: 0 <= x < width && 0 <= y < height ==>
        TileAt(layer, x, y) == Some(TileSet(old(TileAt(layer, x, y)).value, visited.x, visited.y, f(visited)))
      ensures Draws(output, visited, f(visited)) ==> forall j :: j in coords' <==> Queued(coords, coord, visited, j)
    {
      assert LayerOk(layer) && PointsOf(tiles[layer], tileGrid[layer], coord);
      var index := tileGrid[layer][coord];
      var tile := tiles[layer][index];
      visited := tile;
      var color := f(tile);
      coords', errors' := coords, errors;
      if color >= 0 && color != Centre(tile) {
        if output.None? || At(output.value, tile.x, tile.y) == color {
          ghost var before := tiles[layer];
          label drawing:
          coords' := DrawAt(layer, tile.x, tile.y, color, coords);
          forall x, y | 0 <= x < width && 0 <= y < height
            ensures KeptOrDrawn(TileAt(layer, x, y).value, StartOf(layer, below, belowGrid, x, y))
          {
            var t := old@drawing(TileAt(layer, x, y)).value;
            assert old@drawing(KeptOrDrawn(TileAt(layer, x, y).value, StartOf(layer, below, belowGrid, x, y)));
            PaintKeeps(t, StartOf(layer, below, belowGrid, x, y), tile.x, tile.y, color);
          }
          forall j | j in coords'
            ensures j < width * height
          {
            if j !in coords {
              var x, y :| 0 <= x < width && 0 <= y < height && Near(tile.x, tile.y, x, y) && j == Cell(width, x, y);
              CellRange(width, height, x, y);
            }
          }
        } else {
          errors' := errors + 1;
        }
      }
      coords' := Delete(coords', coord);
    }

    /**
     * The visits of a pass so far, (ts, ix, g) being the layer now and
     * (ts0, ix0, g0) the layer the pass started with: the k-th visit is a
     * tile of the k-th coordinate; until a visit draws, each visit is the
     * tile its cell held at the start; while none draws, the layer is as
     * it was and the worklist has lost the coordinates visited and gained
     * none.
     */
    predicate PassSoFar(f: TileFn, coords: seq<nat>, coords': seq<nat>, round: seq<Tile>,
                        ts: seq<Tile>, ix: map<Key, nat>, g: seq<nat>, ts0: seq<Tile>, ix0: map<Key, nat>, g0: seq<nat>)
      requires Complete(ts0, g0)
    {
      && |round| <= |coords| && CoordsOf(round) == coords[..|round|]
      && (forall k :: 0 <= k < |round| && Quiet(output, f, round, 0, k) ==> Some(round[k]) == TileOf(ts0, g0, round[k].x, round[k].y))
      && (Quiet(output, f, round, 0, |round|) ==>
            ts == ts0 && ix == ix0 && g == g0
            && (forall j :: j in coords' ==> j in coords) && forall k :: 0 <= k < |round| ==> coords[k] !in coords')
    }

    /**
     * The state of a pass of the `for` loop of `rasterize_layer`: the
     * rasterizer is valid and its layer accounted for, the worklists hold
     * coordinates of the grid, the visits keep to the layer, `errors`
     * counts those the output grid refused, and `PassSoFar` holds against
     * the layer (ts0, ix0, g0) the pass started with.
     */
    ghost predicate Visiting(layer: nat, f: TileFn, coords: seq<nat>, coords': seq<nat>, errors: nat, visits: seq<Tile>, round: seq<Tile>,
                             ts0: seq<Tile>, ix0: map<Key, nat>, g0: seq<nat>, below: seq<Tile>, belowGrid: seq<nat>)
      reads this
    {
      && Valid() && layer < |tiles|
      && (layer > 0 ==> tiles[layer - 1] == below && tileGrid[layer - 1] == belowGrid && Complete(below, belowGrid))
      && Accounted(layer, below, belowGrid)
      && (forall j :: j in coords ==> j < width * height) && (forall j :: j in coords' ==> j < width * height)
      && AllShaped(visits) && (forall k :: 0 <= k < |visits| ==> Fits(visits[k]) && visits[k] in tiles[layer])
      && errors == ErrorsOf(output, f, visits)
      && Complete(ts0, g0) && ts0 <= tiles[layer]
      && PassSoFar(f, coords, coords', round, tiles[layer], tileIndex[layer], tileGrid[layer], ts0, ix0, g0)
    }

    /** One step of the `for` loop of `rasterize_layer`: visit the next coordinate of the pass. */
    method VisitNext(layer: nat, f: TileFn, coords: seq<nat>, i: nat, coords': seq<nat>, errors': nat, ghost visits': seq<Tile>, ghost round: seq<Tile>,
                     ghost ts0: seq<Tile>, ghost ix0: map<Key, nat>, ghost g0: seq<nat>, ghost below: seq<Tile>, ghost belowGrid: seq<nat>)
      returns (coords'': seq<nat>, errors'': nat, ghost visits'': seq<Tile>, ghost round': seq<Tile>)
      requires Visiting(layer, f, coords, coords', errors', visits', round, ts0, ix0, g0, below, belowGrid)
      requires i == |round| < |coords|
      modifies this
      ensures Visiting(layer, f, coords, coords'', errors'', visits'', round', ts0, ix0, g0, below, belowGrid)
      ensures |tiles| == old(|tiles|) && old(tiles[layer]) <= tiles[layer]
      ensures forall l :: 0 <= l < |tiles| && l != layer ==> tiles[l] == old(tiles[l]) && tileIndex[l] == old(tileIndex[l]) && tileGrid[l] == old(tileGrid[l])
      ensures |round'| == |round| + 1 && round' == round + [round'[|round|]] && visits'' == visits' + [round'[|round|]]
    {
      assert coords[i] in coords && LayerOk(layer);
      ghost var ts, ix, g := tiles[layer], tileIndex[layer], tileGrid[layer];
      ghost var visited;
      coords'', errors'', visited := Visit(layer, f, coords[i], coords', errors', below, belowGrid);
      visits'' := visits' + [visited];
      round' := round + [visited];
      assert visits''[..|visits'|] == visits';
      NextSoFar(f, coords, coords', coords'', round, visited, ts, ix, g, tiles[layer], tileIndex[layer], tileGrid[layer], ts0, ix0, g0);
    }

    /** The step of `VisitNext` on values: visiting the next coordinate keeps `PassSoFar`. */
    lemma NextSoFar(f: TileFn, coords: seq<nat>, coords': seq<nat>, coords'': seq<nat>, round: seq<Tile>, visited: Tile,
                    ts: seq<Tile>, ix: map<Key, nat>, g: seq<nat>, ts': seq<Tile>, ix': map<Key, nat>, g': seq<nat>,
                    ts0: seq<Tile>, ix0: map<Key, nat>, g0: seq<nat>)
      requires Complete(ts0, g0) && Complete(ts, g)
      requires PassSoFar(f, coords, coords', round, ts, ix, g, ts0, ix0, g0) && |round| < |coords|
      requires Fits(visited) && Coord(visited) == coords[|round|] && Some(visited) == TileOf(ts, g, visited.x, visited.y)
      requires !Draws(output, visited, f(visited)) ==> ts' == ts && ix' == ix && g' == g && coords'' == Delete(coords', coords[|round|])
      ensures PassSoFar(f, coords, coords'', round + [visited], ts', ix', g', ts0, ix0, g0)
    {
      var i := |round|;
      var round' := round + [visited];
      assert CoordsOf(round') == CoordsOf(round) + [Coord(visited)];
      assert coords[..i + 1] == coords[..i] + [coords[i]];
      QuietPrefix(output, f, round, round', 0);
    }

    /**
     * One pass of the `for` loop of `rasterize_layer`: visit, in order, every
     * coordinate the worklist holds when the pass starts. The visited tiles
     * `round` are appended to `visits`, and `error_count` stays the number
     * of visits that disagreed with the output grid. The i-th visit of the
     * pass is a tile of the i-th coordinate; until a visit of the pass
     * draws, each visit is the tile its cell held when the pass started;
     * a pass in which nothing draws changes no tile and leaves in the
     * worklist none of the coordinates it visited, and no other.
     */
    method VisitRound(layer: nat, f: TileFn, coords: seq<nat>, errors: nat, ghost visits: seq<Tile>, ghost below: seq<Tile>, ghost belowGrid: seq<nat>)
      returns (coords': seq<nat>, errors': nat, ghost visits': seq<Tile>, ghost round: seq<Tile>)
      requires Valid() && layer < |tiles|
      requires layer > 0 ==> tiles[layer - 1] == below && tileGrid[layer - 1] == belowGrid && Complete(below, belowGrid)
      requires Accounted(layer, below, belowGrid)
      requires forall j :: j in coords ==> j < width * height
      requires AllShaped(visits) && forall i :: 0 <= i < |visits| ==> Fits(visits[i]) && visits[i] in tiles[layer]
      requires errors == ErrorsOf(output, f, visits)
      modifies this
      ensures Valid() && |tiles| == old(|tiles|) && old(tiles[layer]) <= tiles[layer]
      ensures forall l :: 0 <= l < |tiles| && l != layer ==> tiles[l] == old(tiles[l]) && tileIndex[l] == old(tileIndex[l]) && tileGrid[l] == old(tileGrid[l])
      ensures Accounted(layer, below, belowGrid)
      ensures forall j :: j in coords' ==> j < width * height
      ensures visits' == visits + round && |round| == |coords|
      ensures AllShaped(visits') && forall i :: 0 <= i < |visits'| ==> Fits(visits'[i]) && visits'[i] in tiles[layer]
      ensures errors' == ErrorsOf(output, f, visits')
      ensures Complete(old(tiles[layer]), old(tileGrid[layer]))
      ensures PassSoFar(f, coords, coords', round, tiles[layer], tileIndex[layer], tileGrid[layer],
                        old(tiles[layer]), old(tileIndex[layer]), old(tileGrid[layer]))
    {
      assert LayerOk(layer);
      ghost var ts0, ix0, g0 := tiles[layer], tileIndex[layer], tileGrid[layer];
      coords', errors', visits', round := coords, errors, visits, [];
      for i := 0 to |coords|
        invariant Visiting(layer, f, coords, coords', errors', visits', round, ts0, ix0, g0, below, belowGrid)
        invariant |tiles| == old(|tiles|) && old(tiles[layer]) <= tiles[layer]
        invariant forall l :: 0 <= l < |tiles| && l != layer ==> tiles[l] == old(tiles[l]) && tileIndex[l] == old(tileIndex[l]) && tileGrid[l] == old(tileGrid[l])
        invariant visits' == visits + round && |round| == i
      {
        ghost var step;
        coords', errors', visits', step := VisitNext(layer, f, coords, i, coords', errors', visits', round, ts0, ix0, g0, below, belowGrid);
        round := step;
      }
    }

    /**
     * The passes of `rasterize_layer` so far, `rounds` of its `fuel` passes
     * being left; (ts, ix, g) is the layer now and (known, knownIndex,
     * knownGrid) the layer the reset left. The visits keep to the layer and
     * `errorCount` counts those the output grid refused; before the first
     * pass nothing is visited; after it, the first `width * height` visits
     * are at the cells in order; until a visit draws, visits of the first
     * pass are start tiles; while none draws, the layer keeps its reset
     * tiles and one pass empties the worklist.
     */
    predicate RunSoFar(layer: nat, f: TileFn, fuel: nat, rounds: nat, coords: seq<nat>, visits: seq<Tile>, errorCount: nat,
                       ts: seq<Tile>, ix: map<Key, nat>, g: seq<nat>, known: seq<Tile>, knownIndex: map<Key, nat>, knownGrid: seq<nat>,
                       below: seq<Tile>, belowGrid: seq<nat>)
      requires layer > 0 ==> Complete(below, belowGrid)
    {
      && known <= ts
      && (forall j :: j in coords ==> j < width * height)
      && AllShaped(visits) && (forall i :: 0 <= i < |visits| ==> Fits(visits[i]) && visits[i] in ts)
      && errorCount == ErrorsOf(output, f, visits)
      && rounds <= fuel
      && (rounds == fuel ==> visits == [] && coords == Coords(width * height) && ts == known && ix == knownIndex && g == knownGrid)
      && (rounds < fuel ==> |visits| >= width * height && forall i :: 0 <= i < width * height ==> Coord(visits[i]) == i)
      && (forall i :: 0 <= i < |visits| && i < width * height && Quiet(output, f, visits, 0, i) ==> IsStartOf(layer, below, belowGrid, visits[i]))
      && (Quiet(output, f, visits, 0, |visits|) ==> ts == known && (rounds < fuel ==> |visits| == width * height && coords == []))
    }

    /** One iteration of the `while` loop of `rasterize_layer`: one pass over the worklist. */
    method Pass(layer: nat, f: TileFn, fuel: nat, rounds: nat, coords: seq<nat>, errorCount: nat, ghost visits: seq<Tile>,
                ghost known: seq<Tile>, ghost knownIndex: map<Key, nat>, ghost knownGrid: seq<nat>, ghost below: seq<Tile>, ghost belowGrid: seq<nat>)
      returns (coords': seq<nat>, errorCount': nat, ghost visits': seq<Tile>)
      requires Valid() && layer < |tiles| && |coords| > 0 && rounds > 0
      requires layer > 0 ==> tiles[layer - 1] == below && tileGrid[layer - 1] == belowGrid && Complete(below, belowGrid)
      requires Accounted(layer, below, belowGrid)
      requires Complete(known, knownGrid) && forall x, y :: 0 <= x < width && 0 <= y < height ==>
        TileOf(known, knownGrid, x, y) == Some(StartOf(layer, below, belowGrid, x, y))
      requires RunSoFar(layer, f, fuel, rounds, coords, visits, errorCount, tiles[layer], tileIndex[layer], tileGrid[layer],
                        known, knownIndex, knownGrid, below, belowGrid)
      modifies this
      ensures Valid() && |tiles| == old(|tiles|)
      ensures forall l :: 0 <= l < |tiles| && l != layer ==> tiles[l] == old(tiles[l]) && tileIndex[l] == old(tileIndex[l]) && tileGrid[l] == old(tileGrid[l])
      ensures Accounted(layer, below, belowGrid)
      ensures RunSoFar(layer, f, fuel, rounds - 1, coords', visits', errorCount', tiles[layer], tileIndex[layer], tileGrid[layer],
                       known, knownIndex, knownGrid, below, belowGrid)
    {
      ghost var ts0, ix0, g0 := tiles[layer], tileIndex[layer], tileGrid[layer];
      ghost var round;
      coords', errorCount', visits', round := VisitRound(layer, f, coords, errorCount, visits, below, belowGrid);
      assert PassSoFar(f, coords, coords', round, tiles[layer], tileIndex[layer], tileGrid[layer], ts0, ix0, g0);
      assert coords[..|round|] == coords;
      QuietPrefix(output, f, visits, visits', 0);
      if rounds == fuel {
        assert visits == [] && coords == Coords(width * height) && ts0 == known && g0 == knownGrid;
        InOrder(round, width * height);
        assert visits' == round;
        forall i | 0 <= i < |visits'| && i < width * height && Quiet(output, f, visits', 0, i)
          ensures IsStartOf(layer, below, belowGrid, visits'[i])
        {
          assert Some(round[i]) == TileOf(known, knownGrid, round[i].x, round[i].y);
        }
        if Quiet(output, f, visits', 0, |visits'|) {
          Emptied(coords, coords');
        }
      } else {
        assert !Quiet(output, f, visits, 0, |visits|);
        QuietMono(output, f, visits', 0, |visits|, |visits'|);
      }
    }

    /** The `while` loop of `rasterize_layer`: passes over the worklist until it is empty or `fuel` passes are done. */
    method Passes(layer: nat, f: TileFn, fuel: nat, ghost known: seq<Tile>, ghost knownIndex: map<Key, nat>, ghost knownGrid: seq<nat>,
                  ghost below: seq<Tile>, ghost belowGrid: seq<nat>)
      returns (errorCount: nat, ghost visits: seq<Tile>, ghost left: nat, ghost coords': seq<nat>)
      requires Valid() && layer < |tiles|
      requires layer > 0 ==> tiles[layer - 1] == below && tileGrid[layer - 1] == belowGrid && Complete(below, belowGrid)
      requires Accounted(layer, below, belowGrid)
      requires tiles[layer] == known && tileIndex[layer] == knownIndex && tileGrid[layer] == knownGrid
      requires forall x, y :: 0 <= x < width && 0 <= y < height ==> TileOf(known, knownGrid, x, y) == Some(StartOf(layer, below, belowGrid, x, y))
      modifies this
      ensures Valid() && |tiles| == old(|tiles|)
      ensures forall l :: 0 <= l < |tiles| && l != layer ==> tiles[l] == old(tiles[l]) && tileIndex[l] == old(tileIndex[l]) && tileGrid[l] == old(tileGrid[l])
      ensures Accounted(layer, below, belowGrid)
      ensures coords' == [] || left == 0
      ensures RunSoFar(layer, f, fuel, left, coords', visits, errorCount, tiles[layer], tileIndex[layer], tileGrid[layer],
                       known, knownIndex, knownGrid, below, belowGrid)
    {
      assert LayerOk(layer);
      var coords: seq<nat> := Coords(width * height);
      errorCount := 0;
      visits := [];
      var rounds := fuel;
      while |coords| > 0 && rounds > 0
        invariant Valid() && |tiles| == old(|tiles|)
        invariant forall l :: 0 <= l < |tiles| && l != layer ==> tiles[l] == old(tiles[l]) && tileIndex[l] == old(tileIndex[l]) && tileGrid[l] == old(tileGrid[l])
        invariant layer > 0 ==> tiles[layer - 1] == below && tileGrid[layer - 1] == belowGrid && Complete(below, belowGrid)
        invariant Accounted(layer, below, belowGrid)
        invariant Complete(known, knownGrid) && forall x, y :: 0 <= x < width && 0 <= y < height ==>
          TileOf(known, knownGrid, x, y) == Some(StartOf(layer, below, belowGrid, x, y))
        invariant RunSoFar(layer, f, fuel, rounds, coords, visits, errorCount, tiles[layer], tileIndex[layer], tileGrid[layer],
                           known, knownIndex, knownGrid, below, belowGrid)
        decreases rounds
      {
        coords, errorCount, visits := Pass(layer, f, fuel, rounds, coords, errorCount, visits, known, knownIndex, knownGrid, below, belowGrid);
        rounds := rounds - 1;
      }
      coords', left := coords, rounds;
    }

    /**
     * `rasterize_layer`: reset the layer, then, while the worklist is not
     * empty and at most `fuel` times, visit every coordinate the worklist
     * holds. A layer without a tile function only gets its reset.
     *
     * `known` is the layer's tile list just after the reset: the tiles it
     * held before, then start tiles of cells; `newTileCount` is how far
     * the list grew from it. `visits` are the tiles visited, in order:
     * the first pass visits every coordinate in order, each at its start
     * tile until a visit draws, and `errorCount` is the number of visits
     * the output grid refused. When no visit draws, the first pass is the
     * only one and no tile is new. Every colour of every tile is then its
     * start tile's colour or one drawn there, which agrees with the output
     * grid when there is one.
     */
    method RasterizeLayer(layer: nat, fuel: nat) returns (errorCount: nat, newTileCount: nat, ghost known: seq<Tile>, ghost visits: seq<Tile>)
      requires Valid() && layer <= |tiles|
      modifies this
      ensures Valid() && |tiles| == (if layer < old(|tiles|) then old(|tiles|) else layer + 1)
      ensures forall l :: 0 <= l < |tiles| && l != layer ==> tiles[l] == old(tiles[l]) && tileIndex[l] == old(tileIndex[l]) && tileGrid[l] == old(tileGrid[l])
      ensures layer < old(|tiles|) ==> old(tiles[layer]) <= known
      ensures forall i :: (if layer < old(|tiles|) then |old(tiles[layer])| else 0) <= i < |known| ==> StartTile(layer, known[i])
      ensures forall x, y :: 0 <= x < width && 0 <= y < height ==> Start(layer, x, y) in known
      ensures known <= tiles[layer] && newTileCount == |tiles[layer]| - |known|
      ensures output.None? ==> errorCount == 0
      ensures AllShaped(visits) && forall i :: 0 <= i < |visits| ==> Fits(visits[i]) && visits[i] in tiles[layer]
      ensures layer < |functions| ==> errorCount == ErrorsOf(output, functions[layer], visits)
      ensures layer < |functions| && fuel > 0 ==> |visits| >= width * height && forall i :: 0 <= i < width * height ==> Coord(visits[i]) == i
      ensures layer < |functions| ==> forall i :: 0 <= i < |visits| && i < width * height && Quiet(output, functions[layer], visits, 0, i) ==>
        StartTile(layer, visits[i])
      ensures layer < |functions| && Quiet(output, functions[layer], visits, 0, |visits|) ==>
        newTileCount == 0 && (fuel > 0 ==> |visits| == width * height)
      ensures layer >= |functions| ==> errorCount == 0 && newTileCount == 0 && visits == []
      ensures layer >= |functions| ==> forall x, y :: 0 <= x < width && 0 <= y < height ==> TileAt(layer, x, y) == Some(Start(layer, x, y))
      ensures forall x, y :: 0 <= x < width && 0 <= y < height ==> KeptOrDrawn(TileAt(layer, x, y).value, Start(layer, x, y))
    {
      ResetTiles(layer);
      assert LayerOk(layer);
      ghost var below := if layer > 0 then tiles[layer - 1] else [];
      ghost var belowGrid := if layer > 0 then tileGrid[layer - 1] else [];
      if layer > 0 {
        assert LayerOk(layer - 1);
      }
      known := tiles[layer];
      ghost var knownIndex, knownGrid := tileIndex[layer], tileGrid[layer];
      forall x, y | 0 <= x < width && 0 <= y < height
        ensures Start(layer, x, y) in known && TileOf(known, knownGrid, x, y) == Some(StartOf(layer, below, belowGrid, x, y))
      {
        assert TileAt(layer, x, y) == Some(Start(layer, x, y));
      }
      errorCount := 0;
      visits := [];
      var before := |tiles[layer]|;
      if layer < |functions| {
        var f := functions[layer];
        ghost var rounds, coords';
        errorCount, visits, rounds, coords' := Passes(layer, f, fuel, known, knownIndex, knownGrid, below, belowGrid);
        assert |Coords(width * height)| == width * height;
        forall i | 0 <= i < |visits| && i < width * height && Quiet(output, f, visits, 0, i)
          ensures StartTile(layer, visits[i])
        {
          assert IsStartOf(layer, below, belowGrid, visits[i]);
        }
      }
      newTileCount := |tiles[layer]| - before;
    }

    /** `grid_at_layer`: a new grid holding the centre colour of every tile of the layer. */
    method GridAtLayer(layer: nat) returns (g: Grids.Grid)
      requires Ready(layer)
      ensures fresh(g.cells) && g.Valid() && g.width == width && g.height == height
      ensures forall x, y :: 0 <= x < width && 0 <= y < height ==> At(g.Value(), x, y) == Centre(TileAt(layer, x, y).value)
    {
      g := new Grids.Grid(width, height, Black);
      for x := 0 to width
        invariant fresh(g.cells) && g.Valid() && g.width == width && g.height == height
        invariant forall x', y' :: 0 <= x' < x && 0 <= y' < height ==> g.cells[y', x'] == Centre(TileAt(layer, x', y').value)
      {
        for y := 0 to height
          invariant fresh(g.cells) && g.Valid() && g.width == width && g.height == height
          invariant forall x', y' :: 0 <= x' < x && 0 <= y' < height ==> g.cells[y', x'] == Centre(TileAt(layer, x', y').value)
          invariant forall y' :: 0 <= y' < y ==> g.cells[y', x] == Centre(TileAt(layer, x, y').value)
        {
          g.Set(x, y, Centre(TileAt(layer, x, y).value));
        }
      }
    }

    /** `final_grid`: the centres of the last layer, or a grid of `not_written` when there are no tile functions. */
    method FinalGrid() returns (g: Grids.Grid)
      requires Valid() && |functions| <= |tiles|
      ensures fresh(g.cells) && g.Valid() && g.width == width && g.height == height
      ensures |functions| == 0 ==> g.Value() == Filled(width, height, NotWritten)
      ensures |functions| > 0 ==> forall x, y :: 0 <= x < width && 0 <= y < height ==>
        At(g.Value(), x, y) == Centre(TileAt(|functions| - 1, x, y).value)
    {
      if |functions| > 0 {
        assert LayerOk(|functions| - 1);
        g := GridAtLayer(|functions| - 1);
      } else {
        g := new Grids.Grid(width, height, NotWritten);
      }
    }

    /**
     * `rasterize`: rasterize every layer that has a tile function, in
     * order, then take the final grid. Each cell of the result is the
     * input's colour there (`no_color` for a cell the input leaves
     * undefined) or a colour drawn there, which agrees with the output
     * grid when there is one.
     */
    method Rasterize(fuel: nat) returns (g: Grids.Grid)
      requires Valid()
      modifies this
      ensures Valid() && |tiles| >= |functions|
      ensures fresh(g.cells) && g.Valid() && g.width == width && g.height == height
      ensures |functions| == 0 ==> g.Value() == Filled(width, height, NotWritten)
      ensures |functions| > 0 ==> forall x, y :: 0 <= x < width && 0 <= y < height ==>
        At(g.Value(), x, y) == OriginCell(input, x, y) || Drawn(output, x, y, At(g.Value(), x, y))
    {
      for layer := 0 to |functions|
        invariant Valid() && |tiles| >= layer
        invariant layer > 0 ==> forall x, y :: 0 <= x < width && 0 <= y < height ==>
          KeptOrDrawn(TileAt(layer - 1, x, y).value, MakeTile(x, y, radius, input, output))
      {
        label L:
        var errors, created;
        ghost var known, visits;
        errors, created, known, visits := RasterizeLayer(layer, fuel);
        forall x, y | 0 <= x < width && 0 <= y < height
          ensures KeptOrDrawn(TileAt(layer, x, y).value, MakeTile(x, y, radius, input, output))
        {
          if layer > 0 {
            assert TileAt(layer - 1, x, y) == old@L(TileAt(layer - 1, x, y));
            KeptOrDrawnChain(TileAt(layer, x, y).value, Start(layer, x, y), MakeTile(x, y, radius, input, output));
          }
        }
      }
      g := FinalGrid();
      if |functions| > 0 {
        forall x, y | 0 <= x < width && 0 <= y < height
          ensures At(g.Value(), x, y) == OriginCell(input, x, y) || Drawn(output, x, y, At(g.Value(), x, y))
        {
          OriginWindow(x, y, radius, input, output, x, y);
          assert KeptOrDrawn(TileAt(|functions| - 1, x, y).value, MakeTile(x, y, radius, input, output));
        }
      }
    }

    /** `new Rasterizer(tile_radius, image, input_grid, output_grid)` with its tile functions: layer 0 holds a new tile per cell. */
    constructor(radius: nat, input: Raster, output: Option<Raster>, functions: seq<TileFn>)
      ensures Valid() && |tiles| == 1
      ensures this.radius == radius && this.input == input && this.output == output && this.functions == functions
      ensures forall x, y :: 0 <= x < width && 0 <= y < height ==> TileAt(0, x, y) == Some(MakeTile(x, y, radius, input, output))
    {
      this.radius := radius;
      this.input := input;
      this.output := output;
      this.functions := functions;
      width := input.width;
      height := input.height;
      tileIndex := [];
      tiles := [];
      tileGrid := [];
      new;
      ResetTiles(0);
    }
  }
}
