/**
 * What each combinator of `build_decomposer` (lib/Decomposers.ts) builds
 * from what its child builds, and how it fails when its child fails.
 * Where a combinator hands its child a transformed grid, the lemmas also
 * say what that grid keeps of the original one.
 */
module DecomposerRuns {
  import opened Wrappers
  import opened Colors
  import opened Transforms
  import opened GridValues
  import opened GridShape
  import opened GridMaster
  import opened GridObjects
  import opened GridScan
  import opened GridDrawing
  import opened ConcreteImages
  import opened ImageRasters
  import opened Decomposers

  /**
   * r is the child's run c with what c builds wrapped by k: the same
   * marks, the same error when c throws, and nothing followed when c is
   * not followed.
   */
  ghost predicate Wraps(r: Run<Image>, c: Run<Image>, k: Image -> Image)
  {
    && r.marks == c.marks
    && (c.outcome.Built? ==> r.outcome == Built(k(c.outcome.value)))
    && (!c.outcome.Built? ==> r.outcome == Fail(c.outcome))
  }

  // ------------------------------------------------------------ one child, one grid

  /**
   * `image_window` wraps the child's image in a window the size of the
   * grid; a child drawn from the origin at the grid's size is drawn again
   * unchanged.
   */
  lemma ImageWindowBuilds(f: Worker, g: Raster)
    ensures Wraps(ImageWindowRun(f, g), f(g), (c: Image) => ImageWindow(0, 0, g.width, g.height, c))
    ensures var o := f(g).outcome;
      o.Built? && Compiles(o.value) && Bounds(o.value) == Box(0, 0, g.width, g.height) ==>
        Compiles(ImageWindowRun(f, g).outcome.value) && Rasterize(ImageWindowRun(f, g).outcome.value) == Rasterize(o.value)
  {
    var o := f(g).outcome;
    if o.Built? && Compiles(o.value) && Bounds(o.value) == Box(0, 0, g.width, g.height) {
      assert ImageWindowRun(f, g).outcome.value == MakeImageWindow(o.value);
      ImageWindowRaster(o.value);
    }
  }

  /** Every grid is scaled by 1. */
  lemma ScaledByOne(r: Raster)
    ensures IsScaledBy(r, 1)
  {
    forall x, y | Inside(r, x, y)
      ensures At(r, x, y) == At(r, BlockStart(x, 1), BlockStart(y, 1))
    {
      assert BlockStart(x, 1) == x && BlockStart(y, 1) == y;
    }
  }

  /**
   * `scaled` without separator lines: the child sees the grid shrunk by
   * its scaling factor, which loses nothing, and a child that draws its
   * grid again makes `scaled` draw the whole grid again.
   */
  lemma ScaledBuilds(f: Worker, g: Raster)
    requires GridScalingFrom(g, 1).None?
    ensures var s := ScalingFactor(g);
      s > 0 && Upscale(InvScale(g, s), s) == g
      && Wraps(ScaledRun(f, g), f(InvScale(g, s)), (c: Image) => Scale(s, c, NoColor))
    ensures var s := ScalingFactor(g); var o := f(InvScale(g, s)).outcome;
      o.Built? && Compiles(o.value) && Rasterize(o.value) == InvScale(g, s) ==>
        Compiles(ScaledRun(f, g).outcome.value) && Rasterize(ScaledRun(f, g).outcome.value) == g
  {
    var s := ScalingFactor(g);
    if s == 1 {
      ScaledByOne(g);
    }
    UpscaleOfInvScale(g, s);
    var o := f(InvScale(g, s)).outcome;
    if o.Built? && Compiles(o.value) && Rasterize(o.value) == InvScale(g, s) {
      ScaleRaster(s, o.value);
    }
  }

  /**
   * `scaled` with separator lines: the child sees one cell per block, and
   * the image scales it back with the separators' colour.
   */
  lemma ScaledWithGridBuilds(f: Worker, g: Raster)
    requires GridScalingFrom(g, 1).Some?
    ensures var sg := GridScalingFrom(g, 1).value;
      sg.1 != NoColor && ScaledWithGrid(g, sg.0)
      && Wraps(ScaledRun(f, g), f(InvScaleWithGrid(g, sg.0)), (c: Image) => Scale(sg.0, c, sg.1))
  {
  }

  /**
   * `tile`, `tile_x`, `tile_y`: the child sees one tile, and every cell of
   * the grid repeats the tile's cell at its position modulo the tile's size.
   */
  lemma TileBuilds(t: Transform, f: Worker, g: Raster)
    ensures Wraps(TileRun(t, f, g), f(TileOf(g)), (c: Image) => ImageTransformation(t, c))
    ensures forall x, y :: Inside(g, x, y) ==>
      TileOf(g).width > 0 && TileOf(g).height > 0 && At(g, x, y) == At(TileOf(g), x % TileOf(g).width, y % TileOf(g).height)
  {
    forall x, y | Inside(g, x, y)
      ensures TileOf(g).width > 0 && TileOf(g).height > 0 && At(g, x, y) == At(TileOf(g), x % TileOf(g).width, y % TileOf(g).height)
    {
      TileRepeats(g, x, y);
    }
  }

  /**
   * `transform` under a symmetry t: the child sees the grid pasted under t
   * into an empty grid of the turned size, and its image is turned by t.
   */
  lemma TransformBuilds(t: Transform, f: Worker, g: Raster)
    requires IsSymmetry(t) && g.width > 0
    ensures var seen := Paste(Filled(TransformedWidth(t, g), TransformedHeight(t, g), Black), g, Plain(0, 0, t));
      Wraps(TransformRun(t, f, g), f(seen), (c: Image) => ImageTransformation(t, c))
  {
    var basic := BasicImage(Flatten(g), g.width);
    BasicGridRoundTrip(g);
    TransformRaster(t, basic);
  }

  /**
   * `trim_object`: the child sees the grid trimmed of black, everything
   * outside that window is black, and the child's image is put back where
   * the window was.
   */
  lemma TrimObjectBuilds(f: Worker, g: Raster)
    ensures var t := TrimOf(g, Black); var o := f(t.grid).outcome;
      && TrimObjectRun(f, g).marks == f(t.grid).marks
      && (o.Thrown? ==> TrimObjectRun(f, g).outcome == Thrown(o.error))
      && (o.Built? && Compiles(o.value) && Bounds(o.value).Box? ==>
            TrimObjectRun(f, g).outcome == Built(MakeTranslation(t.x, t.y, o.value, Zero, Zero)))
    ensures var w := TrimWindow(g, Black);
      forall x, y :: Inside(g, x, y) && !(w.0 <= x < w.2 && w.1 <= y < w.3) ==> At(g, x, y) == Black
  {
    var w := TrimWindow(g, Black);
    forall x, y | Inside(g, x, y) && !(w.0 <= x < w.2 && w.1 <= y < w.3)
      ensures At(g, x, y) == Black
    {
      TrimStripsBackground(g, Black, x, y);
    }
  }

  /** The 3 x 3 grid of nine colours listed row by row, as `SemanticBox` keeps them. */
  function Nine(colors: seq<Color>): (r: Raster)
    requires |colors| == 9
    ensures r.width == 3 && r.height == 3
  {
    FromFunction(3, 3, (i, j) => if 0 <= i < 3 && 0 <= j < 3 then colors[3 * j + i] else Black)
  }

  /** Listing a 3 x 3 grid's cells row by row and laying them out again gives the grid back. */
  lemma NineOfBox(b: Raster)
    requires b.width == 3 && b.height == 3
    ensures Nine([At(b, 0, 0), At(b, 1, 0), At(b, 2, 0), At(b, 0, 1), At(b, 1, 1), At(b, 2, 1), At(b, 0, 2), At(b, 1, 2), At(b, 2, 2)]) == b
  {
    var colors := [At(b, 0, 0), At(b, 1, 0), At(b, 2, 0), At(b, 0, 1), At(b, 1, 1), At(b, 2, 1), At(b, 0, 2), At(b, 1, 2), At(b, 2, 2)];
    var nine := Nine(colors);
    forall x, y | Inside(nine, x, y)
      ensures At(nine, x, y) == At(b, x, y)
    {
      assert colors[3 * y + x] == At(b, x, y);
    }
    Extensionality(nine, b);
  }

  /**
   * `semantic_box` builds exactly on a semantic box, else throws "Not a
   * semantic box"; the nine colours it keeps, stretched to the grid's
   * size, give the grid back.
   */
  lemma SemanticBoxBuilds(g: Raster)
    ensures SemanticBoxRun(g).marks == {}
    ensures SemanticBoxRun(g).outcome.Built? <==> IsSemanticBox(g)
    ensures !IsSemanticBox(g) ==> SemanticBoxRun(g).outcome == Thrown("Not a semantic box")
    ensures IsSemanticBox(g) ==> var img := SemanticBoxRun(g).outcome.value;
      img.SemanticBox? && img.width == g.width && img.height == g.height && |img.colors| == 9
      && Stretch(Nine(img.colors), g.width, g.height) == g
  {
    if IsSemanticBox(g) {
      NineOfBox(SemanticBoxOf(g));
      SemanticBoxStretches(g);
    }
  }

  /**
   * `simple_abstraction`: the child's image as the single part of the
   * abstraction. The child's marks pass through, and the abstraction
   * spans the child's bounds and draws the child's grid.
   */
  lemma SimpleAbstractionBuilds(name: string, f: Worker, g: Raster)
    ensures Wraps(SimpleAbstractionRun(name, f, g), f(g), (c: Image) => Abstraction(name, [c]))
    ensures var o := f(g).outcome;
      o.Built? && Compiles(o.value) ==>
        var img := SimpleAbstractionRun(name, f, g).outcome.value;
        Compiles(img) && Bounds(img) == Bounds(o.value) && Rasterize(img) == Rasterize(o.value)
  {
    var o := f(g).outcome;
    if o.Built? && Compiles(o.value) {
      assert SimpleAbstractionRun(name, f, g).outcome.value == Abstraction(name, [o.value]);
      SinglePartRaster(name, o.value);
    }
  }

  /**
   * `add_info`: the first child runs first; when it throws, its error
   * escapes and the second child is not asked; otherwise the second
   * child's failure escapes, or both images are kept.
   */
  lemma AddInfoBuilds(f: Worker, f2: Worker, g: Raster)
    ensures !f(g).outcome.Built? ==> AddInfoRun(f, f2, g) == Run(Fail(f(g).outcome), f(g).marks)
    ensures f(g).outcome.Built? ==> AddInfoRun(f, f2, g).marks == f(g).marks + f2(g).marks
    ensures f(g).outcome.Built? && !f2(g).outcome.Built? ==> AddInfoRun(f, f2, g).outcome == Fail(f2(g).outcome)
    ensures f(g).outcome.Built? && f2(g).outcome.Built? ==>
      AddInfoRun(f, f2, g).outcome == Built(Info(f(g).outcome.value, f2(g).outcome.value))
  {
  }

  // ------------------------------------------------------------ lists of children

  /**
   * A 'free' list over items xs: when it builds, part i is the child's
   * image of item i; when every child builds but there are more than 30,
   * the `SubImages` constructor throws.
   */
  lemma FreeListBuilds<X>(f: X -> Run<Image>, xs: seq<X>)
    ensures var r := Bind(Each(f, xs), (list: seq<Image>) => MakeSubImages(list, Free, Black, false));
      r.outcome.Built? ==> var img := r.outcome.value;
        img == SubImages(img.parts, Free, Black, false) && |img.parts| == |xs| <= 30
        && forall i :: 0 <= i < |xs| ==> f(xs[i]).outcome == Built(img.parts[i])
    ensures Each(f, xs).outcome.Built? && |xs| > 30 ==>
      Bind(Each(f, xs), (list: seq<Image>) => MakeSubImages(list, Free, Black, false)).outcome == Thrown("Too many sub objects")
    ensures !Each(f, xs).outcome.Built? ==>
      Bind(Each(f, xs), (list: seq<Image>) => MakeSubImages(list, Free, Black, false)).outcome == Fail(Each(f, xs).outcome)
  {
    if Each(f, xs).outcome.Built? {
      forall i | 0 <= i < |xs|
        ensures f(xs[i]).outcome == Built(Each(f, xs).outcome.value[i])
      {
        EachBuilt(f, xs, i);
      }
    }
  }

  /**
   * `object_list`, `object_list2`: part i is the child's image of the i-th
   * object `foreach_object` yields; those objects are disjoint and cover
   * exactly the grid's solid cells.
   */
  lemma ObjectListBuilds(f: Worker, corners: bool, g: Raster)
    requires ObjectListRun(f, corners, g).outcome.Built?
    ensures var img := ObjectListRun(f, corners, g).outcome.value; var objs := Objects(g, corners);
      img == SubImages(img.parts, Free, Black, false) && |img.parts| == |objs| <= 30
      && forall i :: 0 <= i < |objs| ==> f(objs[i]).outcome == Built(img.parts[i])
    ensures forall p: Point :: Solid(g, p) <==>
      exists i :: 0 <= i < |Objects(g, corners)| && Inside(g, p.0, p.1) && At(Objects(g, corners)[i], p.0, p.1) != Black
  {
    FreeListBuilds(f, Objects(g, corners));
    forall p: Point
      ensures Solid(g, p) <==>
        exists i :: 0 <= i < |Objects(g, corners)| && Inside(g, p.0, p.1) && At(Objects(g, corners)[i], p.0, p.1) != Black
    {
      ObjectsCover(g, corners, p);
    }
  }

  /** `block_list`: part i is the child's image of the i-th block. */
  lemma BlockListBuilds(f: Worker, blocks: Raster -> seq<Raster>, g: Raster)
    ensures BlockListRun(f, blocks, g).outcome.Built? ==> var img := BlockListRun(f, blocks, g).outcome.value;
      img == SubImages(img.parts, Free, Black, false) && |img.parts| == |blocks(g)| <= 30
      && forall i :: 0 <= i < |blocks(g)| ==> f(blocks(g)[i]).outcome == Built(img.parts[i])
    ensures !Each(f, blocks(g)).outcome.Built? ==> BlockListRun(f, blocks, g).outcome == Fail(Each(f, blocks(g)).outcome)
  {
    FreeListBuilds(f, blocks(g));
  }

  /** Every part of the regrouped layers is painted the colour of a layer it came from. */
  lemma {:induction false} RegroupColors(layers: seq<Image>, i: int)
    requires 0 <= i < |Regroup(layers)|
    ensures Regroup(layers)[i].MonochromeColor?
    ensures exists j :: 0 <= j < |layers| && layers[j].MonochromeColor? && layers[j].color == Regroup(layers)[i].color
    decreases |layers|
  {
    var l := layers[0];
    var objects := if l.MonochromeColor? then PartsOf(l.image) else [];
    var head := seq(|objects|, j requires 0 <= j < |objects| => MonochromeColor(l.color, objects[j]));
    assert Regroup(layers) == head + Regroup(layers[1..]);
    if i >= |head| {
      RegroupColors(layers[1..], i - |head|);
      var j :| 0 <= j < |layers[1..]| && layers[1..][j].MonochromeColor? && layers[1..][j].color == Regroup(layers)[i].color;
      assert layers[j + 1] == layers[1..][j];
    } else {
      assert l.MonochromeColor?;
    }
  }

  /** The parts of a built colour decomposition's regrouping are painted colours of the grid, none black. */
  lemma RegroupedColorsOfGrid(w: Worker, g: Raster, i: int)
    requires ColorDecompositionRun(w, g).outcome.Built?
    requires 0 <= i < |Regroup(PartsOf(ColorDecompositionRun(w, g).outcome.value))|
    ensures var p := Regroup(PartsOf(ColorDecompositionRun(w, g).outcome.value))[i];
      p.MonochromeColor? && p.color in LayerColors(g) && p.color in ColorsOf(g, Black)
  {
    var layers := PartsOf(ColorDecompositionRun(w, g).outcome.value);
    ColorDecompositionLayers(w, g);
    RegroupColors(layers, i);
    LayerColorsAreTheColors(g);
  }

  /**
   * `monochrome_object_list`, `monochrome_object_list2`: a 'free' list
   * whose every part is an object painted one of the grid's colours other
   * than black.
   */
  lemma MonochromeObjectListBuilds(f: Worker, corners: bool, g: Raster)
    requires MonochromeObjectListRun(f, corners, g).outcome.Built?
    ensures var img := MonochromeObjectListRun(f, corners, g).outcome.value;
      img == SubImages(img.parts, Free, Black, false) && |img.parts| <= 30
      && forall i :: 0 <= i < |img.parts| ==>
        img.parts[i].MonochromeColor? && img.parts[i].color in ColorsOf(g, Black)
  {
    var w := (x: Raster) => ObjectListRun(f, corners, x);
    var img := MonochromeObjectListRun(f, corners, g).outcome.value;
    forall i | 0 <= i < |img.parts|
      ensures img.parts[i].MonochromeColor? && img.parts[i].color in ColorsOf(g, Black)
    {
      RegroupedColorsOfGrid(w, g, i);
    }
  }

  /**
   * `monochrome_object_list_abstraction`: the abstraction's parts are
   * objects painted one of the grid's colours other than black, each
   * decomposed by the first branch that does not throw.
   */
  lemma ObjectsAbstractionBuilds(name: string, fs: seq<Worker>, g: Raster)
    requires AbstractionObjectsRun(name, fs, g).outcome.Built?
    ensures var img := AbstractionObjectsRun(name, fs, g).outcome.value;
      img.Abstraction? && img.name == name
      && forall i :: 0 <= i < |img.subImages| ==>
        img.subImages[i].MonochromeColor? && img.subImages[i].color in ColorsOf(g, Black)
  {
    var tried: Worker := (x: Raster) => FirstSuccess(fs, x, 0);
    var w := (x: Raster) => ObjectListRun(tried, false, x);
    var img := AbstractionObjectsRun(name, fs, g).outcome.value;
    forall i | 0 <= i < |img.subImages|
      ensures img.subImages[i].MonochromeColor? && img.subImages[i].color in ColorsOf(g, Black)
    {
      RegroupedColorsOfGrid(w, g, i);
    }
  }

  /**
   * `monochrome_decomposition_abstraction`: one part per colour other than
   * black, in increasing order, each the mask of that colour decomposed by
   * the first branch that does not throw.
   */
  lemma LayersAbstractionBuilds(name: string, fs: seq<Worker>, g: Raster)
    requires AbstractionLayersRun(name, fs, g).outcome.Built?
    ensures var img := AbstractionLayersRun(name, fs, g).outcome.value; var colors := LayerColors(g);
      img.Abstraction? && img.name == name && |img.subImages| == |colors|
      && forall i :: 0 <= i < |colors| ==>
        img.subImages[i].MonochromeColor? && img.subImages[i].color == colors[i]
        && FirstSuccess(fs, LayerMask(g, colors[i]), 0).outcome == Built(img.subImages[i].image)
  {
    ColorDecompositionLayers((x: Raster) => FirstSuccess(fs, x, 0), g);
  }

  // ------------------------------------------------------------ find_master_grid

  /** Without an accepted candidate from k on, the master grid is the whole grid as one cell, without a grid colour. */
  lemma {:induction false} FirstAcceptedFallback(r: Raster, default: Color, candidates: seq<Color>, k: nat)
    requires forall j :: k <= j < |candidates| ==> !Accepted(r, candidates[j], default)
    ensures FirstAccepted(r, default, candidates, k) == MasterGrid([MasterCell(0, 0, r)], Undefined, 1)
    decreases |candidates| - k
  {
    if k < |candidates| {
      FirstAcceptedFallback(r, default, candidates, k + 1);
    }
  }

  /**
   * The cells of a master grid: part k is the child's image of cell k,
   * placed at the cell and tagged; the parts come in rows of the master
   * grid's stride, and the grid colour is the master grid's, black when it
   * has none.
   */
  lemma MasterCellsBuilds(f: Worker, mg: MasterGrid, fixedSize: bool)
    requires MasterCellsRun(f, mg, fixedSize).outcome.Built?
    ensures var img := MasterCellsRun(f, mg, fixedSize).outcome.value;
      img == SubImages(img.parts, Stride(mg.stride), SubImagesColor(mg.gridColor), fixedSize)
      && img.gridColor != Undefined && (mg.gridColor == Undefined ==> img.gridColor == Black)
      && |img.parts| == |mg.cells| <= 30 && (|mg.cells| > 0 ==> mg.stride > 0)
      && forall k :: 0 <= k < |mg.cells| ==> MasterPart(f, mg, k, img.parts[k])
  {
    var each := Each(MasterWorker(f, mg), Numbered(mg.cells));
    assert each.outcome.Built?;
    forall k | 0 <= k < |mg.cells|
      ensures MasterPart(f, mg, k, each.outcome.value[k])
    {
      MasterPartAt(f, mg, k);
    }
    if |mg.cells| > 0 {
      MasterPartAt(f, mg, 0);
    }
  }

  lemma MasterPartAt(f: Worker, mg: MasterGrid, k: int)
    requires Each(MasterWorker(f, mg), Numbered(mg.cells)).outcome.Built? && 0 <= k < |mg.cells|
    ensures MasterPart(f, mg, k, Each(MasterWorker(f, mg), Numbered(mg.cells)).outcome.value[k])
  {
    EachBuilt(MasterWorker(f, mg), Numbered(mg.cells), k);
    assert Numbered(mg.cells)[k] == (k, mg.cells[k]);
    MasterWorkerAt(f, mg, (k, mg.cells[k]));
  }

  lemma MasterWorkerAt(f: Worker, mg: MasterGrid, p: (int, MasterCell))
    ensures MasterWorker(f, mg)(p).outcome.Built? ==>
      (mg.stride > 0 && f(p.1.grid).outcome.Built?
       && Tagged(MasterTags(p.0, mg.stride, |mg.cells|), p.1.x, p.1.y, f(p.1.grid).outcome.value) == MasterWorker(f, mg)(p).outcome)
  {
    if mg.stride <= 0 {
      assert MasterWorker(f, mg)(p) == Skip();
    }
  }

  /** Part k of a master grid's image: the child built an image of cell k, placed there and tagged. */
  ghost predicate MasterPart(f: Worker, mg: MasterGrid, k: int, part: Image)
    requires 0 <= k < |mg.cells|
  {
    mg.stride > 0 && f(mg.cells[k].grid).outcome.Built?
    && Tagged(MasterTags(k, mg.stride, |mg.cells|), mg.cells[k].x, mg.cells[k].y, f(mg.cells[k].grid).outcome.value) == Built(part)
  }

  /** `find_master_grid` lays out the cells of the master grid `find_master_grid(default)` returns. */
  lemma FindMasterGridBuilds(f: Worker, default: Option<Color>, fixedSize: bool, g: Raster)
    requires FindMasterGridRun(f, default, fixedSize, g).outcome.Built?
    ensures var mg := MasterGridOf(g, if default.Some? then default.value else Undefined);
      var img := FindMasterGridRun(f, default, fixedSize, g).outcome.value;
      img == SubImages(img.parts, Stride(mg.stride), SubImagesColor(mg.gridColor), fixedSize)
      && img.gridColor != Undefined && |img.parts| == |mg.cells|
      && forall k :: 0 <= k < |mg.cells| ==> MasterPart(f, mg, k, img.parts[k])
  {
    MasterCellsBuilds(f, MasterGridOf(g, if default.Some? then default.value else Undefined), fixedSize);
  }

  /**
   * When no candidate colour is accepted and no default is given,
   * `find_master_grid` places the child's image of the whole grid as its
   * one part, with the `SubImages` default grid colour, black.
   */
  lemma FindMasterGridWhole(f: Worker, fixedSize: bool, g: Raster)
    requires forall j :: 0 <= j < |Candidates(g, Undefined)| ==> !Accepted(g, Candidates(g, Undefined)[j], Undefined)
    requires f(g).outcome.Built? && Compiles(f(g).outcome.value) && Bounds(f(g).outcome.value).Box?
    ensures FindMasterGridRun(f, None, fixedSize, g).outcome ==
      Built(SubImages([ImageData(MasterTags(0, 1, 1), MakeTranslation(0, 0, f(g).outcome.value, Zero, Zero))], Stride(1), Black, fixedSize))
  {
    FirstAcceptedFallback(g, Undefined, Candidates(g, Undefined), 0);
    WholeCellRun(f, fixedSize, g);
  }

  /** The master grid of the whole grid as one cell, laid out. */
  lemma WholeCellRun(f: Worker, fixedSize: bool, g: Raster)
    requires f(g).outcome.Built? && Compiles(f(g).outcome.value) && Bounds(f(g).outcome.value).Box?
    ensures MasterCellsRun(f, MasterGrid([MasterCell(0, 0, g)], Undefined, 1), fixedSize).outcome ==
      Built(SubImages([ImageData(MasterTags(0, 1, 1), MakeTranslation(0, 0, f(g).outcome.value, Zero, Zero))], Stride(1), Black, fixedSize))
  {
    WholeCellEach(f, g);
  }

  lemma WholeCellEach(f: Worker, g: Raster)
    requires f(g).outcome.Built? && Compiles(f(g).outcome.value) && Bounds(f(g).outcome.value).Box?
    ensures Each(MasterWorker(f, MasterGrid([MasterCell(0, 0, g)], Undefined, 1)), Numbered([MasterCell(0, 0, g)])).outcome ==
      Built([ImageData(MasterTags(0, 1, 1), MakeTranslation(0, 0, f(g).outcome.value, Zero, Zero))])
  {
    var w := MasterWorker(f, MasterGrid([MasterCell(0, 0, g)], Undefined, 1));
    var numbered := Numbered([MasterCell(0, 0, g)]);
    var part := ImageData(MasterTags(0, 1, 1), MakeTranslation(0, 0, f(g).outcome.value, Zero, Zero));
    assert numbered[0] == (0, MasterCell(0, 0, g));
    assert w(numbered[0]).outcome == Built(part);
    assert numbered[1..] == [];
    assert Each(w, numbered[1..]).outcome == Built([]);
    assert [part] + [] == [part];
    assert Each(w, numbered).outcome == Built([part] + []);
  }
}
