/**
 * Value-level specification of `foreach_object` (lib/Grid.ts): a scan of
 * the grid, column by column, that propagates from every cell the working
 * copy still shows and erases the object found from the working copy.
 */
module GridScan {
  import opened Colors
  import opened GridValues
  import opened GridObjects

  /** p is reached from one of the seeds. */
  ghost predicate Covered(r: Raster, corners: bool, seeds: seq<Point>, p: Point)
  {
    exists i :: 0 <= i < |seeds| && Connected(r, corners, seeds[i], p)
  }

  /** The working copy after the objects grown from `seeds` were erased from it. */
  ghost function Remaining(r: Raster, corners: bool, seeds: seq<Point>): (w: Raster)
    ensures w.width == r.width && w.height == r.height
  {
    FromFunction(r.width, r.height, (a, b) => if Covered(r, corners, seeds, (a, b)) then Black else At(r, a, b))
  }

  /** The working copy still shows (x, y). */
  ghost predicate Shows(r: Raster, corners: bool, seeds: seq<Point>, x: int, y: int)
  {
    At(Remaining(r, corners, seeds), x, y) != Black
  }

  /**
   * The cells the scan propagates from, given the seeds already used,
   * starting at column x, row y: every cell not black in the working copy
   * when the scan reaches it.
   */
  ghost function SeedsFrom(r: Raster, corners: bool, seeds: seq<Point>, x: nat, y: nat): seq<Point>
    requires y <= r.height
    decreases r.width - x, r.height - y
  {
    if x >= r.width then []
    else if y == r.height then SeedsFrom(r, corners, seeds, x + 1, 0)
    else if Shows(r, corners, seeds, x, y) then
      [(x, y)] + SeedsFrom(r, corners, seeds + [(x, y)], x, y + 1)
    else SeedsFrom(r, corners, seeds, x, y + 1)
  }

  lemma SeedsFromWrap(r: Raster, corners: bool, seeds: seq<Point>, x: nat)
    requires x < r.width
    ensures SeedsFrom(r, corners, seeds, x, r.height) == SeedsFrom(r, corners, seeds, x + 1, 0)
  {
  }

  lemma SeedsFromEnd(r: Raster, corners: bool, seeds: seq<Point>, x: nat)
    requires x >= r.width
    ensures seeds + SeedsFrom(r, corners, seeds, x, 0) == seeds
  {
  }

  /** The cells `foreach_object` propagates from, in the order it meets them. */
  ghost function Seeds(r: Raster, corners: bool): seq<Point>
  {
    SeedsFrom(r, corners, [], 0, 0)
  }

  /** The objects `foreach_object(corners)` yields, in order. */
  ghost function Objects(r: Raster, corners: bool): (objs: seq<Raster>)
    ensures |objs| == |Seeds(r, corners)|
  {
    var seeds := Seeds(r, corners);
    seq(|seeds|, i requires 0 <= i < |seeds| => ObjectOf(r, seeds[i], corners))
  }

  /** `objs` holds the objects grown from `seeds`, in order. */
  ghost predicate ObjectsOfSeeds(r: Raster, corners: bool, objs: seq<Raster>, seeds: seq<Point>)
  {
    |objs| == |seeds| && forall i :: 0 <= i < |seeds| ==> objs[i] == ObjectOf(r, seeds[i], corners)
  }

  lemma ObjectsOfSeedsAdd(r: Raster, corners: bool, objs: seq<Raster>, seeds: seq<Point>, s: Point)
    requires ObjectsOfSeeds(r, corners, objs, seeds)
    ensures ObjectsOfSeeds(r, corners, objs + [ObjectOf(r, s, corners)], seeds + [s])
  {
  }

  /** Objects grown from all the seeds of the scan are the objects of the grid. */
  lemma SeedsObjects(r: Raster, corners: bool, objs: seq<Raster>, seeds: seq<Point>)
    requires ObjectsOfSeeds(r, corners, objs, seeds) && seeds == Seeds(r, corners)
    ensures objs == Objects(r, corners)
  {
  }

  // ------------------------------------------------------------ erasing

  /** Inside the grid an object is not black exactly at the cells reached, which keep their colour. */
  lemma ObjectCell(r: Raster, corners: bool, s: Point, p: Point)
    requires Inside(r, p.0, p.1)
    ensures At(ObjectOf(r, s, corners), p.0, p.1) != Black <==> Connected(r, corners, s, p)
    ensures Connected(r, corners, s, p) ==> At(ObjectOf(r, s, corners), p.0, p.1) == At(r, p.0, p.1)
  {
    if Connected(r, corners, s, p) {
      ConnectedEnds(r, corners, s, p);
    }
  }

  lemma CoveredAppend(r: Raster, corners: bool, seeds: seq<Point>, s: Point, p: Point)
    ensures Covered(r, corners, seeds + [s], p) <==> Covered(r, corners, seeds, p) || Connected(r, corners, s, p)
  {
    var all := seeds + [s];
    if Covered(r, corners, seeds, p) {
      var i :| 0 <= i < |seeds| && Connected(r, corners, seeds[i], p);
      assert all[i] == seeds[i];
    }
    if Connected(r, corners, s, p) {
      assert all[|seeds|] == s;
    }
    if Covered(r, corners, all, p) {
      var i :| 0 <= i < |all| && Connected(r, corners, all[i], p);
      if i < |seeds| {
        assert all[i] == seeds[i];
      }
    }
  }

  /** The working copy starts as the grid itself. */
  lemma RemainingNone(r: Raster, corners: bool)
    ensures Remaining(r, corners, []) == r
  {
    Extensionality(Remaining(r, corners, []), r);
  }

  /** Erasing the object of a new seed from the working copy is adding that seed. */
  lemma EraseObject(r: Raster, corners: bool, seeds: seq<Point>, s: Point)
    ensures Erased(Remaining(r, corners, seeds), ObjectOf(r, s, corners)) == Remaining(r, corners, seeds + [s])
  {
    var a := Erased(Remaining(r, corners, seeds), ObjectOf(r, s, corners));
    var b := Remaining(r, corners, seeds + [s]);
    forall x, y | Inside(a, x, y)
      ensures At(a, x, y) == At(b, x, y)
    {
      ObjectCell(r, corners, s, (x, y));
      CoveredAppend(r, corners, seeds, s, (x, y));
    }
    Extensionality(a, b);
  }

  // ------------------------------------------------------------ the scan

  /** p comes strictly before q in the column-major scan. */
  predicate Before(p: Point, q: Point)
  {
    p.0 < q.0 || (p.0 == q.0 && p.1 < q.1)
  }

  /** No seed reaches a later one. */
  ghost predicate SeedsApart(r: Raster, corners: bool, seeds: seq<Point>)
  {
    forall i, j :: 0 <= i < j < |seeds| ==> !Connected(r, corners, seeds[i], seeds[j])
  }

  /** Every seed is the first cell of its object in the scan order. */
  ghost predicate SeedsFirst(r: Raster, corners: bool, seeds: seq<Point>)
  {
    forall i, q :: 0 <= i < |seeds| && Connected(r, corners, seeds[i], q) ==> !Before(q, seeds[i])
  }

  predicate SeedsSorted(seeds: seq<Point>)
  {
    forall i, j :: 0 <= i < j < |seeds| ==> Before(seeds[i], seeds[j])
  }

  ghost predicate ScanInv(r: Raster, corners: bool, seeds: seq<Point>, x: int, y: int)
  {
    ScanState(r, corners, seeds, x, y)
  }

  /** What holds of the seeds when the scan reaches (x, y). */
  ghost predicate ScanState(r: Raster, corners: bool, seeds: seq<Point>, x: int, y: int)
  {
    SeedsApart(r, corners, seeds) && SeedsFirst(r, corners, seeds) && SeedsSorted(seeds)
    && (forall i :: 0 <= i < |seeds| ==> Before(seeds[i], (x, y)))
    && (forall q :: Solid(r, q) && Before(q, (x, y)) ==> Covered(r, corners, seeds, q))
  }

  /** What holds of the seeds when the scan is over. */
  ghost predicate ScanDone(r: Raster, corners: bool, seeds: seq<Point>)
  {
    SeedsApart(r, corners, seeds) && SeedsFirst(r, corners, seeds) && SeedsSorted(seeds)
    && (forall q :: Solid(r, q) ==> Covered(r, corners, seeds, q))
  }

  /** A cell reached from (x, y) that the scan has passed is covered, and then so is (x, y). */
  lemma ReachedEarlier(r: Raster, corners: bool, seeds: seq<Point>, x: int, y: int, q: Point)
    requires ScanInv(r, corners, seeds, x, y)
    requires Connected(r, corners, (x, y), q)
    ensures Before(q, (x, y)) ==> Covered(r, corners, seeds, (x, y))
  {
    if Before(q, (x, y)) {
      ConnectedEnds(r, corners, (x, y), q);
      var k :| 0 <= k < |seeds| && Connected(r, corners, seeds[k], q);
      ConnectedSymmetric(r, corners, (x, y), q);
      ConnectedTransitive(r, corners, seeds[k], q, (x, y));
    }
  }

  lemma AddApart(r: Raster, corners: bool, seeds: seq<Point>, s: Point)
    requires SeedsApart(r, corners, seeds) && !Covered(r, corners, seeds, s)
    ensures SeedsApart(r, corners, seeds + [s])
  {
    var all := seeds + [s];
    forall i, j | 0 <= i < j < |all|
      ensures !Connected(r, corners, all[i], all[j])
    {
      assert all[i] == seeds[i];
    }
  }

  lemma AddFirst(r: Raster, corners: bool, seeds: seq<Point>, x: int, y: int)
    requires ScanInv(r, corners, seeds, x, y) && !Covered(r, corners, seeds, (x, y))
    ensures SeedsFirst(r, corners, seeds + [(x, y)])
  {
    var all := seeds + [(x, y)];
    forall i, q | 0 <= i < |all| && Connected(r, corners, all[i], q)
      ensures !Before(q, all[i])
    {
      if i == |seeds| {
        ReachedEarlier(r, corners, seeds, x, y, q);
      } else {
        assert all[i] == seeds[i];
      }
    }
  }

  lemma AddSorted(seeds: seq<Point>, s: Point)
    requires SeedsSorted(seeds) && forall i :: 0 <= i < |seeds| ==> Before(seeds[i], s)
    ensures SeedsSorted(seeds + [s])
    ensures forall i :: 0 <= i < |seeds| + 1 ==> Before((seeds + [s])[i], (s.0, s.1 + 1))
  {
  }

  lemma AddCovers(r: Raster, corners: bool, seeds: seq<Point>, x: int, y: int)
    requires forall q :: Solid(r, q) && Before(q, (x, y)) ==> Covered(r, corners, seeds, q)
    ensures forall q :: Solid(r, q) && Before(q, (x, y + 1)) ==> Covered(r, corners, seeds + [(x, y)], q)
  {
    forall q | Solid(r, q) && Before(q, (x, y + 1))
      ensures Covered(r, corners, seeds + [(x, y)], q)
    {
      CoveredAppend(r, corners, seeds, (x, y), q);
      if q == (x, y) {
        ConnectedRefl(r, corners, q);
      }
    }
  }

  /** A cell the working copy still shows becomes a seed. */
  lemma ScanAdd(r: Raster, corners: bool, seeds: seq<Point>, x: int, y: int)
    requires ScanInv(r, corners, seeds, x, y) && Inside(r, x, y)
    requires Shows(r, corners, seeds, x, y)
    ensures ScanInv(r, corners, seeds + [(x, y)], x, y + 1)
  {
    assert !Covered(r, corners, seeds, (x, y));
    AddApart(r, corners, seeds, (x, y));
    AddFirst(r, corners, seeds, x, y);
    AddSorted(seeds, (x, y));
    AddCovers(r, corners, seeds, x, y);
  }

  /** A cell the working copy shows black is passed over. */
  lemma ScanSkip(r: Raster, corners: bool, seeds: seq<Point>, x: int, y: int)
    requires ScanInv(r, corners, seeds, x, y) && Inside(r, x, y)
    requires !Shows(r, corners, seeds, x, y)
    ensures ScanInv(r, corners, seeds, x, y + 1)
  {
  }

  /** The end of a column is the start of the next. */
  lemma ScanWrap(r: Raster, corners: bool, seeds: seq<Point>, x: int)
    requires ScanInv(r, corners, seeds, x, r.height)
    ensures ScanInv(r, corners, seeds, x + 1, 0)
  {
  }

  /** The scan from (x, y) finishes what it began. */
  /** Past the last column every solid cell is covered. */
  lemma ScanEnd(r: Raster, corners: bool, seeds: seq<Point>, x: int, y: int)
    requires x >= r.width && ScanInv(r, corners, seeds, x, y)
    ensures ScanDone(r, corners, seeds)
  {
    forall q | Solid(r, q)
      ensures Covered(r, corners, seeds, q)
    {
      assert Before(q, (x, y));
    }
  }

  /** How the scan continues from a cell of the grid. */
  lemma SeedsFromStep(r: Raster, corners: bool, seeds: seq<Point>, x: nat, y: nat)
    requires x < r.width && y < r.height
    ensures Shows(r, corners, seeds, x, y) ==>
      seeds + SeedsFrom(r, corners, seeds, x, y) == (seeds + [(x, y)]) + SeedsFrom(r, corners, seeds + [(x, y)], x, y + 1)
    ensures !Shows(r, corners, seeds, x, y) ==>
      SeedsFrom(r, corners, seeds, x, y) == SeedsFrom(r, corners, seeds, x, y + 1)
  {
  }

  lemma {:induction false} ScanComplete(r: Raster, corners: bool, seeds: seq<Point>, x: nat, y: nat, all: seq<Point>)
    requires y <= r.height && ScanInv(r, corners, seeds, x, y)
    requires all == seeds + SeedsFrom(r, corners, seeds, x, y)
    ensures ScanDone(r, corners, all)
    decreases r.width - x, r.height - y, 1
  {
    if x >= r.width {
      assert all == seeds;
      ScanEnd(r, corners, seeds, x, y);
    } else if y == r.height {
      ScanWrap(r, corners, seeds, x);
      ScanComplete(r, corners, seeds, x + 1, 0, all);
    } else {
      ScanCell(r, corners, seeds, x, y, all);
    }
  }

  /** The scan from a cell of the grid finishes what it began. */
  lemma {:induction false} ScanCell(r: Raster, corners: bool, seeds: seq<Point>, x: nat, y: nat, all: seq<Point>)
    requires x < r.width && y < r.height && ScanInv(r, corners, seeds, x, y)
    requires all == seeds + SeedsFrom(r, corners, seeds, x, y)
    ensures ScanDone(r, corners, all)
    decreases r.width - x, r.height - y, 0
  {
    SeedsFromStep(r, corners, seeds, x, y);
    if Shows(r, corners, seeds, x, y) {
      ScanAdd(r, corners, seeds, x, y);
      ScanComplete(r, corners, seeds + [(x, y)], x, y + 1, all);
    } else {
      ScanSkip(r, corners, seeds, x, y);
      ScanComplete(r, corners, seeds, x, y + 1, all);
    }
  }

  lemma SeedsDone(r: Raster, corners: bool)
    ensures ScanDone(r, corners, Seeds(r, corners))
  {
    assert [] + Seeds(r, corners) == Seeds(r, corners);
    ScanComplete(r, corners, [], 0, 0, Seeds(r, corners));
  }

  /** Two cells reached from one point reach each other. */
  lemma ConnectedVia(r: Raster, corners: bool, a: Point, b: Point, p: Point)
    ensures Connected(r, corners, a, p) && Connected(r, corners, b, p) ==> Connected(r, corners, a, b)
  {
    if Connected(r, corners, a, p) && Connected(r, corners, b, p) {
      ConnectedSymmetric(r, corners, b, p);
      ConnectedTransitive(r, corners, a, p, b);
    }
  }

  // --------------------------------------------------------- the objects

  /** Each object is `propagate` from its seed. */
  lemma ObjectsArePropagated(r: Raster, corners: bool, i: int)
    requires 0 <= i < |Objects(r, corners)|
    ensures Objects(r, corners)[i] == ObjectOf(r, Seeds(r, corners)[i], corners)
  {
  }

  /** No cell belongs to two objects. */
  lemma ObjectsDisjoint(r: Raster, corners: bool, i: int, j: int, p: Point)
    requires 0 <= i < |Objects(r, corners)| && 0 <= j < |Objects(r, corners)| && i != j
    requires Inside(r, p.0, p.1)
    ensures At(Objects(r, corners)[i], p.0, p.1) == Black || At(Objects(r, corners)[j], p.0, p.1) == Black
  {
    var seeds := Seeds(r, corners);
    SeedsDone(r, corners);
    ObjectCell(r, corners, seeds[i], p);
    ObjectCell(r, corners, seeds[j], p);
    if i < j {
      ConnectedVia(r, corners, seeds[i], seeds[j], p);
    } else {
      ConnectedVia(r, corners, seeds[j], seeds[i], p);
    }
  }

  /** The objects together hold exactly the solid cells. */
  lemma ObjectsCover(r: Raster, corners: bool, p: Point)
    ensures Solid(r, p) <==>
      exists i :: 0 <= i < |Objects(r, corners)| && Inside(r, p.0, p.1) && At(Objects(r, corners)[i], p.0, p.1) != Black
  {
    var seeds := Seeds(r, corners);
    var objs := Objects(r, corners);
    SeedsDone(r, corners);
    if Solid(r, p) {
      var i :| 0 <= i < |seeds| && Connected(r, corners, seeds[i], p);
      ObjectCell(r, corners, seeds[i], p);
      assert At(objs[i], p.0, p.1) != Black;
    }
    forall i | 0 <= i < |objs| && Inside(r, p.0, p.1) && At(objs[i], p.0, p.1) != Black
      ensures Solid(r, p)
    {
      assert objs[i] == ObjectOf(r, seeds[i], corners);
      ObjectCell(r, corners, seeds[i], p);
      ConnectedEnds(r, corners, seeds[i], p);
    }
  }

  /**
   * The objects come in the scan order of their seeds, and each seed is
   * the first cell of its object in that order.
   */
  lemma ObjectsOrdered(r: Raster, corners: bool, i: int, j: int, p: Point)
    requires 0 <= i < |Objects(r, corners)| && 0 <= j < |Objects(r, corners)|
    ensures i < j ==> Before(Seeds(r, corners)[i], Seeds(r, corners)[j])
    ensures Inside(r, p.0, p.1) && At(Objects(r, corners)[i], p.0, p.1) != Black ==> !Before(p, Seeds(r, corners)[i])
  {
    var seeds := Seeds(r, corners);
    SeedsDone(r, corners);
    if Inside(r, p.0, p.1) {
      ObjectCell(r, corners, seeds[i], p);
    }
  }
}
