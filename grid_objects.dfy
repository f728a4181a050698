/**
 * Value-level specification of `propagate` and `foreach_object`
 * (lib/Grid.ts): flood fill over non-black cells and the enumeration of
 * connected objects.
 */
module GridObjects {
  import opened Colors
  import opened GridValues

  type Point = (int, int)

  /** A cell an object can hold: inside the grid, neither black nor `undefined`. */
  predicate Solid(r: Raster, p: Point)
  {
    Inside(r, p.0, p.1) && At(r, p.0, p.1) != Black && At(r, p.0, p.1) != Undefined
  }

  /** The points `propagate` visits around p, in its order: the four sides, then the corners when asked. */
  function Neighbours(p: Point, corners: bool): (ns: seq<Point>)
    ensures |ns| == if corners then 8 else 4
  {
    var x, y := p.0, p.1;
    [(x - 1, y), (x + 1, y), (x, y - 1), (x, y + 1)]
    + (if corners then [(x - 1, y - 1), (x + 1, y - 1), (x - 1, y + 1), (x + 1, y + 1)] else [])
  }

  /** q is one of the points visited around p. */
  predicate Adjacent(p: Point, q: Point, corners: bool)
  {
    q in Neighbours(p, corners)
  }

  /** Being a neighbour is symmetric. */
  lemma NeighbourSymmetric(p: Point, q: Point, corners: bool)
    requires Adjacent(p, q, corners)
    ensures Adjacent(q, p, corners)
  {
  }

  /** A walk through solid cells, each step to a neighbour. */
  ghost predicate IsPath(r: Raster, corners: bool, path: seq<Point>)
  {
    |path| >= 1
    && (forall i :: 0 <= i < |path| ==> Solid(r, path[i]))
    && (forall i :: 0 <= i < |path| - 1 ==> Adjacent(path[i], path[i + 1], corners))
  }

  /** p is reachable from s through solid neighbours. */
  ghost predicate Connected(r: Raster, corners: bool, s: Point, p: Point)
  {
    exists path :: IsPath(r, corners, path) && path[0] == s && path[|path| - 1] == p
  }

  lemma ConnectedRefl(r: Raster, corners: bool, s: Point)
    requires Solid(r, s)
    ensures Connected(r, corners, s, s)
  {
    assert IsPath(r, corners, [s]);
  }

  lemma ConnectedEnds(r: Raster, corners: bool, s: Point, p: Point)
    requires Connected(r, corners, s, p)
    ensures Solid(r, s) && Solid(r, p)
  {
    var path :| IsPath(r, corners, path) && path[0] == s && path[|path| - 1] == p;
  }

  lemma ConnectedStep(r: Raster, corners: bool, s: Point, p: Point, q: Point)
    requires Connected(r, corners, s, p) && Adjacent(p, q, corners) && Solid(r, q)
    ensures Connected(r, corners, s, q)
  {
    var path :| IsPath(r, corners, path) && path[0] == s && path[|path| - 1] == p;
    assert path[|path| - 1] == p && Solid(r, p);
    assert IsPath(r, corners, [p, q]);
    PathJoin(r, corners, path, [p, q]);
    assert [p, q][1..] == [q];
    var longer := path + [q];
    assert longer[0] == s && longer[|longer| - 1] == q;
  }

  /** The walk read backwards. */
  function Reversed(path: seq<Point>): (b: seq<Point>)
    ensures |b| == |path| && forall i :: 0 <= i < |path| ==> b[i] == path[|path| - 1 - i]
  {
    if path == [] then [] else Reversed(path[1..]) + [path[0]]
  }

  /** A walk read backwards is a walk. */
  lemma PathReverse(r: Raster, corners: bool, path: seq<Point>)
    requires IsPath(r, corners, path)
    ensures IsPath(r, corners, Reversed(path))
  {
    var back := Reversed(path);
    forall i | 0 <= i < |back|
      ensures Solid(r, back[i])
    {
      assert back[i] == path[|path| - 1 - i];
    }
    forall i | 0 <= i < |back| - 1
      ensures Adjacent(back[i], back[i + 1], corners)
    {
      var k := |path| - 2 - i;
      assert back[i] == path[k + 1] && back[i + 1] == path[k];
      NeighbourSymmetric(path[k], path[k + 1], corners);
    }
  }

  lemma ConnectedSymmetric(r: Raster, corners: bool, s: Point, p: Point)
    requires Connected(r, corners, s, p)
    ensures Connected(r, corners, p, s)
  {
    var path :| IsPath(r, corners, path) && path[0] == s && path[|path| - 1] == p;
    PathReverse(r, corners, path);
    var back := Reversed(path);
    assert back[0] == p && back[|back| - 1] == s;
  }

  /** Two walks meeting end to start join into one. */
  lemma PathJoin(r: Raster, corners: bool, a: seq<Point>, b: seq<Point>)
    requires IsPath(r, corners, a) && IsPath(r, corners, b) && a[|a| - 1] == b[0]
    ensures IsPath(r, corners, a + b[1..])
  {
    var joined := a + b[1..];
    forall i | 0 <= i < |joined|
      ensures Solid(r, joined[i])
    {
      if i >= |a| {
        assert joined[i] == b[i - |a| + 1];
      } else {
        assert joined[i] == a[i];
      }
    }
    forall i | 0 <= i < |joined| - 1
      ensures Adjacent(joined[i], joined[i + 1], corners)
    {
      if i < |a| - 1 {
        assert joined[i] == a[i] && joined[i + 1] == a[i + 1];
      } else {
        var k := i - |a| + 1;
        assert joined[i] == b[k] && joined[i + 1] == b[k + 1];
      }
    }
  }

  lemma ConnectedTransitive(r: Raster, corners: bool, s: Point, p: Point, q: Point)
    requires Connected(r, corners, s, p) && Connected(r, corners, p, q)
    ensures Connected(r, corners, s, q)
  {
    var a :| IsPath(r, corners, a) && a[0] == s && a[|a| - 1] == p;
    var b :| IsPath(r, corners, b) && b[0] == p && b[|b| - 1] == q;
    PathJoin(r, corners, a, b);
    var joined := a + b[1..];
    assert joined[0] == s && joined[|joined| - 1] == q;
  }

  /** Every solid neighbour of a closed point of `visited` is in `visited`. */
  ghost predicate ClosedAt(r: Raster, corners: bool, visited: set<Point>, p: Point)
  {
    forall q :: Adjacent(p, q, corners) && Solid(r, q) ==> q in visited
  }

  /** Every `undefined` neighbour of p is in `marked`. */
  ghost predicate MarkedAround(r: Raster, corners: bool, marked: set<Point>, p: Point)
  {
    forall q :: Adjacent(p, q, corners) && At(r, q.0, q.1) == Undefined ==> q in marked
  }

  /** A set holding s and closed at every member holds everything reachable from s. */
  lemma ClosedHoldsComponent(r: Raster, corners: bool, visited: set<Point>, s: Point, p: Point)
    requires s in visited && forall u :: u in visited ==> ClosedAt(r, corners, visited, u)
    requires Connected(r, corners, s, p)
    ensures p in visited
  {
    var path :| IsPath(r, corners, path) && path[0] == s && path[|path| - 1] == p;
    var i := 0;
    while i < |path| - 1
      invariant 0 <= i <= |path| - 1 && path[i] in visited
    {
      assert Adjacent(path[i], path[i + 1], corners) && Solid(r, path[i + 1]);
      i := i + 1;
    }
  }

  // --------------------------------------------------------------- propagate

  /** `obj` of `propagate(x, y, corners)`: the cells reachable from (x, y) with their colours, black elsewhere. */
  ghost function ObjectOf(r: Raster, s: Point, corners: bool): (o: Raster)
    ensures o.width == r.width && o.height == r.height
  {
    FromFunction(r.width, r.height, (a, b) => if Connected(r, corners, s, (a, b)) then At(r, a, b) else Black)
  }

  /** A point marked in the contour: `undefined` there, and it is the start or a neighbour of a reached cell. */
  ghost predicate ContourMark(r: Raster, s: Point, corners: bool, q: Point)
  {
    At(r, q.0, q.1) == Undefined
    && (q == s || exists p :: Connected(r, corners, s, p) && Adjacent(p, q, corners))
  }

  /** `contour` of `propagate`: a grid one cell larger on every side, `true` at the marked points shifted by one. */
  ghost function ContourOf(r: Raster, s: Point, corners: bool): (c: Raster)
    ensures c.width == r.width + 2 && c.height == r.height + 2
  {
    FromFunction(r.width + 2, r.height + 2, (a, b) => if ContourMark(r, s, corners, (a - 1, b - 1)) then True else Black)
  }

  /** The grid's cells at the points of `visited`, black elsewhere. */
  function Restrict(r: Raster, visited: set<Point>): (o: Raster)
    ensures o.width == r.width && o.height == r.height
  {
    FromFunction(r.width, r.height, (a, b) => if (a, b) in visited then At(r, a, b) else Black)
  }

  /** A w x h grid with `true` at the points of `marked` shifted by one, black elsewhere. */
  function Marks(w: nat, h: nat, marked: set<Point>): (c: Raster)
    ensures c.width == w && c.height == h
  {
    FromFunction(w, h, (a, b) => if (a - 1, b - 1) in marked then True else Black)
  }

  /** A cell of the restricted grid that is not black is a visited cell. */
  lemma RestrictAt(r: Raster, visited: set<Point>, p: Point)
    requires Inside(r, p.0, p.1) && At(Restrict(r, visited), p.0, p.1) != Black
    ensures p in visited
  {
  }

  lemma RestrictAdd(r: Raster, visited: set<Point>, p: Point)
    requires Inside(r, p.0, p.1)
    ensures SetCell(Restrict(r, visited), p.0, p.1, At(r, p.0, p.1)) == Restrict(r, visited + {p})
  {
    var a := SetCell(Restrict(r, visited), p.0, p.1, At(r, p.0, p.1));
    var b := Restrict(r, visited + {p});
    forall x, y | Inside(a, x, y)
      ensures At(a, x, y) == At(b, x, y)
    {
      SetThenAt(Restrict(r, visited), p.0, p.1, At(r, p.0, p.1), x, y);
    }
    Extensionality(a, b);
  }

  lemma MarksAdd(c: Raster, w: nat, h: nat, marked: set<Point>, p: Point)
    requires c == Marks(w, h, marked)
    ensures SetCell(c, p.0 + 1, p.1 + 1, True) == Marks(w, h, marked + {p})
  {
    var a := SetCell(Marks(w, h, marked), p.0 + 1, p.1 + 1, True);
    var b := Marks(w, h, marked + {p});
    forall x, y | Inside(a, x, y)
      ensures At(a, x, y) == At(b, x, y)
    {
      SetThenAt(Marks(w, h, marked), p.0 + 1, p.1 + 1, True, x, y);
    }
    Extensionality(a, b);
  }

  /** The solid points among `ns`. */
  function SolidAmong(r: Raster, ns: seq<Point>): set<Point>
  {
    set q | q in ns && Solid(r, q)
  }

  /** The `undefined` points among `ns`. */
  function UndefinedAmong(r: Raster, ns: seq<Point>): set<Point>
  {
    set q | q in ns && At(r, q.0, q.1) == Undefined
  }

  lemma SolidAmongSnoc(r: Raster, ns: seq<Point>, q: Point)
    ensures SolidAmong(r, ns + [q]) == SolidAmong(r, ns) + (if Solid(r, q) then {q} else {})
  {
  }

  lemma UndefinedAmongSnoc(r: Raster, ns: seq<Point>, q: Point)
    ensures UndefinedAmong(r, ns + [q]) == UndefinedAmong(r, ns) + (if At(r, q.0, q.1) == Undefined then {q} else {})
  {
  }

  /** The solid cells of the grid. */
  function SolidCells(r: Raster): set<Point>
  {
    set x, y | 0 <= x < r.width && 0 <= y < r.height && At(r, x, y) != Black && At(r, x, y) != Undefined :: (x, y)
  }

  lemma SolidCellsMembers(r: Raster, p: Point)
    ensures p in SolidCells(r) <==> Solid(r, p)
  {
  }

  lemma SubsetCardinality(a: set<Point>, b: set<Point>)
    requires a <= b
    ensures |a| <= |b|
  {
    assert b == a + (b - a);
  }

  /** Visiting a new point of a finite set leaves fewer to visit. */
  lemma GapShrinks(all: set<Point>, before: set<Point>, after: set<Point>)
    requires before < after <= all
    ensures |all - after| < |all - before|
  {
    assert after == before + (after - before);
    var q :| q in after - before;
    var rest := (all - before) - {q};
    assert all - after <= rest;
    assert |rest| == |all - before| - 1;
    SubsetCardinality(all - after, rest);
  }

  /**
   * When the work list is empty the visited set is the component of s, so
   * the filled object is `ObjectOf`.
   */
  lemma FilledIsObject(r: Raster, corners: bool, s: Point, visited: set<Point>)
    requires forall u :: u in visited ==> Connected(r, corners, s, u) && ClosedAt(r, corners, visited, u)
    requires Solid(r, s) ==> s in visited
    ensures Restrict(r, visited) == ObjectOf(r, s, corners)
  {
    var a := Restrict(r, visited);
    var b := ObjectOf(r, s, corners);
    forall x, y | Inside(a, x, y)
      ensures At(a, x, y) == At(b, x, y)
    {
      if Connected(r, corners, s, (x, y)) {
        ConnectedEnds(r, corners, s, (x, y));
        ClosedHoldsComponent(r, corners, visited, s, (x, y));
      }
    }
    Extensionality(a, b);
  }

  lemma MarkedIffContour(r: Raster, corners: bool, s: Point, visited: set<Point>, marked: set<Point>, q: Point)
    requires forall u :: u in visited ==> Connected(r, corners, s, u) && ClosedAt(r, corners, visited, u)
    requires forall u :: u in visited ==> MarkedAround(r, corners, marked, u)
    requires Solid(r, s) ==> s in visited
    requires At(r, s.0, s.1) == Undefined ==> s in marked
    requires forall q :: q in marked ==> ContourMark(r, s, corners, q)
    ensures q in marked <==> ContourMark(r, s, corners, q)
  {
    if ContourMark(r, s, corners, q) && q != s {
      var p :| Connected(r, corners, s, p) && Adjacent(p, q, corners);
      ConnectedEnds(r, corners, s, p);
      ClosedHoldsComponent(r, corners, visited, s, p);
    }
  }

  /** When the work list is empty the marked set gives the contour. */
  lemma MarkedIsContour(r: Raster, corners: bool, s: Point, visited: set<Point>, marked: set<Point>)
    requires forall u :: u in visited ==> Connected(r, corners, s, u) && ClosedAt(r, corners, visited, u)
    requires forall u :: u in visited ==> MarkedAround(r, corners, marked, u)
    requires Solid(r, s) ==> s in visited
    requires At(r, s.0, s.1) == Undefined ==> s in marked
    requires forall q :: q in marked ==> ContourMark(r, s, corners, q)
    ensures Marks(r.width + 2, r.height + 2, marked) == ContourOf(r, s, corners)
  {
    forall q ensures q in marked <==> ContourMark(r, s, corners, q) {
      MarkedIffContour(r, corners, s, visited, marked, q);
    }
    MarksOfContour(r, corners, s, marked);
  }

  /** A set holding exactly the contour marks gives the contour grid. */
  lemma MarksOfContour(r: Raster, corners: bool, s: Point, marked: set<Point>)
    requires forall q :: q in marked <==> ContourMark(r, s, corners, q)
    ensures Marks(r.width + 2, r.height + 2, marked) == ContourOf(r, s, corners)
  {
    var a := Marks(r.width + 2, r.height + 2, marked);
    var b := ContourOf(r, s, corners);
    forall x, y | Inside(a, x, y)
      ensures At(a, x, y) == At(b, x, y)
    {
      assert (x - 1, y - 1) in marked <==> ContourMark(r, s, corners, (x - 1, y - 1));
    }
    Extensionality(a, b);
  }

  /**
   * `add_point` of `propagate`: an `undefined` point is marked in the
   * contour, a solid point not yet in the object is copied into it and
   * pushed on the work list. The two grids being filled are carried as
   * values.
   */
  method AddPoint(r: Raster, obj: Raster, contour: Raster, p: Point, points: seq<Point>,
                  ghost visited: set<Point>, ghost marked: set<Point>)
    returns (obj': Raster, contour': Raster, points': seq<Point>, ghost visited': set<Point>, ghost marked': set<Point>)
    requires obj == Restrict(r, visited)
    requires contour == Marks(r.width + 2, r.height + 2, marked)
    ensures obj' == Restrict(r, visited')
    ensures contour' == Marks(r.width + 2, r.height + 2, marked')
    ensures visited' == if Solid(r, p) then visited + {p} else visited
    ensures marked' == if At(r, p.0, p.1) == Undefined then marked + {p} else marked
    ensures points' == if Solid(r, p) && p !in visited then points + [p] else points
  {
    var x, y := p.0, p.1;
    var color := At(r, x, y);
    obj', contour', points', visited', marked' := obj, contour, points, visited, marked;
    if color == Undefined {
      contour' := SetCell(contour, x + 1, y + 1, True);
      MarksAdd(contour, r.width + 2, r.height + 2, marked, (x, y));
      marked' := marked + {(x, y)};
    } else if color != Black && At(obj, x, y) == Black {
      RestrictAdd(r, visited, p);
      obj' := SetCell(obj, x, y, color);
      visited' := visited + {p};
      points' := points + [p];
    } else if color != Black {
      RestrictAt(r, visited, p);
      assert visited + {p} == visited;
    }
  }

  /**
   * How `add_point` calls on `ns` have changed the visited and marked sets
   * and the work list: the solid and the `undefined` points of `ns` are
   * added, nothing stacked is lost, and exactly the newly visited points
   * are pushed.
   */
  ghost predicate AddedAll(r: Raster, ns: seq<Point>,
                           visited: set<Point>, marked: set<Point>, points: seq<Point>,
                           visited': set<Point>, marked': set<Point>, points': seq<Point>)
  {
    visited' == visited + SolidAmong(r, ns)
    && marked' == marked + UndefinedAmong(r, ns)
    && (forall q :: q in points ==> q in points')
    && (forall q :: q in points' ==> q in points || q in visited')
    && (forall q :: q in visited' && q !in visited ==> q in points')
    && (visited' == visited ==> points' == points)
  }

  /** One more `add_point` extends what `AddedAll` describes by one point. */
  lemma AddedAllSnoc(r: Raster, ns: seq<Point>, k: nat,
                     visited: set<Point>, marked: set<Point>, points: seq<Point>,
                     visited1: set<Point>, marked1: set<Point>, points1: seq<Point>,
                     visited2: set<Point>, marked2: set<Point>, points2: seq<Point>)
    requires k < |ns|
    requires AddedAll(r, ns[..k], visited, marked, points, visited1, marked1, points1)
    requires visited2 == if Solid(r, ns[k]) then visited1 + {ns[k]} else visited1
    requires marked2 == if At(r, ns[k].0, ns[k].1) == Undefined then marked1 + {ns[k]} else marked1
    requires points2 == if Solid(r, ns[k]) && ns[k] !in visited1 then points1 + [ns[k]] else points1
    ensures AddedAll(r, ns[..k + 1], visited, marked, points, visited2, marked2, points2)
  {
    assert ns[..k + 1] == ns[..k] + [ns[k]];
    SolidAmongSnoc(r, ns[..k], ns[k]);
    UndefinedAmongSnoc(r, ns[..k], ns[k]);
  }

  lemma AddedAllWhole(r: Raster, ns: seq<Point>,
                      visited: set<Point>, marked: set<Point>, points: seq<Point>,
                      visited': set<Point>, marked': set<Point>, points': seq<Point>)
    requires AddedAll(r, ns[..|ns|], visited, marked, points, visited', marked', points')
    ensures AddedAll(r, ns, visited, marked, points, visited', marked', points')
  {
    assert ns[..|ns|] == ns;
  }

  /** `add_point` on each of `ns` in turn (the neighbours of one popped point). */
  method AddPoints(r: Raster, obj: Raster, contour: Raster, ns: seq<Point>, points: seq<Point>,
                   ghost visited: set<Point>, ghost marked: set<Point>)
    returns (obj': Raster, contour': Raster, points': seq<Point>, ghost visited': set<Point>, ghost marked': set<Point>)
    requires obj == Restrict(r, visited)
    requires contour == Marks(r.width + 2, r.height + 2, marked)
    ensures obj' == Restrict(r, visited')
    ensures contour' == Marks(r.width + 2, r.height + 2, marked')
    ensures AddedAll(r, ns, visited, marked, points, visited', marked', points')
  {
    obj', contour', points', visited', marked' := obj, contour, points, visited, marked;
    var k := 0;
    while k < |ns|
      invariant 0 <= k <= |ns|
      invariant obj' == Restrict(r, visited')
      invariant contour' == Marks(r.width + 2, r.height + 2, marked')
      invariant AddedAll(r, ns[..k], visited, marked, points, visited', marked', points')
    {
      ghost var visited1, marked1, points1 := visited', marked', points';
      obj', contour', points', visited', marked' := AddPoint(r, obj', contour', ns[k], points', visited', marked');
      AddedAllSnoc(r, ns, k, visited, marked, points, visited1, marked1, points1, visited', marked', points');
      k := k + 1;
    }
    AddedAllWhole(r, ns, visited, marked, points, visited', marked', points');
  }

  /**
   * What the filling loop keeps: the visited points are solid and reached
   * from s, the stacked points are visited, every visited point no longer
   * stacked has its solid neighbours visited and its `undefined` neighbours
   * marked, s itself is visited or marked as it should be, and every marked
   * point belongs to the contour.
   */
  ghost predicate FillInvariant(r: Raster, corners: bool, s: Point,
                                visited: set<Point>, marked: set<Point>, points: seq<Point>)
  {
    (forall u :: u in visited ==> Solid(r, u))
    && (forall u {:trigger Connected(r, corners, s, u)} :: u in visited ==> Connected(r, corners, s, u))
    && (forall q :: q in points ==> q in visited)
    && (forall u {:trigger ClosedAt(r, corners, visited, u)} ::
          u in visited && u !in points ==> ClosedAt(r, corners, visited, u))
    && (forall u {:trigger MarkedAround(r, corners, marked, u)} ::
          u in visited && u !in points ==> MarkedAround(r, corners, marked, u))
    && (Solid(r, s) ==> s in visited)
    && (At(r, s.0, s.1) == Undefined ==> s in marked)
    && (forall q {:trigger ContourMark(r, s, corners, q)} :: q in marked ==> ContourMark(r, s, corners, q))
  }

  /** The first `add_point(x, y)` establishes the invariant. */
  lemma FillStart(r: Raster, corners: bool, s: Point, visited: set<Point>, marked: set<Point>, points: seq<Point>)
    requires visited == if Solid(r, s) then {s} else {}
    requires marked == if At(r, s.0, s.1) == Undefined then {s} else {}
    requires points == if Solid(r, s) then [s] else []
    ensures FillInvariant(r, corners, s, visited, marked, points)
  {
    if Solid(r, s) {
      ConnectedRefl(r, corners, s);
    }
  }

  /** Popping p and adding its neighbours keeps the invariant. */
  lemma FillStep(r: Raster, corners: bool, s: Point,
                 visited0: set<Point>, marked0: set<Point>, popped: seq<Point>,
                 visited: set<Point>, marked: set<Point>, points: seq<Point>)
    requires popped != [] && FillInvariant(r, corners, s, visited0, marked0, popped)
    requires AddedAll(r, Neighbours(popped[|popped| - 1], corners), visited0, marked0, popped[..|popped| - 1],
                      visited, marked, points)
    ensures FillInvariant(r, corners, s, visited, marked, points)
  {
    var p := popped[|popped| - 1];
    var points0 := popped[..|popped| - 1];
    assert popped == points0 + [p];
    assert p in popped;
    assert p in visited0;
    assert Connected(r, corners, s, p);
    forall q | q in visited
      ensures Connected(r, corners, s, q)
    {
      if q !in visited0 {
        ConnectedStep(r, corners, s, p, q);
      }
    }
    forall u | u in visited && u !in points
      ensures ClosedAt(r, corners, visited, u)
    {
      if u != p {
        assert u in visited0 && u !in points0 + [p];
        assert ClosedAt(r, corners, visited0, u);
      }
    }
    forall u | u in visited && u !in points
      ensures MarkedAround(r, corners, marked, u)
    {
      if u != p {
        assert u in visited0 && u !in points0 + [p];
        assert MarkedAround(r, corners, marked0, u);
      }
    }
    forall q | q in marked
      ensures ContourMark(r, s, corners, q)
    {
      if q in marked0 {
        assert ContourMark(r, s, corners, q);
      } else {
        assert Connected(r, corners, s, p) && Adjacent(p, q, corners);
      }
    }
  }

  /** The visited points stay inside the finite set of solid cells. */
  lemma VisitedAreSolidCells(r: Raster, visited: set<Point>)
    requires forall u :: u in visited ==> Solid(r, u)
    ensures visited <= SolidCells(r)
  {
    forall q | q in visited
      ensures q in SolidCells(r)
    {
      SolidCellsMembers(r, q);
    }
  }

  /** One round of the filling loop: pop the last point and add its neighbours. */
  method FillRound(r: Raster, corners: bool, s: Point, obj: Raster, contour: Raster, points: seq<Point>,
                   ghost visited: set<Point>, ghost marked: set<Point>)
    returns (obj': Raster, contour': Raster, points': seq<Point>, ghost visited': set<Point>, ghost marked': set<Point>)
    requires |points| > 0
    requires obj == Restrict(r, visited)
    requires contour == Marks(r.width + 2, r.height + 2, marked)
    requires FillInvariant(r, corners, s, visited, marked, points)
    ensures obj' == Restrict(r, visited')
    ensures contour' == Marks(r.width + 2, r.height + 2, marked')
    ensures FillInvariant(r, corners, s, visited', marked', points')
    ensures |SolidCells(r) - visited'| < |SolidCells(r) - visited| || (visited' == visited && |points'| < |points|)
  {
    var p := points[|points| - 1];
    var rest := points[..|points| - 1];
    obj', contour', points', visited', marked' := AddPoints(r, obj, contour, Neighbours(p, corners), rest, visited, marked);
    FillStep(r, corners, s, visited, marked, points, visited', marked', points');
    VisitedAreSolidCells(r, visited');
    if visited' != visited {
      GapShrinks(SolidCells(r), visited, visited');
    }
  }

  /**
   * The filling loop of `propagate(x, y, corners)` on the grid `r`: a
   * stack of points, popped last first, each spreading to its neighbours.
   */
  method Fill(r: Raster, s: Point, corners: bool) returns (obj: Raster, contour: Raster)
    ensures obj == ObjectOf(r, s, corners)
    ensures contour == ContourOf(r, s, corners)
  {
    var objV := Filled(r.width, r.height, Black);
    var contourV := Filled(r.width + 2, r.height + 2, Black);
    Extensionality(objV, Restrict(r, {}));
    Extensionality(contourV, Marks(r.width + 2, r.height + 2, {}));
    var points: seq<Point>;
    ghost var visited: set<Point>, marked: set<Point>;
    objV, contourV, points, visited, marked := AddPoint(r, objV, contourV, s, [], {}, {});
    FillStart(r, corners, s, visited, marked, points);
    obj, contour, visited, marked := FillRounds(r, corners, s, objV, contourV, points, visited, marked);
    FilledIsObject(r, corners, s, visited);
    MarkedIsContour(r, corners, s, visited, marked);
  }

  /** The `while (points.length)` loop of `propagate`: rounds until the stack is empty. */
  method FillRounds(r: Raster, corners: bool, s: Point, obj: Raster, contour: Raster, points: seq<Point>,
                    ghost visited: set<Point>, ghost marked: set<Point>)
    returns (obj': Raster, contour': Raster, ghost visited': set<Point>, ghost marked': set<Point>)
    requires obj == Restrict(r, visited)
    requires contour == Marks(r.width + 2, r.height + 2, marked)
    requires FillInvariant(r, corners, s, visited, marked, points)
    ensures obj' == Restrict(r, visited')
    ensures contour' == Marks(r.width + 2, r.height + 2, marked')
    ensures FillInvariant(r, corners, s, visited', marked', [])
  {
    obj', contour', visited', marked' := obj, contour, visited, marked;
    var stack := points;
    while |stack| > 0
      invariant obj' == Restrict(r, visited')
      invariant contour' == Marks(r.width + 2, r.height + 2, marked')
      invariant FillInvariant(r, corners, s, visited', marked', stack)
      decreases |SolidCells(r) - visited'|, |stack|
    {
      obj', contour', stack, visited', marked' := FillRound(r, corners, s, obj', contour', stack, visited', marked');
    }
  }
}
