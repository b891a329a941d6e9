/** `GameTiles`: the newer rasteriser. It owns a `width` by `height` grid of
    tiles and a `(width + 1)` by `(height + 1)` grid of dual tiles, and
    `setTiles` repaints them from the rooms and the corridors between them:
    reset, walls (owned by their room), corridors, interiors, distances to the
    nearest interior, then the dual grid.

    The entrances `getEntraceClosestToNode` picks for the two rooms of an edge
    are not part of this model; they come in as `ends`, one optional pair of
    points per edge (`None` when either room has no such entrance). */
module GameTilesModel {
  import opened Common
  import opened Node
  import opened Graph
  import opened Lines
  import opened Tile
  import opened DualTile
  import opened Grid
  import opened Distances
  import opened DualGrid
  import opened Raster

  /** `e` lies on one of the four lines `offsetEntrance` tests for room `r`:
      the column just left of the left offset, the last column, the row just
      above the top offset, the last row. */
  predicate OnOffsetLine(e: Point, r: Rect)
  {
    e.x == r.x + r.x0 - 1 || e.x == r.x + r.x1 - 1 || e.y == r.y + r.y0 - 1 || e.y == r.y + r.y1 - 1
  }

  /** `offsetEntrance(e, n, o)`: the first of the four tests that holds picks
      the axis and the direction of a shift by `o`; no test, no shift. */
  function OffsetEntrance(e: Point, r: Rect, o: int): (q: Point)
    ensures q.x == e.x || q.y == e.y
    ensures OnOffsetLine(e, r) ==> Abs(q.x - e.x) + Abs(q.y - e.y) == Abs(o)
    ensures !OnOffsetLine(e, r) ==> q == e
  {
    if e.x == r.x + r.x0 - 1 then Point(e.x - o, e.y)
    else if e.x == r.x + r.x1 - 1 then Point(e.x + o, e.y)
    else if e.y == r.y + r.y0 - 1 then Point(e.x, e.y - o)
    else if e.y == r.y + r.y1 - 1 then Point(e.x, e.y + o)
    else e
  }

  /** The tests are tried in order: a point on the left test column always
      moves along x, leftwards for a positive offset, whatever rows it is on;
      a point on no column test moves along y. */
  lemma OffsetOrder(e: Point, r: Rect, o: int)
    ensures e.x == r.x + r.x0 - 1 ==> OffsetEntrance(e, r, o) == Point(e.x - o, e.y)
    ensures e.x != r.x + r.x0 - 1 && e.x == r.x + r.x1 - 1 ==> OffsetEntrance(e, r, o) == Point(e.x + o, e.y)
    ensures e.x != r.x + r.x0 - 1 && e.x != r.x + r.x1 - 1 ==> OffsetEntrance(e, r, o).x == e.x
  {
  }

  /** A unit offset keeps the point or moves it to a 4-neighbour. */
  lemma UnitOffset(e: Point, r: Rect)
    ensures var q := OffsetEntrance(e, r, 1); q == e || (Adjacent4(e, q) && Adjacent4(q, e))
  {
  }

  /** The points `setPaths` paints for one edge whose entrances are `e1`
      (room `r1`) and `e2` (room `r2`), in painting order: both entrances,
      both entrances offset once, the route between the entrances offset
      twice, then the first twice-offset point, the first once-offset point
      again, and both entrances again. The twice-offset second entrance is
      fetched but never painted (see `EdgePoints`). */
  function EdgePointsAsWritten(e1: Point, e2: Point, r1: Rect, r2: Rect): seq<Point>
  {
    var f1, f2 := OffsetEntrance(e1, r1, 1), OffsetEntrance(e2, r2, 1);
    var g1, g2 := OffsetEntrance(f1, r1, 1), OffsetEntrance(f2, r2, 1);
    [e1, e2, f1, f2] + ManhattanTiles(g1, g2) + [g1, f1, e1, e2]
  }

  /** The same with the twice-offset second entrance painted where the tile
      fetched for it is: the corrected corridor the rest of the model uses. */
  function EdgePoints(e1: Point, e2: Point, r1: Rect, r2: Rect): seq<Point>
  {
    var f1, f2 := OffsetEntrance(e1, r1, 1), OffsetEntrance(e2, r2, 1);
    var g1, g2 := OffsetEntrance(f1, r1, 1), OffsetEntrance(f2, r2, 1);
    [e1, e2, f1, f2] + ManhattanTiles(g1, g2) + [g1, g2, e1, e2]
  }

  /** The corridor as a chain: from the first entrance out through its two
      offsets, along the route, and in through the second entrance's offsets. */
  function Corridor(e1: Point, e2: Point, r1: Rect, r2: Rect): seq<Point>
  {
    var f1, f2 := OffsetEntrance(e1, r1, 1), OffsetEntrance(e2, r2, 1);
    var g1, g2 := OffsetEntrance(f1, r1, 1), OffsetEntrance(f2, r2, 1);
    [e1, f1] + ([g1] + ManhattanTiles(g1, g2) + [g2]) + [f2, e2]
  }

  /** Each point of `c` is the next one or a 4-neighbour of it. */
  predicate Linked(c: seq<Point>)
  {
    forall k :: 0 <= k < |c| - 1 ==> c[k] == c[k + 1] || Adjacent4(c[k], c[k + 1])
  }

  /** A route whose first leg ends on `p2`'s column or row only where it
      meets the second leg, and whose second leg ends at the third leg's start,
      never reaches `p2`. */
  lemma LegsAvoidEnd(p1: Point, m1: Point, m2: Point, p2: Point)
    requires p2 in Line(p1, m1) ==> p2 == m1
    requires p2 in Line(m1, m2) ==> p2 == m2
    ensures p2 !in Route(p1, m1, m2, p2)
  {
    LineFacts(p1, m1);
    LineFacts(m1, m2);
    LineFacts(m2, p2);
  }

  /** The route never reaches the point it heads for. */
  lemma RouteAvoidsEnd(p1: Point, p2: Point)
    ensures p2 !in ManhattanTiles(p1, p2)
  {
    if Abs(p2.x - p1.x) < Abs(p2.y - p1.y) {
      var c := Mid(p1.y, p2.y);
      MidSplits(p1.y, p2.y);
      var m1, m2 := Point(p1.x, c), Point(p2.x, c);
      LineFacts(p1, m1);
      LineFacts(m1, m2);
      LegsAvoidEnd(p1, m1, m2, p2);
    } else {
      var c := Mid(p1.x, p2.x);
      MidSplits(p1.x, p2.x);
      var m1, m2 := Point(c, p1.y), Point(c, p2.y);
      LineFacts(p1, m1);
      LineFacts(m1, m2);
      LegsAvoidEnd(p1, m1, m2, p2);
    }
  }

  /** A walk from `a` towards `b`, with both ends added, is linked. */
  lemma WalkLinked(m: seq<Point>, a: Point, b: Point)
    requires Walk(m, a, b)
    ensures Linked([a] + m + [b])
  {
    var c := [a] + m + [b];
    forall k | 0 <= k < |c| - 1 ensures c[k] == c[k + 1] || Adjacent4(c[k], c[k + 1]) {
      if 1 <= k < |m| {
        assert c[k] == m[k - 1] && c[k + 1] == m[k];
      } else if k == |m| && m != [] {
        assert c[k] == m[|m| - 1] && c[k + 1] == b;
      } else if k == 0 && m != [] {
        assert c[1] == m[0];
      }
    }
  }

  /** Two linked chains whose meeting ends are equal or neighbours join into one. */
  lemma LinkedJoin(a: seq<Point>, b: seq<Point>)
    requires Linked(a) && Linked(b) && a != [] && b != []
    requires a[|a| - 1] == b[0] || Adjacent4(a[|a| - 1], b[0])
    ensures Linked(a + b)
  {
    var c := a + b;
    forall k | 0 <= k < |c| - 1 ensures c[k] == c[k + 1] || Adjacent4(c[k], c[k + 1]) {
      if k >= |a| {
        assert c[k] == b[k - |a|] && c[k + 1] == b[k + 1 - |a|];
      } else if k < |a| - 1 {
        assert c[k] == a[k] && c[k + 1] == a[k + 1];
      }
    }
  }

  /** The corrected corridor is connected: the tiles it paints hold a chain
      of 4-neighbours from the first entrance to the second. */
  lemma {:induction false} CorridorLinked(e1: Point, e2: Point, r1: Rect, r2: Rect)
    ensures var c := Corridor(e1, e2, r1, r2);
      c[0] == e1 && c[|c| - 1] == e2 && Linked(c)
  {
    var f1, f2 := OffsetEntrance(e1, r1, 1), OffsetEntrance(e2, r2, 1);
    var g1, g2 := OffsetEntrance(f1, r1, 1), OffsetEntrance(f2, r2, 1);
    var m := ManhattanTiles(g1, g2);
    UnitOffset(e1, r1);
    UnitOffset(f1, r1);
    UnitOffset(e2, r2);
    UnitOffset(f2, r2);
    ManhattanTilesWalk(g1, g2);
    WalkLinked(m, g1, g2);
    var mid := [g1] + m + [g2];
    LinkedJoin([e1, f1], mid);
    LinkedJoin([e1, f1] + mid, [f2, e2]);
  }

  /** The corridor chain visits exactly the points the corrected list paints. */
  lemma CorridorCovers(e1: Point, e2: Point, r1: Rect, r2: Rect)
    ensures forall p :: p in Corridor(e1, e2, r1, r2) <==> p in EdgePoints(e1, e2, r1, r2)
  {
  }

  /** The two point lists differ at most in the twice-offset second entrance,
      and only when the second offset moves it: the second entrance then
      lies on two of the offset lines. */
  lemma AsWrittenDiffers(e1: Point, e2: Point, r1: Rect, r2: Rect)
    ensures var f2 := OffsetEntrance(e2, r2, 1);
      var g2 := OffsetEntrance(f2, r2, 1);
      && (forall p :: p in EdgePointsAsWritten(e1, e2, r1, r2) ==> p in EdgePoints(e1, e2, r1, r2))
      && (forall p :: p in EdgePoints(e1, e2, r1, r2) && p != g2 ==> p in EdgePointsAsWritten(e1, e2, r1, r2))
      && (g2 == f2 ==> forall p :: p in EdgePoints(e1, e2, r1, r2) <==> p in EdgePointsAsWritten(e1, e2, r1, r2))
  {
  }

  /** `p` lies on row `y` between columns `x0` and `x1`. */
  predicate OnRowSegment(p: Point, y: int, x0: int, x1: int)
  {
    p.y == y && x0 <= p.x <= x1
  }

  /** A linked chain of points of `ps` that starts on a row segment which no
      other point of `ps` neighbours never leaves that segment. */
  lemma {:induction false} LinkedStaysOnSegment(c: seq<Point>, ps: seq<Point>, y: int, x0: int, x1: int)
    requires Linked(c) && c != [] && OnRowSegment(c[0], y, x0, x1)
    requires forall k :: 0 <= k < |c| ==> c[k] in ps
    requires forall p, q :: OnRowSegment(p, y, x0, x1) && q in ps && Adjacent4(p, q) ==> OnRowSegment(q, y, x0, x1)
    ensures OnRowSegment(c[|c| - 1], y, x0, x1)
  {
    if |c| > 1 {
      var d := c[..|c| - 1];
      assert Linked(d) by {
        forall k | 0 <= k < |d| - 1 ensures d[k] == d[k + 1] || Adjacent4(d[k], d[k + 1]) {
          assert d[k] == c[k] && d[k + 1] == c[k + 1];
        }
      }
      LinkedStaysOnSegment(d, ps, y, x0, x1);
      assert c[|c| - 2] == d[|d| - 1];
    }
  }

  /** A route along one row stays on that row and stops short of its end. */
  lemma RowRouteOnSegment(p1: Point, p2: Point)
    requires p1.y == p2.y && p1.x <= p2.x
    ensures forall p :: p in ManhattanTiles(p1, p2) ==> OnRowSegment(p, p1.y, p1.x, p2.x - 1)
  {
    var m := Point(Mid(p1.x, p2.x), p1.y);
    LineFacts(p1, m);
    LineFacts(m, m);
    LineFacts(m, p2);
  }

  /** When the first entrance stays put and lies on the row above the second
      one, left of the second's column by more than one, and the second is
      offset left and then up, the route runs along that row and stops one
      column short of the twice-offset second entrance `g2`. The corrected
      corridor passes through `g2`; the written list never paints it, so what
      it paints falls apart in two pieces and no chain of painted
      4-neighbours joins the two entrances. */
  lemma AsWrittenSplits(e1: Point, e2: Point, r1: Rect, r2: Rect)
    requires OffsetEntrance(e1, r1, 1) == e1
    requires OffsetEntrance(e2, r2, 1) == Point(e2.x - 1, e2.y)
    requires OffsetEntrance(Point(e2.x - 1, e2.y), r2, 1) == Point(e2.x - 1, e2.y - 1)
    requires e1.y == e2.y - 1 && e1.x < e2.x - 1
    ensures var g2 := Point(e2.x - 1, e2.y - 1);
      && g2 in Corridor(e1, e2, r1, r2)
      && g2 in EdgePoints(e1, e2, r1, r2)
      && g2 !in EdgePointsAsWritten(e1, e2, r1, r2)
    ensures forall c :: Linked(c) && c != [] && c[0] == e1 && c[|c| - 1] == e2 ==>
      exists k :: 0 <= k < |c| && c[k] !in EdgePointsAsWritten(e1, e2, r1, r2)
  {
    var f2, g := Point(e2.x - 1, e2.y), Point(e2.x - 1, e2.y - 1);
    var route := ManhattanTiles(e1, g);
    RowRouteOnSegment(e1, g);
    var ps := EdgePointsAsWritten(e1, e2, r1, r2);
    assert ps == [e1, e2, e1, f2] + route + [e1, e1, e1, e2];
    assert forall q :: q in ps ==> OnRowSegment(q, e1.y, e1.x, e2.x - 2) || q == f2 || q == e2;
    forall c | Linked(c) && c != [] && c[0] == e1 && c[|c| - 1] == e2
      ensures exists k :: 0 <= k < |c| && c[k] !in ps
    {
      if forall k :: 0 <= k < |c| ==> c[k] in ps {
        LinkedStaysOnSegment(c, ps, e1.y, e1.x, e2.x - 2);
      }
    }
  }

  /** `AsWrittenSplits` applies: the second entrance (0, 0) on the left
      column and the top row of room (0, 0) with offsets 1..4, and the first
      entrance (-5, -1) on none of the offset lines of a room far away. */
  lemma AsWrittenLeavesHole()
    ensures var e1, e2, r1, r2 := Point(-5, -1), Point(0, 0), Rect(10, 10, 0, 0, 1, 1), Rect(0, 0, 1, 1, 4, 4);
      && OffsetEntrance(e1, r1, 1) == e1
      && OffsetEntrance(e2, r2, 1) == Point(e2.x - 1, e2.y)
      && OffsetEntrance(Point(e2.x - 1, e2.y), r2, 1) == Point(e2.x - 1, e2.y - 1)
      && e1.y == e2.y - 1 && e1.x < e2.x - 1
  {
  }

  /** The points `setPaths` paints for each edge, with the corrected
      corridor of `EdgePoints` (the source's own list, `EdgePointsAsWritten`,
      leaves out the twice-offset second entrance): none for an edge without
      a pair of entrances. `rs` holds the two rooms' geometry per edge. */
  function PathLists(ends: seq<Option<(Point, Point)>>, rs: seq<(Rect, Rect)>): (ls: seq<seq<Point>>)
    requires |ends| == |rs|
    ensures |ls| == |ends|
  {
    seq(|ends|, i requires 0 <= i < |ends| && |ends| == |rs| =>
      if ends[i].Some? then EdgePoints(ends[i].value.0, ends[i].value.1, rs[i].0, rs[i].1) else [])
  }

  /** Every edge with entrances gets a connected corridor of path points
      from its first entrance to its second. */
  lemma PathListsLinked(ends: seq<Option<(Point, Point)>>, rs: seq<(Rect, Rect)>, i: int)
    requires |ends| == |rs| && 0 <= i < |ends| && ends[i].Some?
    ensures var c := Corridor(ends[i].value.0, ends[i].value.1, rs[i].0, rs[i].1);
      && c[0] == ends[i].value.0 && c[|c| - 1] == ends[i].value.1 && Linked(c)
      && forall p :: p in c ==> p in Flatten(PathLists(ends, rs))
  {
    var e1, e2 := ends[i].value.0, ends[i].value.1;
    CorridorLinked(e1, e2, rs[i].0, rs[i].1);
    CorridorCovers(e1, e2, rs[i].0, rs[i].1);
    var ls := PathLists(ends, rs);
    forall p | p in Corridor(e1, e2, rs[i].0, rs[i].1) ensures p in Flatten(ls) {
      assert p in ls[i];
    }
  }

  /** The body of `setPaths` for one edge: offset both entrances twice,
      draw the route, and collect the points to paint, in order, with the
      twice-offset second entrance where the source paints the once-offset
      first entrance a second time (`EdgePoints`, not `EdgePointsAsWritten`). */
  method CorridorPoints(e1: Point, e2: Point, r1: Rect, r2: Rect) returns (pts: seq<Point>)
    ensures pts == EdgePoints(e1, e2, r1, r2)
  {
    var f1, f2 := OffsetEntrance(e1, r1, 1), OffsetEntrance(e2, r2, 1);
    var g1, g2 := OffsetEntrance(f1, r1, 1), OffsetEntrance(f2, r2, 1);
    var route := ManhattanLine(g1, g2);
    pts := [e1, e2, f1, f2] + route + [g1, g2, e1, e2];
  }

  /** `setPaths(edges)` on tiles `ts`: paint the corrected corridor of every
      edge with entrances, edge by edge. */
  method SetPathsOf(ts: seq<MapTile>, w: nat, h: nat, ends: seq<Option<(Point, Point)>>, rs: seq<(Rect, Rect)>)
    returns (r: seq<MapTile>)
    requires Laid(ts, w, h) && |ends| == |rs|
    ensures r == Painted(ts, Flatten(PathLists(ends, rs)), PathMark)
  {
    ghost var ls := PathLists(ends, rs);
    r := ts;
    var i := 0;
    while i < |ends|
      invariant 0 <= i <= |ends|
      invariant r == Painted(ts, Flatten(ls[..i]), PathMark)
    {
      PaintedLaid(ts, w, h, Flatten(ls[..i]), PathMark);
      var pts := [];
      if ends[i].Some? {
        pts := CorridorPoints(ends[i].value.0, ends[i].value.1, rs[i].0, rs[i].1);
      }
      assert pts == ls[i];
      r := PaintPoints(r, w, h, pts, PathMark);
      PaintNext(ts, ls, i, PathMark);
      i := i + 1;
    }
    assert ls[..|ls|] == ls;
  }

  /** What `setTiles` leaves: with the rooms `rs` owning their walls, every
      tile is `Rastered` in type and parent, so a tile in some room's area is
      a wall or an interior tile and any other tile is outside or a path;
      every interior tile is at distance 0 after the single relaxation pass;
      no tile is a door. */
  lemma SetTilesFacts(ts: seq<MapTile>, rs: seq<Rect>, ns: seq<MapNode>, paths: seq<Point>)
    requires AllProper(rs) && |rs| == |ns|
    ensures var r := Distanced(Rasterised(ts, rs, ns, true, paths), PassLists(SeedPass, rs), ns, 1);
      && |r| == |ts|
      && forall k :: 0 <= k < |ts| ==>
        var p := At(ts[k]);
        && Rastered(ts[k], r[k].(distance := ts[k].distance), InAny(p, PassLists(WallPass(true), rs)),
                    InAny(p, PassLists(InsidePass, rs)), p in paths, true)
        && (InAny(p, PassLists(InsidePass, rs)) ==> r[k].ttype == Wall || r[k].ttype == Inside)
        && (!InAny(p, PassLists(InsidePass, rs)) ==> r[k].ttype == Outside || r[k].ttype == Path)
        && (r[k].ttype == Inside ==> r[k].distance == Fin(0))
        && r[k].ttype != Door
  {
    var ras := Rasterised(ts, rs, ns, true, paths);
    var seeds, areas := PassLists(SeedPass, rs), PassLists(InsidePass, rs);
    assert seeds == areas;
    RasterFacts(ts, rs, ns, true, paths);
    SetDistancesFacts(ras, seeds, ns, 1);
  }

  /** The tile grid of `GameTiles`. */
  class GameTiles {
    const width: nat
    const height: nat
    var tiles: seq<MapTile>
    var dualTiles: seq<MapDualTile>

    /** Tile `(i, j)` sits at index `i * height + j`. */
    ghost predicate Valid()
      reads this
    {
      Laid(tiles, width, height)
    }

    /** A column at a time, `height` outside tiles per column; `ids` are the
        tiles' fresh identifiers in creation order. */
    constructor (width: nat, height: nat, ids: seq<Id>)
      requires |ids| == width * height
      ensures this.width == width && this.height == height
      ensures tiles == Blank(ids, width, height) && dualTiles == []
      ensures Valid()
    {
      this.width := width;
      this.height := height;
      var ts := MakeTiles(ids, width, height);
      tiles := ts;
      dualTiles := [];
      BlankLaid(ids, width, height);
    }

    /** The reset loop at the head of `setTiles`. */
    method ClearTiles()
      requires Valid()
      modifies this`tiles
      ensures Valid() && tiles == Cleared(old(tiles))
    {
      ClearedLaid(tiles, width, height);
      tiles := ClearAll(tiles);
    }

    /** `setWalls(nodes)`: each room's walls, in room order, become walls
        owned by that room. */
    method SetWalls(nodes: seq<MapNode>)
      requires Valid() && AllProper(Rects(nodes))
      modifies this`tiles
      ensures Valid()
      ensures tiles == PaintRooms(old(tiles), PassLists(WallPass(true), old(Rects(nodes))), nodes, WallPass(true))
    {
      var rs := Rects(nodes);
      PaintRoomsLaid(tiles, width, height, PassLists(WallPass(true), rs), nodes, WallPass(true));
      tiles := PaintRoomsOf(tiles, width, height, rs, nodes, WallPass(true));
    }

    /** `setPaths(edges)`, with `ends[i]` the entrances of edge `i`. */
    method SetPaths(edges: seq<GraphEdge>, ends: seq<Option<(Point, Point)>>)
      requires Valid() && |ends| == |edges|
      modifies this`tiles
      ensures Valid()
      ensures tiles == Painted(old(tiles), Flatten(PathLists(ends, old(EdgeRects(edges)))), PathMark)
    {
      var rs := EdgeRects(edges);
      PaintedLaid(tiles, width, height, Flatten(PathLists(ends, rs)), PathMark);
      tiles := SetPathsOf(tiles, width, height, ends, rs);
    }

    /** `setInsides(nodes)`: each room's area, walls excepted, becomes
        interior with that room as parent. */
    method SetInsides(nodes: seq<MapNode>)
      requires Valid() && AllProper(Rects(nodes))
      modifies this`tiles
      ensures Valid()
      ensures tiles == PaintRooms(old(tiles), PassLists(InsidePass, old(Rects(nodes))), nodes, InsidePass)
    {
      var rs := Rects(nodes);
      PaintRoomsLaid(tiles, width, height, PassLists(InsidePass, rs), nodes, InsidePass);
      tiles := PaintRoomsOf(tiles, width, height, rs, nodes, InsidePass);
    }

    /** `setDistances(nodes, passes)`: seed the rooms' areas, then relax
        `passes` times. */
    method SetDistances(nodes: seq<MapNode>, passes: nat)
      requires Valid() && AllProper(Rects(nodes))
      modifies this`tiles
      ensures Valid()
      ensures tiles == Distanced(old(tiles), PassLists(SeedPass, old(Rects(nodes))), nodes, passes)
    {
      var rs := Rects(nodes);
      SetDistancesFacts(tiles, PassLists(SeedPass, rs), nodes, passes);
      DistanceOnlyLaid(tiles, Distanced(tiles, PassLists(SeedPass, rs), nodes, passes), width, height);
      tiles := Distances.SetDistances(tiles, width, height, rs, nodes, passes);
    }

    /** `setDualTiles()`: one corner per point of the `(width + 1)` by
        `(height + 1)` grid, column by column. */
    method SetDualTiles()
      modifies this`dualTiles
      ensures dualTiles == Columns(tiles, height, width + 1)
    {
      var ds := DualGrid.SetDualTiles(tiles, width, height);
      dualTiles := ds;
    }

    /** `setTiles(nodes, edges)`: reset, walls, corridors, interiors, one
        distance pass, dual grid. */
    method SetTiles(nodes: seq<MapNode>, edges: seq<GraphEdge>, ends: seq<Option<(Point, Point)>>)
      requires Valid() && AllProper(Rects(nodes)) && |ends| == |edges|
      modifies this`tiles, this`dualTiles
      ensures Valid()
      ensures tiles == Distanced(Rasterised(old(tiles), old(Rects(nodes)), nodes, true, Flatten(PathLists(ends, old(EdgeRects(edges))))),
                                 PassLists(SeedPass, old(Rects(nodes))), nodes, 1)
      ensures dualTiles == Columns(tiles, height, width + 1)
    {
      var rs, ers := Rects(nodes), EdgeRects(edges);
      var ts := Rasterise(tiles, width, height, rs, nodes, true, PathLists(ends, ers));
      RasterLaid(tiles, width, height, rs, nodes, true, Flatten(PathLists(ends, ers)));
      SetDistancesFacts(ts, PassLists(SeedPass, rs), nodes, 1);
      DistanceOnlyLaid(ts, Distanced(ts, PassLists(SeedPass, rs), nodes, 1), width, height);
      ts := Distances.SetDistances(ts, width, height, rs, nodes, 1);
      tiles := ts;
      SetDualTiles();
    }
  }
}
