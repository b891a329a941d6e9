/** The painting order both rasterisers share in `setTiles`: every tile is
    reset to outside without a parent, then the rooms' walls are painted, then
    the paths, then the rooms' interiors (which skip wall tiles). The newer
    rasteriser makes each room the parent of its walls; the older one does not. */
module Raster {
  import opened Common
  import opened Node
  import opened Tile
  import opened Grid

  /** The walls of room `i` lie in its area, so a tile under some room's
      walls is under some room's area. */
  lemma WallsInAreas(rs: seq<Rect>, owned: bool, p: Point)
    requires AllProper(rs)
    ensures InAny(p, PassLists(WallPass(owned), rs)) ==> InAny(p, PassLists(InsidePass, rs))
  {
    var walls, areas := PassLists(WallPass(owned), rs), PassLists(InsidePass, rs);
    if InAny(p, walls) {
      var i :| 0 <= i < |walls| && p in walls[i];
      assert walls[i] == Walls(rs[i]);
      WallsAreBorder(rs[i], p);
      assert areas[i] == Area(rs[i], 0);
    }
  }

  /** The tiles after reset, walls, paths and interiors, with `paths` every
      point the path pass paints. */
  function Rasterised(ts: seq<MapTile>, rs: seq<Rect>, ns: seq<MapNode>, owned: bool, paths: seq<Point>): (r: seq<MapTile>)
    requires AllProper(rs) && |rs| == |ns|
    ensures |r| == |ts|
  {
    var walled := PaintRooms(Cleared(ts), PassLists(WallPass(owned), rs), ns, WallPass(owned));
    var pathed := Painted(walled, paths, PathMark);
    PaintRooms(pathed, PassLists(InsidePass, rs), ns, InsidePass)
  }

  /** What `setTiles` leaves on the tile at `p`: a wall where some room's
      wall lies and no path crosses; an interior tile, with a parent room,
      elsewhere in a room's area (a path through a wall opens it into the
      interior); outside every area a path tile or an outside tile, without
      a parent. Only the type and the parent change. */
  predicate Rastered(t0: MapTile, t: MapTile, inWall: bool, inArea: bool, onPath: bool, owned: bool)
  {
    && t == t0.(ttype := t.ttype, parent := t.parent)
    && (inWall && !onPath ==> t.ttype == Wall && (owned <==> t.parent.Some?))
    && (inArea && (!inWall || onPath) ==> t.ttype == Inside && t.parent.Some?)
    && (!inArea ==> t.ttype == (if onPath then Path else Outside) && t.parent == None)
  }

  lemma {:induction false} RasterTile(ts: seq<MapTile>, rs: seq<Rect>, ns: seq<MapNode>, owned: bool, paths: seq<Point>, k: int)
    requires AllProper(rs) && |rs| == |ns| && 0 <= k < |ts|
    ensures var p := At(ts[k]);
      Rastered(ts[k], Rasterised(ts, rs, ns, owned, paths)[k],
               InAny(p, PassLists(WallPass(owned), rs)), InAny(p, PassLists(InsidePass, rs)), p in paths, owned)
  {
    var p := At(ts[k]);
    var walls, areas := PassLists(WallPass(owned), rs), PassLists(InsidePass, rs);
    var cleared := Cleared(ts);
    var walled := PaintRooms(cleared, walls, ns, WallPass(owned));
    var pathed := Painted(walled, paths, PathMark);
    PaintRoomsTile(cleared, walls, ns, WallPass(owned), k);
    PaintRoomsTile(pathed, areas, ns, InsidePass, k);
    WallsInAreas(rs, owned, p);
  }

  /** Every tile ends up as `Rastered` describes; none is a door. */
  lemma RasterFacts(ts: seq<MapTile>, rs: seq<Rect>, ns: seq<MapNode>, owned: bool, paths: seq<Point>)
    requires AllProper(rs) && |rs| == |ns|
    ensures var r := Rasterised(ts, rs, ns, owned, paths);
      forall k :: 0 <= k < |ts| ==>
        && Rastered(ts[k], r[k], InAny(At(ts[k]), PassLists(WallPass(owned), rs)),
                    InAny(At(ts[k]), PassLists(InsidePass, rs)), At(ts[k]) in paths, owned)
        && r[k].ttype != Door
  {
    forall k | 0 <= k < |ts|
      ensures Rastered(ts[k], Rasterised(ts, rs, ns, owned, paths)[k], InAny(At(ts[k]), PassLists(WallPass(owned), rs)),
                       InAny(At(ts[k]), PassLists(InsidePass, rs)), At(ts[k]) in paths, owned)
    {
      RasterTile(ts, rs, ns, owned, paths, k);
    }
  }

  /** `setTiles` keeps the layout. */
  lemma RasterLaid(ts: seq<MapTile>, w: nat, h: nat, rs: seq<Rect>, ns: seq<MapNode>, owned: bool, paths: seq<Point>)
    requires Laid(ts, w, h) && AllProper(rs) && |rs| == |ns|
    ensures Laid(Rasterised(ts, rs, ns, owned, paths), w, h)
  {
    var r := Rasterised(ts, rs, ns, owned, paths);
    forall k | 0 <= k < |ts| ensures At(r[k]) == At(ts[k]) {
      RasterTile(ts, rs, ns, owned, paths, k);
    }
  }

  lemma RasterisedIs(ts: seq<MapTile>, rs: seq<Rect>, ns: seq<MapNode>, owned: bool, paths: seq<Point>,
                     walled: seq<MapTile>, pathed: seq<MapTile>)
    requires AllProper(rs) && |rs| == |ns|
    requires walled == PaintRooms(Cleared(ts), PassLists(WallPass(owned), rs), ns, WallPass(owned))
    requires pathed == Painted(walled, paths, PathMark)
    ensures Rasterised(ts, rs, ns, owned, paths) == PaintRooms(pathed, PassLists(InsidePass, rs), ns, InsidePass)
  {
  }

  /** The three passes of `setTiles` over tiles `ts`, the rooms `ns` and the
      path points `paths`. */
  method Rasterise(ts: seq<MapTile>, w: nat, h: nat, rs: seq<Rect>, ns: seq<MapNode>, owned: bool, paths: seq<seq<Point>>)
    returns (r: seq<MapTile>)
    requires Laid(ts, w, h) && AllProper(rs) && |rs| == |ns|
    ensures r == Rasterised(ts, rs, ns, owned, Flatten(paths))
  {
    r := ClearAll(ts);
    ClearedLaid(ts, w, h);
    r := PaintRoomsOf(r, w, h, rs, ns, WallPass(owned));
    ghost var walled := r;
    PaintRoomsLaid(Cleared(ts), w, h, PassLists(WallPass(owned), rs), ns, WallPass(owned));
    r := PaintLists(r, w, h, paths, PathMark);
    ghost var pathed := r;
    PaintedLaid(walled, w, h, Flatten(paths), PathMark);
    r := PaintRoomsOf(r, w, h, rs, ns, InsidePass);
    RasterisedIs(ts, rs, ns, owned, Flatten(paths), walled, pathed);
  }
}
