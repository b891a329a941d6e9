/** The tile grid both rasterisers share: tile `(i, j)` of a `width` by
    `height` grid is kept at index `i * height + j`, `getTile` looks a tile up
    by its coordinates, and the painting passes assign a type (and sometimes a
    parent room or a distance) to the tiles under a list of points. */
module Grid {
  import opened Common
  import opened Node
  import opened Tile

  predicate InGrid(w: int, h: int, p: Point)
  {
    0 <= p.x < w && 0 <= p.y < h
  }

  /** The index of tile `p` in a grid of height `h`. */
  function Index(h: int, p: Point): int
  {
    p.x * h + p.y
  }

  /** `ts` holds a `w` by `h` grid, column after column: every tile lies on
      the grid, at the index of its own position. */
  predicate Laid(ts: seq<MapTile>, w: nat, h: nat)
  {
    && |ts| == w * h
    && forall k :: 0 <= k < |ts| ==> InGrid(w, h, At(ts[k])) && Index(h, At(ts[k])) == k
  }

  /** A point on the grid has its tile at its index. */
  lemma IndexOfPoint(ts: seq<MapTile>, w: nat, h: nat, p: Point)
    requires Laid(ts, w, h) && InGrid(w, h, p)
    ensures 0 <= Index(h, p) < |ts| && At(ts[Index(h, p)]) == p
  {
    IndexInRange(p.x, p.y, h, w);
    var q := At(ts[Index(h, p)]);
    DivModOf(p.x, p.y, h);
    DivModOf(q.x, q.y, h);
  }

  /** The tile at an index is the only one at its position. */
  lemma OnlyTileAt(ts: seq<MapTile>, w: nat, h: nat, p: Point)
    requires Laid(ts, w, h)
    ensures forall k :: 0 <= k < |ts| ==> (At(ts[k]) == p <==> InGrid(w, h, p) && k == Index(h, p))
  {
    if InGrid(w, h, p) {
      IndexOfPoint(ts, w, h, p);
    }
  }

  /** `tiles.find(tile => tile.x === p.x && tile.y === p.y)`, as an index. */
  function FindAt(ts: seq<MapTile>, p: Point): Option<nat>
  {
    if ts == [] then None
    else if At(ts[0]) == p then Some(0)
    else
      match FindAt(ts[1..], p)
      case None => None
      case Some(k) => Some(k + 1)
  }

  /** The search finds the first tile at `p`, and none when no tile is there. */
  lemma {:induction false} FindAtFacts(ts: seq<MapTile>, p: Point)
    ensures var r := FindAt(ts, p);
      && (r.Some? ==> r.value < |ts| && At(ts[r.value]) == p)
      && (r.Some? ==> forall j :: 0 <= j < r.value ==> At(ts[j]) != p)
      && (r.None? ==> forall j :: 0 <= j < |ts| ==> At(ts[j]) != p)
  {
    if ts != [] && At(ts[0]) != p {
      FindAtFacts(ts[1..], p);
      assert forall j :: 1 <= j < |ts| ==> ts[j] == ts[1..][j - 1];
    }
  }

  /** `getTile(p)` in closed form. */
  function TileAt(ts: seq<MapTile>, w: nat, h: nat, p: Point): (r: Option<MapTile>)
    requires Laid(ts, w, h)
    ensures r.Some? <==> InGrid(w, h, p)
    ensures r.Some? ==> At(r.value) == p && r.value in ts
  {
    if InGrid(w, h, p) then
      IndexOfPoint(ts, w, h, p);
      Some(ts[Index(h, p)])
    else None
  }

  /** On a laid grid the search finds the tile at index `x * height + y`, and
      finds one exactly when the point is on the grid. */
  lemma GetTileIsFind(ts: seq<MapTile>, w: nat, h: nat, p: Point)
    requires Laid(ts, w, h)
    ensures FindAt(ts, p) == (if InGrid(w, h, p) then Some(Index(h, p)) else None)
  {
    FindAtFacts(ts, p);
    OnlyTileAt(ts, w, h, p);
    if InGrid(w, h, p) {
      IndexOfPoint(ts, w, h, p);
    }
  }

  /** `getTile(x, y)`: the first tile at the position, `null` when there is none. */
  function GetTile(ts: seq<MapTile>, p: Point): Option<MapTile>
  {
    var i := FindAt(ts, p);
    if i.Some? && i.value < |ts| then Some(ts[i.value]) else None
  }

  /** A tile is found exactly when one lies at the position, and it is one of the tiles. */
  lemma GetTileFacts(ts: seq<MapTile>, p: Point)
    ensures var r := GetTile(ts, p);
      && (r.Some? <==> exists k :: 0 <= k < |ts| && At(ts[k]) == p)
      && (r.Some? ==> r.value in ts && At(r.value) == p)
  {
    FindAtFacts(ts, p);
  }

  /** On a laid grid the search gives the tile at index `x * height + y`, and
      a tile exactly for a position on the grid. */
  lemma GetTileLaid(ts: seq<MapTile>, w: nat, h: nat, p: Point)
    requires Laid(ts, w, h)
    ensures GetTile(ts, p) == TileAt(ts, w, h, p)
    ensures GetTile(ts, p).Some? <==> InGrid(w, h, p)
  {
    FindAtFacts(ts, p);
    GetTileIsFind(ts, w, h, p);
  }

  /** What a painting step does to one tile. */
  datatype Brush =
    | Clear                          // reset: outside, no parent
    | WallOf(owner: Option<MapNode>) // wall; the owner becomes the parent when given
    | PathMark                       // path
    | InsideOf(room: MapNode)        // inside with that parent, unless the tile is a wall
    | SeedDistance                   // distance 0, or infinity on an outside tile

  function Apply(b: Brush, t: MapTile): (r: MapTile)
    ensures r.id == t.id && At(r) == At(t)
  {
    match b
    case Clear => t.(ttype := Outside, parent := None)
    case WallOf(owner) => t.(ttype := Wall, parent := if owner.Some? then owner else t.parent)
    case PathMark => t.(ttype := Path)
    case InsideOf(room) => if t.ttype == Wall then t else t.(ttype := Inside, parent := Some(room))
    case SeedDistance => t.(distance := if t.ttype == Outside then Inf else Fin(0))
  }

  /** Painting a tile twice with the same brush is painting it once. */
  lemma ApplyIdempotent(b: Brush, t: MapTile)
    ensures Apply(b, Apply(b, t)) == Apply(b, t)
  {
  }

  /** The tiles after painting `b` under every point of `pts`. */
  function Painted(ts: seq<MapTile>, pts: seq<Point>, b: Brush): seq<MapTile>
  {
    seq(|ts|, k requires 0 <= k < |ts| => if At(ts[k]) in pts then Apply(b, ts[k]) else ts[k])
  }

  /** Painting keeps the layout. */
  lemma PaintedLaid(ts: seq<MapTile>, w: nat, h: nat, pts: seq<Point>, b: Brush)
    requires Laid(ts, w, h)
    ensures Laid(Painted(ts, pts, b), w, h)
    ensures forall k :: 0 <= k < |ts| ==> At(Painted(ts, pts, b)[k]) == At(ts[k])
  {
  }

  /** Painting one more point changes at most the tile at that point. */
  lemma PaintStep(ts: seq<MapTile>, w: nat, h: nat, pts: seq<Point>, p: Point, b: Brush)
    requires Laid(ts, w, h)
    ensures var before, after := Painted(ts, pts, b), Painted(ts, pts + [p], b);
      && (!InGrid(w, h, p) ==> after == before)
      && (InGrid(w, h, p) ==> 0 <= Index(h, p) < |before| && after == before[Index(h, p) := Apply(b, before[Index(h, p)])])
  {
    var before, after := Painted(ts, pts, b), Painted(ts, pts + [p], b);
    OnlyTileAt(ts, w, h, p);
    if InGrid(w, h, p) {
      IndexOfPoint(ts, w, h, p);
      ApplyIdempotent(b, ts[Index(h, p)]);
    }
  }

  /** Paint `b` on the tile under each point of `pts` that is on the grid:
      `getTile(x, y)`, skip a missing tile, assign. */
  method PaintPoints(ts: seq<MapTile>, w: nat, h: nat, pts: seq<Point>, b: Brush) returns (r: seq<MapTile>)
    requires Laid(ts, w, h)
    ensures r == Painted(ts, pts, b)
  {
    r := ts;
    var j := 0;
    while j < |pts|
      invariant 0 <= j <= |pts|
      invariant r == Painted(ts, pts[..j], b)
    {
      var p := pts[j];
      PaintStep(ts, w, h, pts[..j], p, b);
      PaintedLaid(ts, w, h, pts[..j], b);
      var tile := TileAt(r, w, h, p);
      if tile.Some? {
        var k := Index(h, p);
        r := r[k := Apply(b, r[k])];
      }
      assert pts[..j + 1] == pts[..j] + [p];
      j := j + 1;
    }
    assert pts[..|pts|] == pts;
  }

  /** The geometry of each room, in order. */
  function Rects(ns: seq<MapNode>): (rs: seq<Rect>)
    reads ns`x, ns`y, ns`x0, ns`y0, ns`x1, ns`y1
    ensures |rs| == |ns| && forall i {:trigger rs[i]} :: 0 <= i < |ns| ==> rs[i] == ns[i].Bounds()
  {
    if ns == [] then [] else Rects(ns[..|ns| - 1]) + [ns[|ns| - 1].Bounds()]
  }

  predicate AllProper(rs: seq<Rect>)
  {
    forall i :: 0 <= i < |rs| ==> Proper(rs[i])
  }

  /** The three passes that paint every room in turn. */
  datatype RoomPass =
    | WallPass(owned: bool) // `setWalls`: the room's walls; `owned` when the room becomes their parent
    | InsidePass            // `setInsides`: the room's area, walls excepted
    | SeedPass              // first phase of `setDistances`: the room's area

  function PassPoints(pass: RoomPass, r: Rect): seq<Point>
    requires Proper(r)
  {
    if pass.WallPass? then Walls(r) else Area(r, 0)
  }

  function PassBrush(pass: RoomPass, n: MapNode): Brush
  {
    match pass
    case WallPass(owned) => WallOf(if owned then Some(n) else None)
    case InsidePass => InsideOf(n)
    case SeedPass => SeedDistance
  }

  /** The points a pass paints, room by room. */
  function PassLists(pass: RoomPass, rs: seq<Rect>): (ls: seq<seq<Point>>)
    requires AllProper(rs)
    ensures |ls| == |rs|
  {
    seq(|rs|, i requires 0 <= i < |rs| && AllProper(rs) => PassPoints(pass, rs[i]))
  }

  /** The tiles after a pass that paints the lists `ls` with the brushes of rooms `ns`, in order. */
  function PaintRooms(ts: seq<MapTile>, ls: seq<seq<Point>>, ns: seq<MapNode>, pass: RoomPass): (r: seq<MapTile>)
    requires |ls| == |ns|
    ensures |r| == |ts|
  {
    if ls == [] then ts
    else
      var n := |ls| - 1;
      Painted(PaintRooms(ts, ls[..n], ns[..n], pass), ls[n], PassBrush(pass, ns[n]))
  }

  /** `p` is in one of the lists. */
  predicate InAny(p: Point, ls: seq<seq<Point>>)
  {
    exists i :: 0 <= i < |ls| && p in ls[i]
  }

  lemma InAnySnoc(p: Point, ls: seq<seq<Point>>, l: seq<Point>)
    ensures InAny(p, ls + [l]) <==> InAny(p, ls) || p in l
  {
    if InAny(p, ls) {
      var i :| 0 <= i < |ls| && p in ls[i];
      assert (ls + [l])[i] == ls[i];
    }
    if p in l {
      assert (ls + [l])[|ls|] == l;
    }
  }

  /** What a pass leaves on a tile it painted at least once, starting from `t0`. */
  predicate Effect(pass: RoomPass, t0: MapTile, t: MapTile)
  {
    match pass
    case WallPass(owned) =>
      && t == t0.(ttype := Wall, parent := t.parent)
      && (if owned then t.parent.Some? else t.parent == t0.parent)
    case InsidePass =>
      if t0.ttype == Wall then t == t0 else t == t0.(ttype := Inside, parent := t.parent) && t.parent.Some?
    case SeedPass => t == t0.(distance := if t0.ttype == Outside then Inf else Fin(0))
  }

  /** Painting a room keeps a pass's effect, and gives it to a tile painted for the first time. */
  lemma EffectStep(pass: RoomPass, t0: MapTile, t: MapTile, n: MapNode)
    ensures Effect(pass, t0, Apply(PassBrush(pass, n), t0))
    ensures Effect(pass, t0, t) ==> Effect(pass, t0, Apply(PassBrush(pass, n), t))
  {
  }

  /** A pass leaves every tile outside its rooms' points alone and gives every
      tile under them the pass's effect, whichever rooms cover it. */
  lemma {:induction false} PaintRoomsTile(ts: seq<MapTile>, ls: seq<seq<Point>>, ns: seq<MapNode>, pass: RoomPass, k: int)
    requires |ls| == |ns| && 0 <= k < |ts|
    ensures var r := PaintRooms(ts, ls, ns, pass);
      && |r| == |ts| && At(r[k]) == At(ts[k])
      && (InAny(At(ts[k]), ls) ==> Effect(pass, ts[k], r[k]))
      && (!InAny(At(ts[k]), ls) ==> r[k] == ts[k])
  {
    if ls != [] {
      var n := |ls| - 1;
      assert ls == ls[..n] + [ls[n]];
      InAnySnoc(At(ts[k]), ls[..n], ls[n]);
      PaintRoomsTile(ts, ls[..n], ns[..n], pass, k);
      var prev := PaintRooms(ts, ls[..n], ns[..n], pass);
      assert PaintRooms(ts, ls, ns, pass) == Painted(prev, ls[n], PassBrush(pass, ns[n]));
      EffectStep(pass, ts[k], prev[k], ns[n]);
    }
  }

  /** `PaintRooms` keeps the layout. */
  lemma PaintRoomsLaid(ts: seq<MapTile>, w: nat, h: nat, ls: seq<seq<Point>>, ns: seq<MapNode>, pass: RoomPass)
    requires Laid(ts, w, h) && |ls| == |ns|
    ensures Laid(PaintRooms(ts, ls, ns, pass), w, h)
  {
    forall k | 0 <= k < |ts| ensures At(PaintRooms(ts, ls, ns, pass)[k]) == At(ts[k]) {
      PaintRoomsTile(ts, ls, ns, pass, k);
    }
  }

  /** One more room extends a pass by painting that room's list. */
  lemma PaintRoomsSnoc(ts: seq<MapTile>, ls: seq<seq<Point>>, ns: seq<MapNode>, pass: RoomPass, i: int)
    requires |ls| == |ns| && 0 <= i < |ls|
    ensures PaintRooms(ts, ls[..i + 1], ns[..i + 1], pass)
         == Painted(PaintRooms(ts, ls[..i], ns[..i], pass), ls[i], PassBrush(pass, ns[i]))
  {
    assert ls[..i + 1][..i] == ls[..i] && ns[..i + 1][..i] == ns[..i];
  }

  /** One pass over the rooms `ns` with geometry `rs`, each painted in turn through `PaintPoints`. */
  method PaintRoomsOf(ts: seq<MapTile>, w: nat, h: nat, rs: seq<Rect>, ns: seq<MapNode>, pass: RoomPass) returns (r: seq<MapTile>)
    requires Laid(ts, w, h) && AllProper(rs) && |rs| == |ns|
    ensures r == PaintRooms(ts, PassLists(pass, rs), ns, pass)
  {
    ghost var ls := PassLists(pass, rs);
    r := ts;
    var i := 0;
    while i < |ns|
      invariant 0 <= i <= |ns|
      invariant r == PaintRooms(ts, ls[..i], ns[..i], pass) && Laid(r, w, h)
    {
      var pts := PassPoints(pass, rs[i]);
      assert pts == ls[i];
      r := PaintPoints(r, w, h, pts, PassBrush(pass, ns[i]));
      PaintRoomsSnoc(ts, ls, ns, pass, i);
      PaintRoomsLaid(ts, w, h, ls[..i + 1], ns[..i + 1], pass);
      i := i + 1;
    }
    assert ls[..|ns|] == ls && ns[..|ns|] == ns;
  }

  /** Painting the same brush over two lists in turn is painting it over
      their concatenation: every brush is idempotent. */
  lemma PaintedConcat(ts: seq<MapTile>, a: seq<Point>, c: seq<Point>, b: Brush)
    ensures Painted(Painted(ts, a, b), c, b) == Painted(ts, a + c, b)
  {
    var mid := Painted(ts, a, b);
    forall k | 0 <= k < |ts| ensures Painted(mid, c, b)[k] == Painted(ts, a + c, b)[k] {
      ApplyIdempotent(b, ts[k]);
    }
  }

  /** All the lists of `ls`, one after the other. */
  function Flatten(ls: seq<seq<Point>>): (pts: seq<Point>)
    ensures forall p :: p in pts <==> InAny(p, ls)
  {
    if ls == [] then []
    else
      var n := |ls| - 1;
      InAnySnoc(Point(0, 0), [], []);
      var front := Flatten(ls[..n]);
      assert ls == ls[..n] + [ls[n]];
      forall p ensures p in front + ls[n] <==> InAny(p, ls) {
        InAnySnoc(p, ls[..n], ls[n]);
      }
      front + ls[n]
  }

  /** Painting list `i` after the lists before it paints the lists up to `i`. */
  lemma PaintNext(ts: seq<MapTile>, ls: seq<seq<Point>>, i: int, b: Brush)
    requires 0 <= i < |ls|
    ensures Painted(Painted(ts, Flatten(ls[..i]), b), ls[i], b) == Painted(ts, Flatten(ls[..i + 1]), b)
  {
    PaintedConcat(ts, Flatten(ls[..i]), ls[i], b);
    assert ls[..i + 1][..i] == ls[..i];
  }

  /** Paint `b` under every list of `ls` in turn, each through `PaintPoints`. */
  method PaintLists(ts: seq<MapTile>, w: nat, h: nat, ls: seq<seq<Point>>, b: Brush) returns (r: seq<MapTile>)
    requires Laid(ts, w, h)
    ensures r == Painted(ts, Flatten(ls), b)
  {
    r := ts;
    var i := 0;
    while i < |ls|
      invariant 0 <= i <= |ls|
      invariant r == Painted(ts, Flatten(ls[..i]), b)
    {
      PaintedLaid(ts, w, h, Flatten(ls[..i]), b);
      r := PaintPoints(r, w, h, ls[i], b);
      PaintedConcat(ts, Flatten(ls[..i]), ls[i], b);
      assert ls[..i + 1][..i] == ls[..i];
      i := i + 1;
    }
    assert ls[..|ls|] == ls;
  }

  /** The tiles after the reset that opens `setTiles`: every tile outside
      and without a parent, its position, id and distance kept. */
  function Cleared(ts: seq<MapTile>): (r: seq<MapTile>)
    ensures |r| == |ts|
    ensures forall k :: 0 <= k < |ts| ==> r[k].ttype == Outside && r[k].parent == None
    ensures forall k :: 0 <= k < |ts| ==> r[k] == ts[k].(ttype := r[k].ttype, parent := r[k].parent)
  {
    seq(|ts|, k requires 0 <= k < |ts| => Apply(Clear, ts[k]))
  }

  /** The reset keeps the layout. */
  lemma ClearedLaid(ts: seq<MapTile>, w: nat, h: nat)
    requires Laid(ts, w, h)
    ensures Laid(Cleared(ts), w, h)
  {
    assert forall k :: 0 <= k < |ts| ==> At(Cleared(ts)[k]) == At(ts[k]);
  }

  /** `for (const tile of this.tiles) { tile.type = 'outside'; tile.parent = null }`. */
  method ClearAll(ts: seq<MapTile>) returns (r: seq<MapTile>)
    ensures r == Cleared(ts)
  {
    r := ts;
    var k := 0;
    while k < |r|
      invariant 0 <= k <= |r| && |r| == |ts|
      invariant r[..k] == Cleared(ts)[..k] && r[k..] == ts[k..]
    {
      r := r[k := Apply(Clear, r[k])];
      k := k + 1;
    }
  }

  /** The tiles the constructor lays: tile `k` gets the `k`-th fresh id, type
      outside and position `(k / h, k % h)`. */
  function Blank(ids: seq<Id>, w: nat, h: nat): seq<MapTile>
    requires |ids| == w * h
  {
    seq(|ids|, k requires 0 <= k < |ids| => NewTile(ids[k], Outside, k / h, k % h))
  }

  /** The constructor's grid is laid out column after column, every tile outside. */
  lemma BlankLaid(ids: seq<Id>, w: nat, h: nat)
    requires |ids| == w * h
    ensures Laid(Blank(ids, w, h), w, h)
    ensures forall k :: 0 <= k < |ids| ==> Blank(ids, w, h)[k].ttype == Outside && Blank(ids, w, h)[k].id == ids[k]
  {
    var ts := Blank(ids, w, h);
    forall k | 0 <= k < |ts| ensures InGrid(w, h, At(ts[k])) && Index(h, At(ts[k])) == k {
      assert h > 0;
      var q := k / h;
      assert k == q * h + k % h && w * h == h * w;
      if q >= w {
        MulMonotone(w, q, h);
      }
    }
  }

  /** The tile the constructor lays for column `i`, row `j`. */
  lemma BlankAt(ids: seq<Id>, w: nat, h: nat, i: int, j: int)
    requires |ids| == w * h && 0 <= i < w && 0 <= j < h
    ensures 0 <= i * h + j < |ids|
    ensures Blank(ids, w, h)[i * h + j] == NewTile(ids[i * h + j], Outside, i, j)
  {
    IndexInRange(i, j, h, w);
    DivModOf(i, j, h);
    assert h * w == w * h;
  }

  /** The constructor's nested loops: column `i`, then row `j`, one outside tile each. */
  method MakeTiles(ids: seq<Id>, w: nat, h: nat) returns (ts: seq<MapTile>)
    requires |ids| == w * h
    ensures ts == Blank(ids, w, h)
  {
    ghost var all := Blank(ids, w, h);
    ts := [];
    var i := 0;
    while i < w
      invariant 0 <= i <= w && |ts| == i * h && |ts| <= |all|
      invariant ts == all[..|ts|]
    {
      var j := 0;
      while j < h
        invariant 0 <= j <= h && |ts| == i * h + j && |ts| <= |all|
        invariant ts == all[..|ts|]
      {
        BlankAt(ids, w, h, i, j);
        var k := i * h + j;
        assert all[..k + 1] == all[..k] + [all[k]];
        ts := ts + [NewTile(ids[k], Outside, i, j)];
        if j + 1 < h {
          BlankAt(ids, w, h, i, j + 1);
        } else if i + 1 < w {
          BlankAt(ids, w, h, i + 1, 0);
        }
        j := j + 1;
      }
      assert (i + 1) * h == i * h + h;
      i := i + 1;
    }
    assert |ts| == |all| by {
      assert w * h == i * h;
    }
  }
}
