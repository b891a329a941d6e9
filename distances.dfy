/** `setDistances`: every tile's distance to the nearest room interior. Room
    areas are seeded with zero (infinity on an outside tile), then relaxation
    passes walk the tiles in index order and lower a tile to one more than
    its lowest 4-neighbour, skipping interior tiles. A pass reads the
    distances it has already lowered. */
module Distances {
  import opened Common
  import opened Node
  import opened Tile
  import opened Grid

  /** `getTileNeighbors` positions: up, right, down, left. */
  function NeighbourPoints(p: Point): (qs: seq<Point>)
    ensures |qs| == 4 && forall i :: 0 <= i < 4 ==> Adjacent4(p, qs[i])
  {
    [Point(p.x, p.y - 1), Point(p.x + 1, p.y), Point(p.x, p.y + 1), Point(p.x - 1, p.y)]
  }

  /** `getTileNeighbors(tile)`: the tiles at the four neighbouring positions, `null` where there is none. */
  function TileNeighbours(ts: seq<MapTile>, p: Point): (nb: seq<Option<MapTile>>)
    ensures |nb| == 4
  {
    var qs := NeighbourPoints(p);
    [GetTile(ts, qs[0]), GetTile(ts, qs[1]), GetTile(ts, qs[2]), GetTile(ts, qs[3])]
  }

  /** Each neighbour found is one of the tiles, 4-adjacent to `p`, at its
      position in up, right, down, left order. */
  lemma NeighboursFacts(ts: seq<MapTile>, p: Point)
    ensures var nb, qs := TileNeighbours(ts, p), NeighbourPoints(p);
      forall i :: 0 <= i < 4 && nb[i].Some? ==> At(nb[i].value) == qs[i] && Adjacent4(p, qs[i]) && nb[i].value in ts
  {
    var qs := NeighbourPoints(p);
    GetTileFacts(ts, qs[0]);
    GetTileFacts(ts, qs[1]);
    GetTileFacts(ts, qs[2]);
    GetTileFacts(ts, qs[3]);
  }

  /** On a laid grid a neighbour is missing exactly when its position is off the grid. */
  lemma NeighboursOnGrid(ts: seq<MapTile>, w: nat, h: nat, p: Point)
    requires Laid(ts, w, h)
    ensures forall i :: 0 <= i < 4 ==> (TileNeighbours(ts, p)[i].Some? <==> InGrid(w, h, NeighbourPoints(p)[i]))
  {
    var qs := NeighbourPoints(p);
    GetTileLaid(ts, w, h, qs[0]);
    GetTileLaid(ts, w, h, qs[1]);
    GetTileLaid(ts, w, h, qs[2]);
    GetTileLaid(ts, w, h, qs[3]);
  }

  /** `n?.distanceToInside ?? Infinity`. */
  function DistOr(t: Option<MapTile>): Dist
  {
    if t.Some? then t.value.distance else Inf
  }

  /** `a <= b` on distances. */
  predicate AtMost(a: Dist, b: Dist)
  {
    !Below(b, a)
  }

  lemma AtMostTrans(a: Dist, b: Dist, c: Dist)
    requires AtMost(a, b) && AtMost(b, c)
    ensures AtMost(a, c)
  {
  }

  /** `getTileNeighborsLowestDistance`: `Math.min` over the four neighbours,
      a missing neighbour counting as infinitely far. */
  function LowestNeighbour(ts: seq<MapTile>, p: Point): Dist
  {
    var nb := TileNeighbours(ts, p);
    Lower(Lower(Lower(DistOr(nb[0]), DistOr(nb[1])), DistOr(nb[2])), DistOr(nb[3]))
  }

  /** The lowest distance is one of the four and no neighbour is closer. */
  lemma LowestIsMin(ts: seq<MapTile>, p: Point)
    ensures var d, nb := LowestNeighbour(ts, p), TileNeighbours(ts, p);
      && (exists i :: 0 <= i < 4 && d == DistOr(nb[i]))
      && (forall i :: 0 <= i < 4 ==> AtMost(d, DistOr(nb[i])))
  {
    var nb := TileNeighbours(ts, p);
    var a := Lower(DistOr(nb[0]), DistOr(nb[1]));
    var b := Lower(a, DistOr(nb[2]));
    assert LowestNeighbour(ts, p) == Lower(b, DistOr(nb[3]));
  }

  /** No tile holds a negative distance. */
  predicate NonNeg(ts: seq<MapTile>)
  {
    forall k :: 0 <= k < |ts| && ts[k].distance.Fin? ==> ts[k].distance.n >= 0
  }

  /** The lowest neighbour in tiles without negative distances is not negative. */
  lemma LowestNonNeg(ts: seq<MapTile>, p: Point)
    requires NonNeg(ts)
    ensures LowestNeighbour(ts, p).Fin? ==> LowestNeighbour(ts, p).n >= 0
  {
    LowestIsMin(ts, p);
    NeighboursFacts(ts, p);
    var nb := TileNeighbours(ts, p);
    var i :| 0 <= i < 4 && LowestNeighbour(ts, p) == DistOr(nb[i]);
    if nb[i].Some? {
      var k :| 0 <= k < |ts| && ts[k] == nb[i].value;
    }
  }

  /** `r` differs from `ts` at most in the distances. */
  predicate DistanceOnly(ts: seq<MapTile>, r: seq<MapTile>)
  {
    |r| == |ts| && forall k :: 0 <= k < |ts| ==> r[k] == ts[k].(distance := r[k].distance)
  }

  /** Changing distances only keeps the layout. */
  lemma DistanceOnlyLaid(ts: seq<MapTile>, r: seq<MapTile>, w: nat, h: nat)
    requires Laid(ts, w, h) && DistanceOnly(ts, r)
    ensures Laid(r, w, h)
  {
    assert forall k :: 0 <= k < |ts| ==> At(r[k]) == At(ts[k]);
  }

  /** One step of the relaxation pass, on tile `k` of the current tiles `ts`. */
  function RelaxTile(ts: seq<MapTile>, k: int): (t: MapTile)
    requires 0 <= k < |ts|
    ensures t == ts[k].(distance := t.distance)
  {
    var tile := ts[k];
    if tile.ttype == Inside then tile
    else
      var lowest := LowestNeighbour(ts, At(tile));
      if Below(lowest, tile.distance) then tile.(distance := Fin(lowest.n + 1)) else tile
  }

  /** A step leaves an interior tile alone, never raises a distance and,
      among tiles without negative distances, gives none. */
  lemma RelaxTileFacts(ts: seq<MapTile>, k: int)
    requires 0 <= k < |ts|
    ensures var t := RelaxTile(ts, k);
      && (ts[k].ttype == Inside ==> t == ts[k])
      && AtMost(t.distance, ts[k].distance)
      && (NonNeg(ts) && t.distance.Fin? ==> t.distance.n >= 0)
  {
    if NonNeg(ts) {
      LowestNonNeg(ts, At(ts[k]));
    }
  }

  /** A distance a step changes becomes one more than a neighbour's, a
      neighbour no other neighbour is closer than. */
  lemma RelaxTileNeighbour(ts: seq<MapTile>, k: int)
    requires 0 <= k < |ts|
    ensures var t, nb := RelaxTile(ts, k), TileNeighbours(ts, At(ts[k]));
      t.distance != ts[k].distance ==>
        && t.distance.Fin? && ts[k].ttype != Inside
        && (exists i :: 0 <= i < 4 && DistOr(nb[i]) == Fin(t.distance.n - 1))
        && (forall i :: 0 <= i < 4 ==> AtMost(Fin(t.distance.n - 1), DistOr(nb[i])))
  {
    LowestIsMin(ts, At(ts[k]));
  }

  /** The tiles after the relaxation pass has visited indices `0 .. n - 1`. */
  function RelaxUpTo(ts: seq<MapTile>, n: int): (r: seq<MapTile>)
    requires 0 <= n <= |ts|
    ensures |r| == |ts|
    decreases n
  {
    if n == 0 then ts
    else
      var prev := RelaxUpTo(ts, n - 1);
      prev[n - 1 := RelaxTile(prev, n - 1)]
  }

  /** One relaxation pass: `pass()` in `setDistances`. */
  method RelaxPass(ts: seq<MapTile>) returns (r: seq<MapTile>)
    ensures r == RelaxUpTo(ts, |ts|)
  {
    r := ts;
    var i := 0;
    while i < |ts|
      invariant 0 <= i <= |ts| && r == RelaxUpTo(ts, i)
    {
      var tile := r[i];
      if tile.ttype != Inside {
        var lowest := LowestNeighbour(r, At(tile));
        if Below(lowest, tile.distance) {
          r := r[i := tile.(distance := Fin(lowest.n + 1))];
        }
      }
      i := i + 1;
    }
  }

  /** A relaxation pass changes distances only, leaves interior tiles alone
      and raises no distance. */
  lemma {:induction false} RelaxFacts(ts: seq<MapTile>, n: int)
    requires 0 <= n <= |ts|
    ensures var r := RelaxUpTo(ts, n);
      && DistanceOnly(ts, r)
      && (forall k :: 0 <= k < |ts| && ts[k].ttype == Inside ==> r[k] == ts[k])
      && (forall k :: 0 <= k < |ts| ==> AtMost(r[k].distance, ts[k].distance))
  {
    if n > 0 {
      RelaxFacts(ts, n - 1);
      var prev := RelaxUpTo(ts, n - 1);
      var t := RelaxTile(prev, n - 1);
      RelaxTileFacts(prev, n - 1);
      var r := prev[n - 1 := t];
      assert RelaxUpTo(ts, n) == r;
      forall k | 0 <= k < |ts|
        ensures r[k] == ts[k].(distance := r[k].distance)
        ensures ts[k].ttype == Inside ==> r[k] == ts[k]
        ensures AtMost(r[k].distance, ts[k].distance)
      {
        if k == n - 1 {
          AtMostTrans(t.distance, prev[k].distance, ts[k].distance);
        }
      }
    }
  }

  /** On tiles without negative distances a pass creates none. */
  lemma {:induction false} RelaxNonNeg(ts: seq<MapTile>, n: int)
    requires 0 <= n <= |ts| && NonNeg(ts)
    ensures NonNeg(RelaxUpTo(ts, n))
  {
    if n > 0 {
      RelaxNonNeg(ts, n - 1);
      var prev := RelaxUpTo(ts, n - 1);
      RelaxTileFacts(prev, n - 1);
      assert RelaxUpTo(ts, n) == prev[n - 1 := RelaxTile(prev, n - 1)];
    }
  }

  /** The tiles after `passes` relaxation passes. */
  function Relaxed(ts: seq<MapTile>, passes: nat): (r: seq<MapTile>)
    ensures |r| == |ts|
  {
    if passes == 0 then ts
    else
      var prev := Relaxed(ts, passes - 1);
      RelaxUpTo(prev, |prev|)
  }

  /** The loop `for (let i = 0; i < passes; i++) pass()`. */
  method RelaxPasses(ts: seq<MapTile>, passes: nat) returns (r: seq<MapTile>)
    ensures r == Relaxed(ts, passes)
  {
    r := ts;
    var i := 0;
    while i < passes
      invariant 0 <= i <= passes && r == Relaxed(ts, i)
    {
      r := RelaxPass(r);
      i := i + 1;
    }
  }

  /** Any number of passes keeps the facts of one. */
  lemma {:induction false} RelaxedFacts(ts: seq<MapTile>, passes: nat)
    ensures var r := Relaxed(ts, passes);
      && DistanceOnly(ts, r)
      && (forall k :: 0 <= k < |ts| && ts[k].ttype == Inside ==> r[k] == ts[k])
      && (forall k :: 0 <= k < |ts| ==> AtMost(r[k].distance, ts[k].distance))
      && (NonNeg(ts) ==> NonNeg(r))
  {
    if passes > 0 {
      RelaxedFacts(ts, passes - 1);
      var prev := Relaxed(ts, passes - 1);
      RelaxFacts(prev, |prev|);
      if NonNeg(ts) {
        RelaxNonNeg(prev, |prev|);
      }
      var r := Relaxed(ts, passes);
      forall k | 0 <= k < |ts|
        ensures r[k] == ts[k].(distance := r[k].distance)
        ensures AtMost(r[k].distance, ts[k].distance)
      {
        AtMostTrans(r[k].distance, prev[k].distance, ts[k].distance);
      }
    }
  }

  /** The tiles after `setDistances(nodes, passes)`, with `ls` the areas of the rooms `ns`. */
  function Distanced(ts: seq<MapTile>, ls: seq<seq<Point>>, ns: seq<MapNode>, passes: nat): seq<MapTile>
    requires |ls| == |ns|
  {
    Relaxed(PaintRooms(ts, ls, ns, SeedPass), passes)
  }

  /** The seeding pass sets a room-area tile to zero, or to infinity when it
      is outside, and leaves every other tile and every other field alone. */
  lemma {:induction false} SeedFacts(ts: seq<MapTile>, ls: seq<seq<Point>>, ns: seq<MapNode>)
    requires |ls| == |ns|
    ensures var s := PaintRooms(ts, ls, ns, SeedPass);
      && DistanceOnly(ts, s)
      && (forall k :: 0 <= k < |ts| && InAny(At(ts[k]), ls) ==>
            s[k].distance == if ts[k].ttype == Outside then Inf else Fin(0))
      && (forall k :: 0 <= k < |ts| && !InAny(At(ts[k]), ls) ==> s[k] == ts[k])
      && (NonNeg(ts) ==> NonNeg(s))
  {
    var s := PaintRooms(ts, ls, ns, SeedPass);
    forall k | 0 <= k < |ts|
      ensures s[k] == ts[k].(distance := s[k].distance)
      ensures InAny(At(ts[k]), ls) ==> s[k].distance == if ts[k].ttype == Outside then Inf else Fin(0)
      ensures !InAny(At(ts[k]), ls) ==> s[k] == ts[k]
    {
      PaintRoomsTile(ts, ls, ns, SeedPass, k);
    }
  }

  /** After `setDistances` only distances have changed; an interior tile in
      some room's area is at distance zero; and no distance is negative when
      none was before. */
  lemma SetDistancesFacts(ts: seq<MapTile>, ls: seq<seq<Point>>, ns: seq<MapNode>, passes: nat)
    requires |ls| == |ns|
    ensures var r := Distanced(ts, ls, ns, passes);
      && DistanceOnly(ts, r)
      && (forall k :: 0 <= k < |ts| && InAny(At(ts[k]), ls) && ts[k].ttype == Inside ==> r[k].distance == Fin(0))
      && (forall k :: 0 <= k < |ts| && InAny(At(ts[k]), ls) && ts[k].ttype != Outside ==> AtMost(r[k].distance, Fin(0)))
      && (NonNeg(ts) ==> NonNeg(r))
  {
    var s := PaintRooms(ts, ls, ns, SeedPass);
    SeedFacts(ts, ls, ns);
    RelaxedFacts(s, passes);
    var r := Distanced(ts, ls, ns, passes);
    forall k | 0 <= k < |ts|
      ensures r[k] == ts[k].(distance := r[k].distance)
    {
    }
  }

  /** `setDistances(nodes, passes)`: seed the rooms' areas, then relax `passes` times. */
  method SetDistances(ts: seq<MapTile>, w: nat, h: nat, rs: seq<Rect>, ns: seq<MapNode>, passes: nat) returns (r: seq<MapTile>)
    requires Laid(ts, w, h) && AllProper(rs) && |rs| == |ns|
    ensures r == Distanced(ts, PassLists(SeedPass, rs), ns, passes)
  {
    r := PaintRoomsOf(ts, w, h, rs, ns, SeedPass);
    r := RelaxPasses(r, passes);
  }
}
