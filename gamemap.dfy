/** `GameMap`: the older rasteriser and the layout loop. The map owns a room
    graph and a `width` by `height` grid of tiles. `setTiles` paints walls
    (without owners), corridors along the column split, then interiors; `step`
    nudges and grows every room while it stays inside the margins and clear
    of the others, drops a random connection, and marks the farthest pair. */
module GameMapModel {
  import opened Common
  import opened Node
  import opened Reach
  import opened Graph
  import opened Lines
  import opened Tile
  import opened DualTile
  import opened Grid
  import opened DualGrid
  import opened Raster
  import opened Random

  /** `p` keeps a margin of `b` from every side of the `w` by `h` map. */
  predicate WithinMargin(w: int, h: int, b: int, p: Point)
  {
    b <= p.x < w - b && b <= p.y < h - b
  }

  /** A room's footprint keeps the margin, in closed form. */
  predicate Fits(r: Rect, w: int, h: int, b: int)
  {
    b <= r.x + r.x0 && r.x + r.x1 <= w - b && b <= r.y + r.y0 && r.y + r.y1 <= h - b
  }

  /** `isInBounds(node, buffer)` on the room's geometry: scan the area and
      answer false at the first point outside the margin. */
  method IsInBoundsOf(r: Rect, w: int, h: int, b: int) returns (ok: bool)
    requires Proper(r)
    ensures ok <==> forall p :: p in Area(r, 0) ==> WithinMargin(w, h, b, p)
  {
    var area := Area(r, 0);
    var i := 0;
    while i < |area|
      invariant 0 <= i <= |area|
      invariant forall j :: 0 <= j < i ==> WithinMargin(w, h, b, area[j])
    {
      var a := area[i];
      if a.x < 0 + b || a.x >= w - b || a.y < 0 + b || a.y >= h - b {
        assert area[i] in Area(r, 0) && !WithinMargin(w, h, b, area[i]);
        return false;
      }
      i := i + 1;
    }
    return true;
  }

  /** Every area point keeps the margin exactly when the footprint's first
      and last columns and rows do. */
  lemma FitsIff(r: Rect, w: int, h: int, b: int)
    requires Proper(r)
    ensures (forall p :: p in Area(r, 0) ==> WithinMargin(w, h, b, p)) <==> Fits(r, w, h, b)
  {
    var first, last := Point(r.x + r.x0, r.y + r.y0), Point(r.x + r.x1 - 1, r.y + r.y1 - 1);
    assert InBox(r, 0, first) && InBox(r, 0, last);
    assert first in Area(r, 0) && last in Area(r, 0);
    if Fits(r, w, h, b) {
      forall p | p in Area(r, 0) ensures WithinMargin(w, h, b, p) {
        assert InBox(r, 0, p);
      }
    }
  }

  /** The corridor `setPaths` draws for an edge between rooms `r1` and `r2`
      with entrances `en1` and `en2`: each room's entrance on the side facing
      the other room's origin, joined by the column split. */
  function MapEdgePoints(r1: Rect, en1: Entrances, r2: Rect, en2: Entrances): seq<Point>
    requires Proper(r1) && Proper(r2)
  {
    var p1 := EntranceCoordinates(r1, en1, EntranceDirectionClosestTo(Origin(r1), Origin(r2)));
    var p2 := EntranceCoordinates(r2, en2, EntranceDirectionClosestTo(Origin(r2), Origin(r1)));
    ColumnSplit(p1, p2)
  }

  /** The corridor starts at the first room's entrance on the side facing the
      second room, and walks in 4-steps up to the second room's entrance,
      which it does not paint; its length is the Manhattan distance. */
  lemma MapEdgeFacts(r1: Rect, en1: Entrances, r2: Rect, en2: Entrances)
    requires Proper(r1) && Proper(r2)
    ensures var s1 := EntranceDirectionClosestTo(Origin(r1), Origin(r2));
      var s2 := EntranceDirectionClosestTo(Origin(r2), Origin(r1));
      var p1, p2 := EntranceCoordinates(r1, en1, s1), EntranceCoordinates(r2, en2, s2);
      && Walk(MapEdgePoints(r1, en1, r2, en2), p1, p2)
      && |MapEdgePoints(r1, en1, r2, en2)| == Abs(p2.x - p1.x) + Abs(p2.y - p1.y)
      && (s1 == Left || s1 == Right <==> s2 == Left || s2 == Right)
  {
    var p1 := EntranceCoordinates(r1, en1, EntranceDirectionClosestTo(Origin(r1), Origin(r2)));
    var p2 := EntranceCoordinates(r2, en2, EntranceDirectionClosestTo(Origin(r2), Origin(r1)));
    ColumnSplitWalk(p1, p2);
  }

  /** Both rooms of each edge, with their entrances. */
  function EdgeEntrances(es: seq<GraphEdge>): (ens: seq<(Entrances, Entrances)>)
    reads Ends(es)`entrances
    ensures |ens| == |es| && forall i {:trigger ens[i]} :: 0 <= i < |es| ==> ens[i] == (es[i].node1.entrances, es[i].node2.entrances)
  {
    if es == [] then [] else EdgeEntrances(es[..|es| - 1]) + [(es[|es| - 1].node1.entrances, es[|es| - 1].node2.entrances)]
  }

  /** The tiles `ts` redrawn for rooms `ns` laid out as `rs`, with `ers` and
      `ens` the rooms and entrances at both ends of every corridor. */
  function Drawn(ts: seq<MapTile>, rs: seq<Rect>, ns: seq<MapNode>, ers: seq<(Rect, Rect)>, ens: seq<(Entrances, Entrances)>): seq<MapTile>
    requires AllProper(rs) && |rs| == |ns| && |ers| == |ens| && ProperPairs(ers)
  {
    Rasterised(ts, rs, ns, false, Flatten(MapPathLists(ers, ens)))
  }

  /** The corridor points of every edge, in order. */
  function MapPathLists(rs: seq<(Rect, Rect)>, ens: seq<(Entrances, Entrances)>): (ls: seq<seq<Point>>)
    requires |rs| == |ens| && ProperPairs(rs)
    ensures |ls| == |rs|
  {
    seq(|rs|, i => EdgePointsAt(rs, ens, i))
  }

  /** The corridor points of the `i`-th edge (none past the end). */
  function EdgePointsAt(rs: seq<(Rect, Rect)>, ens: seq<(Entrances, Entrances)>, i: int): seq<Point>
  {
    if 0 <= i < |rs| && i < |ens| && Proper(rs[i].0) && Proper(rs[i].1) then
      MapEdgePoints(rs[i].0, ens[i].0, rs[i].1, ens[i].1)
    else []
  }

  /** `setPaths(edges)` on tiles `ts`, edge by edge. */
  method MapPathsOf(ts: seq<MapTile>, w: nat, h: nat, rs: seq<(Rect, Rect)>, ens: seq<(Entrances, Entrances)>)
    returns (r: seq<MapTile>)
    requires Laid(ts, w, h) && |rs| == |ens| && ProperPairs(rs)
    ensures r == Painted(ts, Flatten(MapPathLists(rs, ens)), PathMark)
  {
    ghost var ls := MapPathLists(rs, ens);
    r := ts;
    var i := 0;
    while i < |rs|
      invariant 0 <= i <= |rs|
      invariant r == Painted(ts, Flatten(ls[..i]), PathMark)
    {
      PaintedLaid(ts, w, h, Flatten(ls[..i]), PathMark);
      var (r1, r2) := rs[i];
      var (en1, en2) := ens[i];
      var p1 := EntranceCoordinates(r1, en1, EntranceDirectionClosestTo(Origin(r1), Origin(r2)));
      var p2 := EntranceCoordinates(r2, en2, EntranceDirectionClosestTo(Origin(r2), Origin(r1)));
      var pts := ManhattanLineMap(p1, p2);
      assert pts == ls[i];
      r := PaintPoints(r, w, h, pts, PathMark);
      PaintNext(ts, ls, i, PathMark);
      i := i + 1;
    }
    assert ls[..|ls|] == ls;
  }

  /** What the older `setTiles` leaves: walls have no owner, so a tile has a
      parent exactly when it is an interior tile; a tile in some room's area
      is a wall or an interior tile, any other tile outside or a path; a
      corridor through a wall opens it into the interior. */
  lemma MapTilesFacts(ts: seq<MapTile>, rs: seq<Rect>, ns: seq<MapNode>, paths: seq<Point>)
    requires AllProper(rs) && |rs| == |ns|
    ensures var r := Rasterised(ts, rs, ns, false, paths);
      && |r| == |ts|
      && forall k :: 0 <= k < |ts| ==>
        var p := At(ts[k]);
        && (r[k].parent.Some? <==> r[k].ttype == Inside)
        && (InAny(p, PassLists(InsidePass, rs)) ==> r[k].ttype == Wall || r[k].ttype == Inside)
        && (!InAny(p, PassLists(InsidePass, rs)) ==> r[k].ttype == Outside || r[k].ttype == Path)
        && (InAny(p, PassLists(WallPass(false), rs)) && p in paths ==> r[k].ttype == Inside)
        && r[k] == ts[k].(ttype := r[k].ttype, parent := r[k].parent)
  {
    RasterFacts(ts, rs, ns, false, paths);
    forall k | 0 <= k < |ts| ensures InAny(At(ts[k]), PassLists(WallPass(false), rs)) ==> InAny(At(ts[k]), PassLists(InsidePass, rs)) {
      WallsInAreas(rs, false, At(ts[k]));
    }
  }

  /** The four growth directions `increaseSize` tries, in the order it tries
      them: the shuffle swaps local copies only. */
  const GrowOrder: seq<ResizeOp> := [AddTop, AddRight, AddBottom, AddLeft]

  /** The shrink that undoes growth `op`. */
  function Undo(op: ResizeOp): ResizeOp
  {
    match op
    case AddTop => RemoveTop
    case AddRight => RemoveRight
    case AddBottom => RemoveBottom
    case AddLeft => RemoveLeft
    case RemoveTop => AddTop
    case RemoveRight => AddRight
    case RemoveBottom => AddBottom
    case RemoveLeft => AddLeft
  }

  /** On a room of area at least one, growing never reverts and shrinking
      back restores the geometry. */
  lemma GrowThenUndo(r: Rect, k: int)
    requires Proper(r) && 0 <= k < 4
    ensures Resized(r, GrowOrder[k]) == Tentative(r, GrowOrder[k]) && Proper(Tentative(r, GrowOrder[k]))
    ensures Resized(Tentative(r, GrowOrder[k]), Undo(GrowOrder[k])) == r
    ensures !Reverts(r, GrowOrder[k]) && !Reverts(Tentative(r, GrowOrder[k]), Undo(GrowOrder[k]))
  {
    var t := Tentative(r, GrowOrder[k]);
    ResizeFacts(r, GrowOrder[k]);
    assert Width(t) >= 1 && Height(t) >= 1;
    assert Tentative(t, Undo(GrowOrder[k])) == r;
    ResizeFacts(t, Undo(GrowOrder[k]));
  }

  /** The stalled-step counter as written: `hash()` hands back a new pending
      digest each call, and `===` compares the two promise objects, which are
      never the same object, whatever digests they will yield. */
  datatype PendingDigest = PendingDigest(serial: nat, geometry: seq<Rect>)

  function NextStalledAsWritten(count: nat, before: PendingDigest, after: PendingDigest): nat
  {
    if before == after then count + 1 else 0
  }

  /** Two calls never share a promise, so the counter is reset even when no
      room moved. */
  lemma StalledAsWrittenResets(count: nat, g: seq<Rect>)
    ensures NextStalledAsWritten(count, PendingDigest(0, g), PendingDigest(1, g)) == 0
  {
  }

  /** The counter as intended: compare the digests of the room geometry
      (digests taken as collision-free), counting steps that changed nothing. */
  function NextStalled(count: nat, before: seq<Rect>, after: seq<Rect>): (c: nat)
    ensures c == 0 || c == count + 1
  {
    if before == after then count + 1 else 0
  }

  /** An unchanged layout extends the run of stalled steps; any change ends it. */
  lemma StalledCounts(count: nat, before: seq<Rect>, after: seq<Rect>)
    ensures NextStalled(count, before, after) == count + 1 <==> before == after
    ensures NextStalled(count, before, after) == 0 <==> before != after
  {
  }

  /** The footprints of two rooms lie on either side of some row or column
      line, so they share no floor tile. */
  predicate Apart(a: Rect, b: Rect)
  {
    || a.x + a.x1 <= b.x + b.x0 || b.x + b.x1 <= a.x + a.x0
    || a.y + a.y1 <= b.y + b.y0 || b.y + b.y1 <= a.y + a.y0
  }

  /** A room that no buffered area of another room reaches shares no floor
      tile with it, whichever of the two is asked. */
  lemma ApartIfClear(o: Rect, t: Rect, buffer: nat)
    requires Proper(o) && Proper(t) && !Overlaps(o, t, buffer)
    ensures Apart(o, t) && Apart(t, o)
  {
    if !Apart(o, t) {
      var p := Point(Max(o.x + o.x0, t.x + t.x0), Max(o.y + o.y0, t.y + t.y0));
      assert InBox(o, buffer, p);
      assert p in Area(o, buffer) && HasPoint(t, p);
      assert false;
    }
  }

  /** The map's size and the two buffers of the layout moves. */
  datatype Limits = Limits(width: int, height: int, wallBuffer: nat, overlapBuffer: nat)

  /** Some room of layout `rs` other than the `k`-th reaches `r` with its
      buffered area. */
  predicate CollidesAt(rs: seq<Rect>, k: int, r: Rect, buffer: nat)
  {
    exists i {:trigger Overlaps(rs[i], r, buffer)} :: 0 <= i < |rs| && i != k && Proper(rs[i]) && Overlaps(rs[i], r, buffer)
  }

  /** Room `k` at `r` is out of bounds or overlapping: the test after every move. */
  predicate BlockedAt(rs: seq<Rect>, k: int, r: Rect, lim: Limits)
  {
    !Fits(r, lim.width, lim.height, lim.wallBuffer) || CollidesAt(rs, k, r, lim.overlapBuffer)
  }

  /** Translate room `k` by `(dx, dy)`, and back again when that blocks it. */
  function Nudged(rs: seq<Rect>, k: int, dx: int, dy: int, lim: Limits): seq<Rect>
    requires 0 <= k < |rs|
  {
    var t := Translated(rs[k], dx, dy);
    if BlockedAt(rs, k, t, lim) then rs else rs[k := t]
  }

  /** The two moves of a nudge: moving room `k` does not change whether it
      is blocked, and moving it back restores the layout. */
  lemma NudgedSteps(rs: seq<Rect>, k: int, dx: int, dy: int, lim: Limits)
    requires 0 <= k < |rs|
    ensures var t := Translated(rs[k], dx, dy);
      && BlockedAt(rs[k := t], k, t, lim) == BlockedAt(rs, k, t, lim)
      && rs[k := t][k := Translated(t, -dx, -dy)] == rs
      && Nudged(rs, k, dx, dy, lim) == if BlockedAt(rs, k, t, lim) then rs else rs[k := t]
  {
    var t := Translated(rs[k], dx, dy);
    BlockedOthers(rs, k, t, t, lim);
    TranslateRoundTrip(rs[k], dx, dy);
    assert rs[k := t][k := rs[k]] == rs;
  }

  /** Room `j` may answer `getClosestNode` for room `k` of layout `rs`: the
      first room, which starts the scan whatever it is, or any other room. */
  predicate NearCandidate(rs: seq<Rect>, k: int, j: int)
  {
    0 <= j < |rs| && (j == 0 || j != k)
  }

  /** The squared distance of two rooms' origins. */
  function OriginDistSq(a: Rect, b: Rect): nat
  {
    DistSq(Point(a.x, a.y), Point(b.x, b.y))
  }

  /** Room `j` is what `getClosestNode` answers for room `k` of layout `rs`:
      a candidate whose origin is nearest to room `k`'s, the earliest on ties. */
  predicate NearestIn(rs: seq<Rect>, k: int, j: int)
  {
    && 0 <= k < |rs| && NearCandidate(rs, k, j)
    && (forall i :: 0 <= i < |rs| && NearCandidate(rs, k, i) ==> OriginDistSq(rs[j], rs[k]) <= OriginDistSq(rs[i], rs[k]))
    && (forall i :: 0 <= i < j && NearCandidate(rs, k, i) ==> OriginDistSq(rs[j], rs[k]) < OriginDistSq(rs[i], rs[k]))
  }

  /** The nearest room is unique; the first room is its own nearest room,
      and any other room moves away from a room other than itself. */
  lemma NearestInFacts(rs: seq<Rect>, k: int, j: int, j': int)
    requires NearestIn(rs, k, j) && NearestIn(rs, k, j')
    ensures j == j'
    ensures k == 0 ==> j == 0
    ensures k != 0 ==> j != k
  {
    // Each is a candidate for the other's strict comparison over earlier rooms.
    assert NearCandidate(rs, k, j) && NearCandidate(rs, k, j');
    // The first room is always a candidate, and room `k` is at distance zero.
    assert NearCandidate(rs, k, 0) && OriginDistSq(rs[k], rs[k]) == 0;
  }

  /** The step of `moveAwayFromNearestNode`: away from the nearest room's
      origin, one tile per axis; a difference of zero counts as negative. */
  function AwayFrom(r: Rect, c: Rect): (int, int)
  {
    (Sign(r.x - c.x), Sign(r.y - c.y))
  }

  /** The step of `moveAwayFromNearestEdge`: `ceil(x - width / 2) > 0`
      exactly when `2 * x > width`. */
  function TowardEdge(r: Rect, lim: Limits): (int, int)
  {
    (Sign(2 * r.x - lim.width), Sign(2 * r.y - lim.height))
  }

  /** `increaseSize` from direction `i` on: the first growth of room `k` that
      is not blocked, or the room as it was. */
  function Grown(rs: seq<Rect>, k: int, lim: Limits, i: nat): Rect
    requires 0 <= k < |rs| && i <= 4
    decreases 4 - i
  {
    if i == 4 then rs[k]
    else
      var t := Tentative(rs[k], GrowOrder[i]);
      if BlockedAt(rs, k, t, lim) then Grown(rs, k, lim, i + 1) else t
  }

  /** The entrances and the draw cursor `increaseSize` leaves from
      direction `i` on, starting from entrances `e` at cursor `n`. Every try
      is a kept change that re-draws the entrances from the next four draws:
      a growth that is kept draws once, for the grown room; a blocked one
      draws twice, the second time for the room the shrinking `remove*`
      gives back. */
  ghost function GrowDraws(rs: seq<Rect>, k: int, lim: Limits, i: nat, draws: nat -> real, e: Entrances, n: nat): (Entrances, nat)
    requires 0 <= k < |rs| && i <= 4
    requires forall m: nat :: 0.0 <= draws(m) < 1.0
    decreases 4 - i
  {
    if i == 4 then (e, n)
    else
      var t := Tentative(rs[k], GrowOrder[i]);
      if BlockedAt(rs, k, t, lim) then GrowDraws(rs, k, lim, i + 1, draws, RandomEntrances(rs[k], draws, n + 4), n + 8)
      else (RandomEntrances(t, draws, n), n + 4)
  }

  /** The last re-draw `increaseSize` makes from direction `i` on, starting
      at cursor `n`: the geometry it draws the entrances for and the cursor
      after it. Each try costs four or eight draws. */
  function LastDraw(rs: seq<Rect>, k: int, lim: Limits, i: nat, n: nat): (r: (Rect, nat))
    requires 0 <= k < |rs| && i < 4
    ensures n + 4 <= r.1 <= n + 8 * (4 - i)
    decreases 4 - i
  {
    var t := Tentative(rs[k], GrowOrder[i]);
    if !BlockedAt(rs, k, t, lim) then (t, n + 4)
    else if i == 3 then (rs[k], n + 8)
    else LastDraw(rs, k, lim, i + 1, n + 8)
  }

  /** Each re-draw replaces the entrances, so those of the last one remain. */
  lemma {:induction false} GrowDrawsLast(rs: seq<Rect>, k: int, lim: Limits, i: nat, draws: nat -> real, e: Entrances, n: nat)
    requires 0 <= k < |rs| && i < 4
    requires forall m: nat :: 0.0 <= draws(m) < 1.0
    ensures var (g, c) := LastDraw(rs, k, lim, i, n);
      GrowDraws(rs, k, lim, i, draws, e, n) == (RandomEntrances(g, draws, c - 4), c)
    decreases 4 - i
  {
    var t := Tentative(rs[k], GrowOrder[i]);
    var e' := RandomEntrances(rs[k], draws, n + 4);
    if !BlockedAt(rs, k, t, lim) {
      assert LastDraw(rs, k, lim, i, n) == (t, n + 4);
    } else if i == 3 {
      assert GrowDraws(rs, k, lim, i, draws, e, n) == GrowDraws(rs, k, lim, 4, draws, e', n + 8);
    } else {
      GrowDrawsLast(rs, k, lim, i + 1, draws, e', n + 8);
    }
  }

  /** The last re-draw is for the geometry `increaseSize` leaves. */
  lemma {:induction false} LastDrawGrown(rs: seq<Rect>, k: int, lim: Limits, i: nat, n: nat)
    requires 0 <= k < |rs| && i < 4
    ensures LastDraw(rs, k, lim, i, n).0 == Grown(rs, k, lim, i)
    decreases 4 - i
  {
    var t := Tentative(rs[k], GrowOrder[i]);
    if BlockedAt(rs, k, t, lim) {
      if i < 3 {
        LastDrawGrown(rs, k, lim, i + 1, n + 8);
      } else {
        assert Grown(rs, k, lim, i + 1) == rs[k];
      }
    }
  }

  /** The entrances are drawn for the geometry `increaseSize` leaves, from
      the last four draws it uses; it uses four to thirty-two draws. */
  lemma GrowDrawsFacts(rs: seq<Rect>, k: int, lim: Limits, i: nat, draws: nat -> real, e: Entrances, n: nat)
    requires 0 <= k < |rs| && i < 4
    requires forall m: nat :: 0.0 <= draws(m) < 1.0
    ensures var (e', m) := GrowDraws(rs, k, lim, i, draws, e, n);
      && n + 4 <= m <= n + 8 * (4 - i)
      && e' == RandomEntrances(Grown(rs, k, lim, i), draws, m - 4)
  {
    GrowDrawsLast(rs, k, lim, i, draws, e, n);
    LastDrawGrown(rs, k, lim, i, n);
  }

  /** The two translations of `iterate` on room `k`, whose nearest room is
      `j`: away from it, then toward the nearer map edge. */
  function Moved(rs: seq<Rect>, k: int, j: int, lim: Limits): (r: seq<Rect>)
    requires 0 <= k < |rs| && 0 <= j < |rs|
    ensures |r| == |rs|
  {
    var away := AwayFrom(rs[k], rs[j]);
    var r1 := Nudged(rs, k, away.0, away.1, lim);
    var edge := TowardEdge(r1[k], lim);
    Nudged(r1, k, edge.0, edge.1, lim)
  }

  /** The entrances and the draw cursor `iterate` leaves on room `k`: those
      of `increaseSize` after the two translations. The final restore puts
      back the geometry only, never the entrances. */
  ghost function IterateDraws(rs: seq<Rect>, k: int, j: int, lim: Limits, draws: nat -> real, e: Entrances, n: nat): (Entrances, nat)
    requires 0 <= k < |rs| && 0 <= j < |rs|
    requires forall m: nat :: 0.0 <= draws(m) < 1.0
  {
    GrowDraws(Moved(rs, k, j, lim), k, lim, 0, draws, e, n)
  }

  /** `e` is what `randomizeEntrances` draws for geometry `r` at some cursor. */
  ghost predicate DrawnFor(e: Entrances, r: Rect, draws: nat -> real)
    requires forall m: nat :: 0.0 <= draws(m) < 1.0
  {
    exists c: nat :: e == RandomEntrances(r, draws, c)
  }

  /** After `iterate` the room's entrances are drawn for the geometry it
      ends with, from the last four draws; it uses four to thirty-two draws. */
  lemma IterateDrawsFacts(rs: seq<Rect>, k: int, j: int, lim: Limits, draws: nat -> real, e: Entrances, n: nat)
    requires 0 <= k < |rs| && 0 <= j < |rs| && AllProper(rs)
    requires forall m: nat :: 0.0 <= draws(m) < 1.0
    ensures var d := IterateDraws(rs, k, j, lim, draws, e, n);
      && n + 4 <= d.1 <= n + 32
      && d.0 == RandomEntrances(Iterated(rs, k, j, lim)[k], draws, d.1 - 4)
  {
    GrowDrawsFacts(Moved(rs, k, j, lim), k, lim, 0, draws, e, n);
    IteratedRoom(rs, k, j, lim);
  }

  /** The restore of `iterate` never changes anything: room `k` ends as the
      grown room after the two translations. */
  lemma IteratedRoom(rs: seq<Rect>, k: int, j: int, lim: Limits)
    requires 0 <= k < |rs| && 0 <= j < |rs| && AllProper(rs)
    ensures Iterated(rs, k, j, lim)[k] == Grown(Moved(rs, k, j, lim), k, lim, 0)
  {
    IteratedFacts(rs, k, j, lim);
    var r2 := Moved(rs, k, j, lim);
    assert Adjusted(rs, k, j, lim) == r2[k := Grown(r2, k, lim, 0)];
  }

  /** `iterate` on room `k`, whose nearest room is `j`: move away from it,
      move toward the nearer map edge, grow, and restore the room if the
      result is blocked. */
  function Iterated(rs: seq<Rect>, k: int, j: int, lim: Limits): seq<Rect>
    requires 0 <= k < |rs| && 0 <= j < |rs|
  {
    var r3 := Adjusted(rs, k, j, lim);
    if BlockedAt(r3, k, r3[k], lim) then rs else r3
  }

  /** The three moves of `iterate` before its final check: away from room
      `j`, toward the nearer map edge, then one growth step. */
  function Adjusted(rs: seq<Rect>, k: int, j: int, lim: Limits): (r: seq<Rect>)
    requires 0 <= k < |rs| && 0 <= j < |rs|
    ensures |r| == |rs|
  {
    var r2 := Moved(rs, k, j, lim);
    r2[k := Grown(r2, k, lim, 0)]
  }

  /** The blocking test looks only at the other rooms. */
  lemma BlockedOthers(rs: seq<Rect>, k: int, v: Rect, r: Rect, lim: Limits)
    requires 0 <= k < |rs|
    ensures BlockedAt(rs[k := v], k, r, lim) == BlockedAt(rs, k, r, lim)
  {
    if CollidesAt(rs, k, r, lim.overlapBuffer) {
      var i :| 0 <= i < |rs| && i != k && Proper(rs[i]) && Overlaps(rs[i], r, lim.overlapBuffer);
      assert rs[k := v][i] == rs[i];
    }
    if CollidesAt(rs[k := v], k, r, lim.overlapBuffer) {
      var i :| 0 <= i < |rs| && i != k && Proper(rs[k := v][i]) && Overlaps(rs[k := v][i], r, lim.overlapBuffer);
      assert rs[k := v][i] == rs[i];
    }
  }

  /** A nudge leaves room `k` where it was, or moves it by exactly `(dx, dy)`
      to a place inside the margin and clear of every other room. */
  lemma NudgedFacts(rs: seq<Rect>, k: int, dx: int, dy: int, lim: Limits)
    requires 0 <= k < |rs|
    ensures var n := Nudged(rs, k, dx, dy, lim);
      && n == rs[k := n[k]]
      && (n[k] == rs[k] || (n[k] == Translated(rs[k], dx, dy) && !BlockedAt(rs, k, n[k], lim)))
      && Width(n[k]) == Width(rs[k]) && Height(n[k]) == Height(rs[k])
  {
  }

  /** Growth tries top, right, bottom, left in that order and keeps the first
      one that is not blocked; if all four are, the room stays as it was. */
  lemma {:induction false} GrownFacts(rs: seq<Rect>, k: int, lim: Limits, i: nat)
    requires 0 <= k < |rs| && i <= 4 && Proper(rs[k])
    ensures var g := Grown(rs, k, lim, i);
      || (g == rs[k] && forall m :: i <= m < 4 ==> BlockedAt(rs, k, Tentative(rs[k], GrowOrder[m]), lim))
      || (exists m :: i <= m < 4 && g == Tentative(rs[k], GrowOrder[m]) && !BlockedAt(rs, k, g, lim)
            && forall m' :: i <= m' < m ==> BlockedAt(rs, k, Tentative(rs[k], GrowOrder[m']), lim))
    ensures Proper(Grown(rs, k, lim, i))
    decreases 4 - i
  {
    if i < 4 {
      GrownFacts(rs, k, lim, i + 1);
      GrowThenUndo(rs[k], i);
    }
  }

  /** `iterate` changes only room `k`, keeps it at least one tile wide and
      high, and leaves it either exactly as it was or inside the margin and
      clear of every other room. The final restore runs when the three moves
      left a room that was already blocked as it was, so it never changes
      anything: the result is the three moves. */
  lemma IteratedFacts(rs: seq<Rect>, k: int, j: int, lim: Limits)
    requires 0 <= k < |rs| && 0 <= j < |rs| && AllProper(rs)
    ensures var n := Iterated(rs, k, j, lim);
      && n == rs[k := n[k]] && Proper(n[k])
      && (n[k] == rs[k] || !BlockedAt(rs, k, n[k], lim))
    ensures Iterated(rs, k, j, lim) == Adjusted(rs, k, j, lim)
  {
    var away := AwayFrom(rs[k], rs[j]);
    var r1 := Nudged(rs, k, away.0, away.1, lim);
    NudgedFacts(rs, k, away.0, away.1, lim);
    var edge := TowardEdge(r1[k], lim);
    var r2 := Nudged(r1, k, edge.0, edge.1, lim);
    NudgedFacts(r1, k, edge.0, edge.1, lim);
    BlockedOthers(rs, k, r1[k], r2[k], lim);
    assert Proper(r2[k]);
    var g := Grown(r2, k, lim, 0);
    GrownFacts(r2, k, lim, 0);
    var r3 := r2[k := g];
    BlockedOthers(r2, k, g, g, lim);
    BlockedOthers(rs, k, r2[k], g, lim);
    assert r2 == rs[k := r2[k]];
  }

  /** Every room keeps the wall margin and no two rooms share a floor tile. */
  predicate Settled(rs: seq<Rect>, lim: Limits)
  {
    && (forall i :: 0 <= i < |rs| ==> Fits(rs[i], lim.width, lim.height, lim.wallBuffer))
    && (forall i, j :: 0 <= i < |rs| && 0 <= j < |rs| && i != j ==> Apart(rs[i], rs[j]))
  }

  /** `iterate` keeps a settled layout settled. */
  lemma IteratedSettled(rs: seq<Rect>, k: int, j: int, lim: Limits)
    requires 0 <= k < |rs| && 0 <= j < |rs| && AllProper(rs) && Settled(rs, lim)
    ensures Settled(Iterated(rs, k, j, lim), lim)
  {
    var n := Iterated(rs, k, j, lim);
    IteratedFacts(rs, k, j, lim);
    if n[k] != rs[k] {
      forall i | 0 <= i < |rs| && i != k ensures Apart(n[i], n[k]) && Apart(n[k], n[i]) {
        assert !CollidesAt(rs, k, n[k], lim.overlapBuffer);
        assert !Overlaps(rs[i], n[k], lim.overlapBuffer);
        ApartIfClear(rs[i], n[k], lim.overlapBuffer);
      }
    }
  }

  /** The rooms after the layout loop of `step` has iterated rooms `0` to
      `|js| - 1` in list order, room `i` moving away from room `js[i]`. */
  function Relaid(rs: seq<Rect>, js: seq<int>, lim: Limits): (r: seq<Rect>)
    requires |js| <= |rs| && forall i :: 0 <= i < |js| ==> 0 <= js[i] < |rs|
    ensures |r| == |rs|
  {
    if js == [] then rs
    else Iterated(Relaid(rs, js[..|js| - 1], lim), |js| - 1, js[|js| - 1], lim)
  }

  /** The layout loop keeps every room at least one tile wide and high, and
      a settled layout settled. */
  lemma {:induction false} RelaidFacts(rs: seq<Rect>, js: seq<int>, lim: Limits)
    requires |js| <= |rs| && forall i :: 0 <= i < |js| ==> 0 <= js[i] < |rs|
    requires AllProper(rs)
    ensures AllProper(Relaid(rs, js, lim))
    ensures Settled(rs, lim) ==> Settled(Relaid(rs, js, lim), lim)
  {
    if js != [] {
      var front := js[..|js| - 1];
      RelaidFacts(rs, front, lim);
      var prev := Relaid(rs, front, lim);
      IteratedFacts(prev, |js| - 1, js[|js| - 1], lim);
      if Settled(rs, lim) {
        IteratedSettled(prev, |js| - 1, js[|js| - 1], lim);
      }
    }
  }

  /** Iterating one more room extends the loop by one step. */
  lemma RelaidNext(rs: seq<Rect>, js: seq<int>, j: int, lim: Limits)
    requires |js| < |rs| && (forall i :: 0 <= i < |js| ==> 0 <= js[i] < |rs|) && 0 <= j < |rs|
    ensures Relaid(rs, js + [j], lim) == Iterated(Relaid(rs, js, lim), |js|, j, lim)
  {
    assert (js + [j])[..|js|] == js;
  }

  /** Each room `i` the layout loop has reached moved away from `js[i]`, the
      nearest room in the layout as it stood when its turn came. */
  predicate NearestAtTurns(rs: seq<Rect>, js: seq<int>, lim: Limits)
    requires |js| <= |rs| && forall i :: 0 <= i < |js| ==> 0 <= js[i] < |rs|
  {
    forall i :: 0 <= i < |js| ==> NearestIn(Relaid(rs, js[..i], lim), i, js[i])
  }

  /** Moving room `|js|` away from its nearest room extends the turns. */
  lemma NearestAtTurnsNext(rs: seq<Rect>, js: seq<int>, j: int, lim: Limits)
    requires |js| < |rs| && (forall i :: 0 <= i < |js| ==> 0 <= js[i] < |rs|) && 0 <= j < |rs|
    requires NearestAtTurns(rs, js, lim) && NearestIn(Relaid(rs, js, lim), |js|, j)
    ensures NearestAtTurns(rs, js + [j], lim)
  {
    var js' := js + [j];
    forall i | 0 <= i < |js'| ensures NearestIn(Relaid(rs, js'[..i], lim), i, js'[i]) {
      if i < |js| {
        assert js'[..i] == js[..i] && js'[i] == js[i];
      } else {
        assert js'[..i] == js;
      }
    }
  }

  /** The entrances of every room and the draw cursor after the layout loop
      of `step` has iterated rooms `0` to `|js| - 1` in list order, starting
      from entrances `es` at cursor `n`. */
  ghost function RelaidDraws(rs: seq<Rect>, js: seq<int>, lim: Limits, draws: nat -> real, es: seq<Entrances>, n: nat)
    : (d: (seq<Entrances>, nat))
    requires |js| <= |rs| && forall i :: 0 <= i < |js| ==> 0 <= js[i] < |rs|
    requires |es| == |rs| && forall m: nat :: 0.0 <= draws(m) < 1.0
    ensures |d.0| == |rs|
  {
    if js == [] then (es, n)
    else
      var k := |js| - 1;
      var (es', m) := RelaidDraws(rs, js[..k], lim, draws, es, n);
      var (e, m') := IterateDraws(Relaid(rs, js[..k], lim), k, js[k], lim, draws, es'[k], m);
      (es'[k := e], m')
  }

  /** Iterating one more room extends the entrances and the cursor by what
      `iterate` leaves on that room. */
  lemma RelaidDrawsNext(rs: seq<Rect>, js: seq<int>, j: int, lim: Limits, draws: nat -> real, es: seq<Entrances>, n: nat)
    requires |js| < |rs| && (forall i :: 0 <= i < |js| ==> 0 <= js[i] < |rs|) && 0 <= j < |rs|
    requires |es| == |rs| && forall m: nat :: 0.0 <= draws(m) < 1.0
    ensures var d := RelaidDraws(rs, js, lim, draws, es, n);
      var e := IterateDraws(Relaid(rs, js, lim), |js|, j, lim, draws, d.0[|js|], d.1);
      RelaidDraws(rs, js + [j], lim, draws, es, n) == (d.0[|js| := e.0], e.1)
  {
    assert (js + [j])[..|js|] == js;
  }

  /** After the layout loop every iterated room's entrances are drawn for the
      geometry it ends with, the other rooms keep theirs, and each iterated
      room uses four to thirty-two draws. */
  lemma {:induction false} RelaidDrawsFacts(rs: seq<Rect>, js: seq<int>, lim: Limits, draws: nat -> real, es: seq<Entrances>, n: nat)
    requires |js| <= |rs| && forall i :: 0 <= i < |js| ==> 0 <= js[i] < |rs|
    requires |es| == |rs| && forall m: nat :: 0.0 <= draws(m) < 1.0
    requires AllProper(rs)
    ensures var (es', m) := RelaidDraws(rs, js, lim, draws, es, n);
      var r := Relaid(rs, js, lim);
      && n + 4 * |js| <= m <= n + 32 * |js|
      && (forall i :: 0 <= i < |js| ==> DrawnFor(es'[i], r[i], draws))
      && (forall i :: |js| <= i < |rs| ==> es'[i] == es[i])
  {
    if js != [] {
      var k := |js| - 1;
      var front := js[..k];
      RelaidDrawsFacts(rs, front, lim, draws, es, n);
      RelaidFacts(rs, front, lim);
      var prev := Relaid(rs, front, lim);
      var (es', m) := RelaidDraws(rs, front, lim, draws, es, n);
      IterateDrawsFacts(prev, k, js[k], lim, draws, es'[k], m);
      IteratedFacts(prev, k, js[k], lim);
      var r := Relaid(rs, js, lim);
      assert r == Iterated(prev, k, js[k], lim);
      var d := IterateDraws(prev, k, js[k], lim, draws, es'[k], m);
      assert DrawnFor(d.0, r[k], draws);
      forall i | 0 <= i < k ensures r[i] == prev[i] {
      }
    }
  }

  /** Entrances drawn for a proper room lie within its sides. */
  lemma DrawnInRange(e: Entrances, r: Rect, draws: nat -> real)
    requires forall m: nat :: 0.0 <= draws(m) < 1.0
    requires Proper(r) && DrawnFor(e, r, draws)
    ensures 1 <= e.top <= Max(1, Width(r) - 1) && 1 <= e.bottom <= Max(1, Width(r) - 1)
    ensures 1 <= e.left <= Max(1, Height(r) - 1) && 1 <= e.right <= Max(1, Height(r) - 1)
  {
    var c: nat :| e == RandomEntrances(r, draws, c);
    RandomEntrancesInRange(r, draws, c);
  }

  /** The entrances of a list of rooms, in order. */
  function EntrancesOf(ns: seq<MapNode>): (es: seq<Entrances>)
    reads ns`entrances
    ensures |es| == |ns| && forall i {:trigger es[i]} :: 0 <= i < |ns| ==> es[i] == ns[i].entrances
  {
    if ns == [] then [] else EntrancesOf(ns[..|ns| - 1]) + [ns[|ns| - 1].entrances]
  }

  /** The connections `removeRandomConnection` leaves, the edge list being
      `es` and draw `u` picking the edge (see `GuardedUnlink`). */
  ghost function Pruned(g: seq<set<int>>, ns: seq<MapNode>, es: seq<GraphEdge>, u: real): seq<set<int>>
    requires 0.0 <= u < 1.0
  {
    var k := DrawIndex(u, |es|);
    if k < |es| then GuardedUnlink(g, IndexOf(ns, es[k].node1), IndexOf(ns, es[k].node2)) else g
  }

  /** The pruning of a drawn edge that is a link keeps a connected graph
      connected, and an undirected graph undirected, only losing links. */
  lemma PrunedFacts(g: seq<set<int>>, ns: seq<MapNode>, es: seq<GraphEdge>, u: real)
    requires 0.0 <= u < 1.0 && |g| == |ns|
    requires forall i :: 0 <= i < |es| ==> es[i].node1 in ns && es[i].node2 in ns
    requires var k := DrawIndex(u, |es|);
      k < |es| ==> Edge(g, IndexOf(ns, es[k].node1), IndexOf(ns, es[k].node2))
    ensures |Pruned(g, ns, es, u)| == |g|
    ensures Connected(g) ==> Connected(Pruned(g, ns, es, u))
    ensures Undirected(g) ==> Undirected(Pruned(g, ns, es, u))
    ensures Undirected(g) ==> forall i :: 0 <= i < |g| ==> Pruned(g, ns, es, u)[i] <= g[i]
  {
    var k := DrawIndex(u, |es|);
    if k < |es| {
      GuardedRemoval(g, IndexOf(ns, es[k].node1), IndexOf(ns, es[k].node2));
    }
  }

  /** The connection lists `removeRandomConnection` leaves, from lists `cs`
      of rooms `ns`, the edge list being `es` and draw `u` picking the edge
      (see `GuardedUnlinkLists`). */
  ghost function PrunedLists(ns: seq<MapNode>, cs: seq<seq<MapNode>>, es: seq<GraphEdge>, u: real): seq<seq<MapNode>>
    requires 0.0 <= u < 1.0 && |cs| == |ns|
    requires forall i :: 0 <= i < |es| ==> es[i].node1 in ns && es[i].node2 in ns
  {
    var k := DrawIndex(u, |es|);
    if k < |es| then GuardedUnlinkLists(ns, cs, IndexOf(ns, es[k].node1), IndexOf(ns, es[k].node2)) else cs
  }

  /** `addTop` ... `removeLeft` by name: the entries of `increaseSize`'s
      direction table. */
  method Resize(node: MapNode, op: ResizeOp, rng: RandomSource)
    requires rng.Valid()
    modifies node`x0, node`y0, node`x1, node`y1, node`entrances, rng`used
    ensures ResizeOutcome(old(node.Bounds()), node.Bounds(), op, old(node.entrances), node.entrances,
                          rng.draws, old(rng.used), rng.used)
  {
    match op
    case AddTop => node.AddTop(rng);
    case AddBottom => node.AddBottom(rng);
    case AddLeft => node.AddLeft(rng);
    case AddRight => node.AddRight(rng);
    case RemoveTop => node.RemoveTop(rng);
    case RemoveBottom => node.RemoveBottom(rng);
    case RemoveLeft => node.RemoveLeft(rng);
    case RemoveRight => node.RemoveRight(rng);
  }

  class GameMap {
    const width: nat
    const height: nat
    const count: nat
    const wallBuffer: nat
    const overlapBuffer: nat
    const graph: MapGraph
    var sameHashCount: nat
    var tiles: seq<MapTile>
    var dualTiles: seq<MapDualTile>

    /** Tile `(i, j)` sits at index `i * height + j`. */
    ghost predicate Valid()
      reads this`tiles
    {
      Laid(tiles, width, height)
    }

    /** The geometry of the graph's rooms, in list order. */
    ghost function Layout(): seq<Rect>
      reads graph`nodes, graph.nodes`x, graph.nodes`y, graph.nodes`x0, graph.nodes`y0, graph.nodes`x1, graph.nodes`y1
    {
      Rects(graph.nodes)
    }

    /** What `setTiles()` leaves in place of tiles `ts`: walls and floors of
        the rooms and the corridors of every edge (`EdgesOf` is what
        `MapGraph.GetEdges` returns). */
    ghost function Drawing(ts: seq<MapTile>): seq<MapTile>
      reads graph`nodes, graph.nodes`connections, graph.nodes`entrances
      reads graph.nodes`x, graph.nodes`y, graph.nodes`x0, graph.nodes`y0, graph.nodes`x1, graph.nodes`y1
      requires graph.Valid() && AllProper(Layout())
    {
      TilesReady();
      var es := EdgesOf(graph.nodes);
      Drawn(ts, Layout(), graph.nodes, EdgeRects(es), EdgeEntrances(es))
    }

    function Lim(): Limits
    {
      Limits(width, height, wallBuffer, overlapBuffer)
    }

    /** The map over room graph `graph`, with `width * height` outside tiles
        whose identifiers are `ids`. */
    constructor (width: nat, height: nat, count: nat, graph: MapGraph, ids: seq<Id>, wallBuffer: nat, overlapBuffer: nat)
      requires |ids| == width * height
      ensures this.width == width && this.height == height && this.count == count && this.graph == graph
      ensures this.wallBuffer == wallBuffer && this.overlapBuffer == overlapBuffer
      ensures tiles == Blank(ids, width, height) && dualTiles == [] && sameHashCount == 0
      ensures Valid()
    {
      this.width, this.height, this.count := width, height, count;
      this.graph := graph;
      this.wallBuffer, this.overlapBuffer := wallBuffer, overlapBuffer;
      sameHashCount := 0;
      var ts := MakeTiles(ids, width, height);
      tiles := ts;
      dualTiles := [];
      BlankLaid(ids, width, height);
    }

    /** `isInBounds(node, buffer)`. */
    method IsInBounds(node: MapNode, buffer: nat) returns (ok: bool)
      requires Proper(node.Bounds())
      ensures ok <==> Fits(node.Bounds(), width, height, buffer)
    {
      ok := IsInBoundsOf(node.Bounds(), width, height, buffer);
      FitsIff(node.Bounds(), width, height, buffer);
    }

    /** `overlaps(node, buffer)` for the `k`-th room. */
    method Overlapping(node: MapNode, ghost k: int, buffer: nat) returns (r: bool)
      requires Distinct(graph.nodes) && 0 <= k < |graph.nodes| && graph.nodes[k] == node && AllProper(Layout())
      ensures r <==> CollidesAt(Layout(), k, node.Bounds(), buffer)
    {
      ghost var rs := Layout();
      forall i | 0 <= i < |rs| ensures Proper(graph.nodes[i].Bounds()) {
        assert rs[i] == graph.nodes[i].Bounds();
      }
      r := graph.AnyNodeOverlaps(node, buffer);
      if r {
        var i :| 0 <= i < |graph.nodes| && graph.nodes[i] != node && Overlaps(graph.nodes[i].Bounds(), node.Bounds(), buffer);
        assert i != k && rs[i] == graph.nodes[i].Bounds();
      }
      if CollidesAt(rs, k, node.Bounds(), buffer) {
        var i :| 0 <= i < |rs| && i != k && Proper(rs[i]) && Overlaps(rs[i], node.Bounds(), buffer);
        assert graph.nodes[i] != node;
      }
    }

    /** The reset loop, then `setWalls`, `setPaths(getEdges())` and
        `setInsides` over the graph's rooms (`EdgesOf` is what
        `MapGraph.GetEdges` returns). */
    method SetTiles()
      requires Valid() && graph.Valid() && AllProper(Layout())
      modifies this`tiles
      ensures Valid() && tiles == old(Drawing(tiles)) && tiles == Drawing(old(tiles))
    {
      DrawingLaid(tiles);
      var nodes := graph.nodes;
      var edges := EdgesOf(nodes);
      var ts := Rasterise(tiles, width, height, Rects(nodes), nodes, false, MapPathLists(EdgeRects(edges), EdgeEntrances(edges)));
      tiles := ts;
    }

    /** The drawing over laid tiles `ts` is the rasterised layout with every
        edge's corridor, and is laid on the same grid. */
    lemma DrawingLaid(ts: seq<MapTile>)
      requires graph.Valid() && AllProper(Layout()) && Laid(ts, width, height)
      ensures ProperPairs(EdgeRects(EdgesOf(graph.nodes)))
      ensures var es := EdgesOf(graph.nodes);
        Drawing(ts) == Rasterised(ts, Rects(graph.nodes), graph.nodes, false, Flatten(MapPathLists(EdgeRects(es), EdgeEntrances(es))))
      ensures Laid(Drawing(ts), width, height)
    {
      TilesReady();
      var es := EdgesOf(graph.nodes);
      RasterLaid(ts, width, height, Rects(graph.nodes), graph.nodes, false, Flatten(MapPathLists(EdgeRects(es), EdgeEntrances(es))));
    }

    /** `setDualTiles()`. */
    method SetDualTiles()
      modifies this`dualTiles
      ensures dualTiles == Columns(tiles, height, width + 1)
    {
      var ds := DualGrid.SetDualTiles(tiles, width, height);
      dualTiles := ds;
    }

    /** `node.translate(dx, dy)` on the `k`-th room: no other room moves. */
    method Shift(node: MapNode, ghost k: int, dx: int, dy: int)
      requires Distinct(graph.nodes) && 0 <= k < |graph.nodes| && graph.nodes[k] == node
      modifies node`x, node`y
      ensures Layout() == old(Layout())[k := Translated(old(Layout())[k], dx, dy)]
    {
      ghost var rs := Layout();
      node.Translate(dx, dy);
      forall i | 0 <= i < |rs| && i != k ensures graph.nodes[i].Bounds() == rs[i] {
        assert graph.nodes[i] != node;
      }
    }

    /** Translate room `k` by `(dx, dy)`, then translate it back when it is
        out of bounds or overlapping: the shared tail of the two moves. */
    method TryMove(node: MapNode, ghost k: int, dx: int, dy: int)
      requires Distinct(graph.nodes) && 0 <= k < |graph.nodes| && graph.nodes[k] == node && AllProper(Layout())
      modifies node`x, node`y
      ensures Layout() == Nudged(old(Layout()), k, dx, dy, Lim())
    {
      ghost var rs := Layout();
      NudgedSteps(rs, k, dx, dy, Lim());
      Shift(node, k, dx, dy);
      assert node.Bounds() == Layout()[k];
      var blocked := Blocked(node, k);
      if blocked {
        Shift(node, k, -dx, -dy);
      }
    }

    /** `overlaps(node) || !isInBounds(node)` with the default buffers: the
        test every layout move undoes itself on. */
    method Blocked(node: MapNode, ghost k: int) returns (b: bool)
      requires Distinct(graph.nodes) && 0 <= k < |graph.nodes| && graph.nodes[k] == node && AllProper(Layout())
      ensures b <==> BlockedAt(Layout(), k, node.Bounds(), Lim())
      ensures Layout() == old(Layout())
    {
      var overlaps := Overlapping(node, k, overlapBuffer);
      assert Layout()[k] == node.Bounds();
      var inBounds := IsInBounds(node, wallBuffer);
      b := overlaps || !inBounds;
    }

    /** `moveAwayFromNearestNode(node)` for the `k`-th room; `j` is the room
        `getClosestNode` picks. */
    method MoveAwayFromNearestNode(node: MapNode, ghost k: int) returns (ghost j: int)
      requires Distinct(graph.nodes) && 0 <= k < |graph.nodes| && graph.nodes[k] == node && AllProper(Layout())
      modifies node`x, node`y
      ensures 0 <= j < |graph.nodes| && old(graph.ClosestAt(node, j))
      ensures var away := AwayFrom(old(Layout())[k], old(Layout())[j]);
        Layout() == Nudged(old(Layout()), k, away.0, away.1, Lim())
    {
      var close;
      close, j := graph.GetClosestNode(node);
      if close.Some? {
        var other := close.value;
        var dx := if node.x - other.x > 0 then 1 else -1;
        var dy := if node.y - other.y > 0 then 1 else -1;
        TryMove(node, k, dx, dy);
      }
    }

    /** `moveAwayFromNearestEdge(node)` for the `k`-th room. */
    method MoveAwayFromNearestEdge(node: MapNode, ghost k: int)
      requires Distinct(graph.nodes) && 0 <= k < |graph.nodes| && graph.nodes[k] == node && AllProper(Layout())
      modifies node`x, node`y
      ensures var edge := TowardEdge(old(Layout())[k], Lim());
        Layout() == Nudged(old(Layout()), k, edge.0, edge.1, Lim())
    {
      var dx := if 2 * node.x - width > 0 then 1 else -1;
      var dy := if 2 * node.y - height > 0 then 1 else -1;
      TryMove(node, k, dx, dy);
    }

    /** In a list of distinct rooms, `getClosestNode` on room `k` answers
        room `j` exactly when `j` is the nearest room to `k` in the layout. */
    lemma ClosestIsNearest(k: int)
      requires Distinct(graph.nodes) && 0 <= k < |graph.nodes|
      ensures forall j :: graph.ClosestAt(graph.nodes[k], j) <==> NearestIn(Layout(), k, j)
    {
      var ns, rs := graph.nodes, Layout();
      forall i | 0 <= i < |ns| ensures graph.ClosestCandidate(ns[k], i) <==> NearCandidate(rs, k, i) {
      }
      forall i | 0 <= i < |ns| ensures DistanceSq(ns[i], ns[k]) == OriginDistSq(rs[i], rs[k]) {
        assert rs[i] == ns[i].Bounds() && rs[k] == ns[k].Bounds();
      }
    }

    /** `add*` / `remove*` on the `k`-th room: no other room changes. */
    method Reshape(node: MapNode, ghost k: int, op: ResizeOp, rng: RandomSource)
      requires Distinct(graph.nodes) && 0 <= k < |graph.nodes| && graph.nodes[k] == node && rng.Valid()
      modifies node`x0, node`y0, node`x1, node`y1, node`entrances, rng`used
      ensures Layout() == old(Layout())[k := Resized(old(Layout())[k], op)]
      ensures ResizeOutcome(old(Layout())[k], Layout()[k], op, old(node.entrances), node.entrances,
                            rng.draws, old(rng.used), rng.used)
    {
      ghost var rs := Layout();
      Resize(node, op, rng);
      forall m | 0 <= m < |rs| && m != k ensures graph.nodes[m].Bounds() == rs[m] {
        assert graph.nodes[m] != node;
      }
    }

    /** One entry of `increaseSize`'s direction table: grow room `k` by
        growth `i`, and shrink it back when that blocks the room. */
    method TryGrow(node: MapNode, ghost k: int, i: int, rng: RandomSource) returns (kept: bool)
      requires Distinct(graph.nodes) && 0 <= k < |graph.nodes| && graph.nodes[k] == node && AllProper(Layout())
      requires 0 <= i < 4 && rng.Valid()
      modifies node`x0, node`y0, node`x1, node`y1, node`entrances, rng`used
      ensures var t := Tentative(old(Layout())[k], GrowOrder[i]);
        && (kept <==> !BlockedAt(old(Layout()), k, t, Lim()))
        && Layout() == if kept then old(Layout())[k := t] else old(Layout())
      ensures var t := Tentative(old(Layout())[k], GrowOrder[i]);
        (node.entrances, rng.used) ==
          if kept then (RandomEntrances(t, rng.draws, old(rng.used)), old(rng.used) + 4)
          else (RandomEntrances(old(Layout())[k], rng.draws, old(rng.used) + 4), old(rng.used) + 8)
    {
      ghost var rs := Layout();
      ghost var t := Tentative(rs[k], GrowOrder[i]);
      var op := GrowOrder[i];
      Reshape(node, k, op, rng);
      GrowThenUndo(rs[k], i);
      var blocked := Blocked(node, k);
      ghost var l1 := Layout();
      assert l1 == rs[k := t];
      assert blocked == BlockedAt(rs, k, t, Lim()) by {
        assert node.Bounds() == l1[k] == t;
        BlockedOthers(rs, k, t, t, Lim());
      }
      kept := !blocked;
      if blocked {
        assert l1[k := rs[k]] == rs;
        Reshape(node, k, Undo(op), rng);
        assert Layout() == l1[k := rs[k]];
      }
    }

    /** `increaseSize(node)` for the `k`-th room: the directions in the order
        top, right, bottom, left, stopping at the first growth that is kept. */
    method IncreaseSize(node: MapNode, ghost k: int, rng: RandomSource)
      requires Distinct(graph.nodes) && 0 <= k < |graph.nodes| && graph.nodes[k] == node && AllProper(Layout())
      requires rng.Valid()
      modifies node`x0, node`y0, node`x1, node`y1, node`entrances, rng`used
      ensures Layout() == old(Layout())[k := Grown(old(Layout()), k, Lim(), 0)]
      ensures (node.entrances, rng.used) == GrowDraws(old(Layout()), k, Lim(), 0, rng.draws, old(node.entrances), old(rng.used))
    {
      ghost var rs, goal := Layout(), GrowDraws(Layout(), k, Lim(), 0, rng.draws, node.entrances, rng.used);
      var i := 0;
      while i < |GrowOrder|
        invariant 0 <= i <= 4
        invariant Layout() == rs
        invariant Grown(rs, k, Lim(), i) == Grown(rs, k, Lim(), 0)
        invariant GrowDraws(rs, k, Lim(), i, rng.draws, node.entrances, rng.used) == goal
      {
        var kept := TryGrow(node, k, i, rng);
        if kept {
          return;
        }
        i := i + 1;
      }
    }

    /** `node.x = x; ...; node.y1 = y1`: put room `k` back to `r`. */
    method Restore(node: MapNode, ghost k: int, r: Rect)
      requires Distinct(graph.nodes) && 0 <= k < |graph.nodes| && graph.nodes[k] == node
      modifies node`x, node`y, node`x0, node`y0, node`x1, node`y1
      ensures Layout() == old(Layout())[k := r]
    {
      ghost var rs := Layout();
      node.x, node.y, node.x0, node.x1, node.y0, node.y1 := r.x, r.y, r.x0, r.x1, r.y0, r.y1;
      forall m | 0 <= m < |rs| && m != k ensures graph.nodes[m].Bounds() == rs[m] {
        assert graph.nodes[m] != node;
      }
    }

    /** The three moves of `iterate(node)` for the `k`-th room; `j` is the
        room it moves away from. */
    method Adjust(node: MapNode, ghost k: int, rng: RandomSource) returns (ghost j: int)
      requires Distinct(graph.nodes) && 0 <= k < |graph.nodes| && graph.nodes[k] == node && AllProper(Layout())
      requires rng.Valid()
      modifies node`x, node`y, node`x0, node`y0, node`x1, node`y1, node`entrances, rng`used
      ensures 0 <= j < |graph.nodes| && old(graph.ClosestAt(node, j))
      ensures Layout() == Adjusted(old(Layout()), k, j, Lim())
      ensures (node.entrances, rng.used) == IterateDraws(old(Layout()), k, j, Lim(), rng.draws, old(node.entrances), old(rng.used))
    {
      ghost var rs := Layout();
      j := MoveAwayFromNearestNode(node, k);
      ghost var away := AwayFrom(rs[k], rs[j]);
      NudgedFacts(rs, k, away.0, away.1, Lim());
      ghost var r1 := Layout();
      MoveAwayFromNearestEdge(node, k);
      ghost var edge := TowardEdge(r1[k], Lim());
      NudgedFacts(r1, k, edge.0, edge.1, Lim());
      assert Layout() == Moved(rs, k, j, Lim());
      IncreaseSize(node, k, rng);
    }

    /** `iterate(node)` for the `k`-th room; `j` is the room it moves away from. */
    method Iterate(node: MapNode, ghost k: int, rng: RandomSource) returns (ghost j: int)
      requires Distinct(graph.nodes) && 0 <= k < |graph.nodes| && graph.nodes[k] == node && AllProper(Layout())
      requires rng.Valid()
      modifies node`x, node`y, node`x0, node`y0, node`x1, node`y1, node`entrances, rng`used
      ensures 0 <= j < |graph.nodes| && old(graph.ClosestAt(node, j))
      ensures Layout() == Iterated(old(Layout()), k, j, Lim())
      ensures (node.entrances, rng.used) == IterateDraws(old(Layout()), k, j, Lim(), rng.draws, old(node.entrances), old(rng.used))
    {
      ghost var rs := Layout();
      var saved := node.Bounds();
      j := Adjust(node, k, rng);
      ghost var r3 := Layout();
      IteratedFacts(rs, k, j, Lim());
      var blocked := Blocked(node, k);
      if blocked {
        assert r3[k := rs[k]] == rs;
        Restore(node, k, saved);
      }
    }

    /** `shuffleNodes()`: the swap writes only to local copies, so the list
        comes back as it is. */
    method ShuffleNodes() returns (ns: seq<MapNode>)
      ensures ns == graph.nodes
    {
      ns := graph.nodes;
      var i := |ns| - 1;
      while i > 0
        invariant ns == graph.nodes
      {
        var j :| 0 <= j <= i;
        var ni, nj := ns[i], ns[j];
        ni, nj := nj, ni;
        i := i - 1;
      }
    }

    /** `iterate` on the `k`-th room, seen from the room list: it moves away
        from the nearest room `j` in the layout as it stands, and only that
        room's entrances change. */
    method IterateRoom(node: MapNode, ghost k: int, rng: RandomSource) returns (ghost j: int)
      requires Distinct(graph.nodes) && 0 <= k < |graph.nodes| && graph.nodes[k] == node && AllProper(Layout())
      requires rng.Valid()
      modifies node`x, node`y, node`x0, node`y0, node`x1, node`y1, node`entrances, rng`used
      ensures 0 <= j < |graph.nodes| && NearestIn(old(Layout()), k, j)
      ensures Layout() == Iterated(old(Layout()), k, j, Lim())
      ensures var d := IterateDraws(old(Layout()), k, j, Lim(), rng.draws, old(node.entrances), old(rng.used));
        EntrancesOf(graph.nodes) == old(EntrancesOf(graph.nodes))[k := d.0] && rng.used == d.1
    {
      ghost var eb := EntrancesOf(graph.nodes);
      ClosestIsNearest(k);
      j := Iterate(node, k, rng);
      forall m | 0 <= m < |graph.nodes| && m != k ensures graph.nodes[m].entrances == eb[m] {
        assert graph.nodes[m] != node;
      }
    }

    /** The loop of `step` over the shuffled rooms, iterating each in turn. */
    method Relayout(rng: RandomSource) returns (ghost js: seq<int>)
      requires Distinct(graph.nodes) && AllProper(Layout()) && rng.Valid()
      modifies graph.nodes`x, graph.nodes`y, graph.nodes`x0, graph.nodes`y0, graph.nodes`x1, graph.nodes`y1
      modifies graph.nodes`entrances, rng`used
      ensures |js| == |graph.nodes| && (forall i :: 0 <= i < |js| ==> 0 <= js[i] < |graph.nodes|)
      ensures Layout() == Relaid(old(Layout()), js, Lim()) && NearestAtTurns(old(Layout()), js, Lim())
      ensures (EntrancesOf(graph.nodes), rng.used) ==
        RelaidDraws(old(Layout()), js, Lim(), rng.draws, old(EntrancesOf(graph.nodes)), old(rng.used))
    {
      ghost var rs, es0, u0 := Layout(), EntrancesOf(graph.nodes), rng.used;
      var nodes := ShuffleNodes();
      js := [];
      var i := 0;
      while i < |nodes|
        invariant 0 <= i <= |nodes| && |js| == i && forall m :: 0 <= m < i ==> 0 <= js[m] < |nodes|
        invariant Layout() == Relaid(rs, js, Lim()) && NearestAtTurns(rs, js, Lim())
        invariant (EntrancesOf(graph.nodes), rng.used) == RelaidDraws(rs, js, Lim(), rng.draws, es0, u0)
      {
        RelaidFacts(rs, js, Lim());
        var j := IterateRoom(nodes[i], i, rng);
        RelaidNext(rs, js, j, Lim());
        NearestAtTurnsNext(rs, js, j, Lim());
        RelaidDrawsNext(rs, js, j, Lim(), rng.draws, es0, u0);
        assert forall m :: 0 <= m < i + 1 ==> 0 <= (js + [j])[m] < |nodes| by {
          forall m | 0 <= m < i + 1 ensures 0 <= (js + [j])[m] < |nodes| {
            if m < i { assert (js + [j])[m] == js[m]; }
          }
        }
        js := js + [j];
        i := i + 1;
      }
    }

    /** `graph.removeRandomConnection()` as seen from the map: the rooms stay
        where they are, a traversable graph stays traversable, and an
        undirected graph stays undirected and only loses links. */
    method Prune(rng: RandomSource)
      requires graph.Valid() && rng.Valid()
      modifies graph.nodes`connections, rng`used
      ensures graph.Valid() && Layout() == old(Layout())
      ensures EntrancesOf(graph.nodes) == old(EntrancesOf(graph.nodes))
      ensures Connected(old(graph.Links())) ==> Connected(graph.Links())
      ensures Undirected(old(graph.Links())) ==>
        && Undirected(graph.Links())
        && forall i :: 0 <= i < |graph.nodes| ==> graph.Links()[i] <= old(graph.Links())[i]
      ensures rng.used == old(rng.used) + 1
      ensures graph.Links() == Pruned(old(graph.Links()), graph.nodes, old(EdgesOf(graph.nodes)), rng.draws(old(rng.used)))
      ensures forall i :: 0 <= i < |old(EdgesOf(graph.nodes))| ==>
        old(EdgesOf(graph.nodes))[i].node1 in graph.nodes && old(EdgesOf(graph.nodes))[i].node2 in graph.nodes
      ensures graph.Conns() == PrunedLists(graph.nodes, old(graph.Conns()), old(EdgesOf(graph.nodes)), rng.draws(old(rng.used)))
    {
      ghost var g, cs := graph.Links(), graph.Conns();
      ghost var es := EdgesOf(graph.nodes);
      graph.EdgeEndsAmongNodes();
      ghost var u := rng.draws(rng.used);
      graph.RemoveRandomConnection(rng);
      PrunedFacts(g, graph.nodes, es, u);
    }

    /** Rooms of a graph whose rooms are all proper give proper corridor ends. */
    lemma TilesReady()
      requires graph.Valid() && AllProper(Layout())
      ensures ProperPairs(EdgeRects(EdgesOf(graph.nodes)))
      ensures forall n :: n in Ends(EdgesOf(graph.nodes)) ==> n in graph.nodes
    {
      var ns := graph.nodes;
      var es := EdgesOf(ns);
      forall k | 0 <= k < |es| ensures es[k].node1 in ns && es[k].node2 in es[k].node1.connections {
        EdgeListed(ns, k);
      }
      graph.EdgesAmongNodes(es);
      forall i | 0 <= i < |ns| ensures Proper(ns[i].Bounds()) {
        assert Layout()[i] == ns[i].Bounds();
      }
      EdgeRectsProper(ns, es);
      EndsWithin(es, ns);
    }

    /** Rooms `bi` and `bj` are the farthest pair, the graph's start and end
        room, and the only rooms flagged `start` and `end`. */
    ghost predicate EndsMarked(bi: int, bj: int)
      reads graph`nodes, graph`startNode, graph`endNode, graph.nodes`start, graph.nodes`end, graph.nodes`x, graph.nodes`y
    {
      && 0 <= bi < |graph.nodes| && 0 <= bj < |graph.nodes|
      && FarthestPair(PositionsOf(graph.nodes), bi, bj)
      && graph.startNode == Some(graph.nodes[bi]) && graph.endNode == Some(graph.nodes[bj])
      && forall i :: 0 <= i < |graph.nodes| ==> (graph.nodes[i].start <==> i == bi) && (graph.nodes[i].end <==> i == bj)
    }

    /** `graph.findMostDistancedNodes()` as seen from the map: the rooms and
        the corridors stay as they are. */
    method MarkEnds() returns (found: bool, ghost bi: int, ghost bj: int)
      requires graph.Valid()
      modifies graph`startNode, graph`endNode, graph.nodes`start, graph.nodes`end
      ensures graph.Valid() && Layout() == old(Layout()) && graph.Links() == old(graph.Links()) && graph.Conns() == old(graph.Conns())
      ensures EntrancesOf(graph.nodes) == old(EntrancesOf(graph.nodes))
      ensures Valid() == old(Valid())
      ensures found <==> |graph.nodes| >= 2
      ensures !found ==> graph.startNode == old(graph.startNode) && graph.endNode == old(graph.endNode)
      ensures found ==> EndsMarked(bi, bj)
    {
      var r, pi, pj := graph.FindMostDistancedNodes();
      found := r.Some?;
      bi, bj := pi, pj;
    }

    /** `Paint` after the end rooms are marked: the marks stay. */
    method Repaint(ghost bi: int, ghost bj: int)
      requires Valid() && graph.Valid() && AllProper(Layout()) && |graph.nodes| >= 2 && EndsMarked(bi, bj)
      modifies this`tiles, this`dualTiles
      ensures Valid() && graph.Valid() && Layout() == old(Layout())
      ensures graph.Links() == old(graph.Links()) && graph.Conns() == old(graph.Conns())
      ensures EntrancesOf(graph.nodes) == old(EntrancesOf(graph.nodes))
      ensures sameHashCount == old(sameHashCount)
      ensures EndsMarked(bi, bj) && tiles == Drawing(old(tiles)) && dualTiles == Columns(tiles, height, width + 1)
    {
      Paint();
    }

    /** `setTiles()` then `setDualTiles()`: both grids redrawn from the
        current rooms and corridors. */
    method Paint()
      requires Valid() && graph.Valid() && AllProper(Layout())
      modifies this`tiles, this`dualTiles
      ensures Valid() && graph.Valid() == old(graph.Valid())
      ensures tiles == Drawing(old(tiles)) && dualTiles == Columns(tiles, height, width + 1)
    {
      SetTiles();
      ghost var drawn := tiles;
      SetDualTiles();
      assert tiles == drawn;
    }

    /** The layout loop of `step()` over a valid graph: the corridors stay as
        they are. */
    method Relay(rng: RandomSource) returns (ghost js: seq<int>)
      requires graph.Valid() && AllProper(Layout()) && rng.Valid()
      modifies graph.nodes`x, graph.nodes`y, graph.nodes`x0, graph.nodes`y0, graph.nodes`x1, graph.nodes`y1
      modifies graph.nodes`entrances, rng`used
      ensures graph.Valid() && graph.Links() == old(graph.Links()) && AllProper(Layout())
      ensures EdgesOf(graph.nodes) == old(EdgesOf(graph.nodes))
      ensures |js| == |graph.nodes| && (forall i :: 0 <= i < |js| ==> 0 <= js[i] < |graph.nodes|)
      ensures Layout() == Relaid(old(Layout()), js, Lim()) && NearestAtTurns(old(Layout()), js, Lim())
      ensures Settled(old(Layout()), Lim()) ==> Settled(Layout(), Lim())
      ensures (EntrancesOf(graph.nodes), rng.used) ==
        RelaidDraws(old(Layout()), js, Lim(), rng.draws, old(EntrancesOf(graph.nodes)), old(rng.used))
    {
      ghost var rs, cs := Layout(), graph.Conns();
      DistinctIdsDistinct(graph.nodes);
      js := Relayout(rng);
      assert graph.Conns() == cs;
      RelaidFacts(rs, js, Lim());
    }

    /** What `Rearrange` does to the values it changes, for rooms `ns` and
        draws `draws`: the geometry `rs` becomes `rs'`, relaid as `js` says,
        each room moving away from the nearest room at its turn;
        the entrances `ens` become `ens'`, those the layout loop drew from
        cursor `u0`; the links `g` become `g'`, one corridor of edge list
        `es` dropped with the draw after those, which leaves the cursor at
        `u'`. */
    ghost predicate Rearranged(ns: seq<MapNode>, draws: nat -> real, js: seq<int>,
                               rs: seq<Rect>, ens: seq<Entrances>, u0: nat, g: seq<set<int>>, cs: seq<seq<MapNode>>,
                               es: seq<GraphEdge>,
                               rs': seq<Rect>, ens': seq<Entrances>, u': nat, g': seq<set<int>>, cs': seq<seq<MapNode>>)
    {
      && (forall m: nat :: 0.0 <= draws(m) < 1.0)
      && |rs| == |ns| && |ens| == |rs| && |js| == |rs| && |cs| == |ns|
      && (forall i :: 0 <= i < |js| ==> 0 <= js[i] < |rs|)
      && (forall i :: 0 <= i < |es| ==> es[i].node1 in ns && es[i].node2 in ns)
      && rs' == Relaid(rs, js, Lim()) && NearestAtTurns(rs, js, Lim())
      && (var d := RelaidDraws(rs, js, Lim(), draws, ens, u0);
          && ens' == d.0 && u' == d.1 + 1
          && g' == Pruned(g, ns, es, draws(d.1))
          && cs' == PrunedLists(ns, cs, es, draws(d.1)))
    }

    /** What `Finish` leaves in place of tiles `t0` and columns `d0`: with
        fewer than two rooms nothing is redrawn; otherwise rooms `bi` and
        `bj` are marked as the ends and both grids are redrawn. */
    ghost predicate Finished(t0: seq<MapTile>, d0: seq<MapDualTile>, bi: int, bj: int)
      reads this`tiles, this`dualTiles, graph`nodes, graph`startNode, graph`endNode, graph.nodes`start, graph.nodes`end
      reads graph.nodes`connections, graph.nodes`entrances
      reads graph.nodes`x, graph.nodes`y, graph.nodes`x0, graph.nodes`y0, graph.nodes`x1, graph.nodes`y1
      requires graph.Valid() && AllProper(Layout())
    {
      && (|graph.nodes| < 2 ==> tiles == t0 && dualTiles == d0)
      && (|graph.nodes| >= 2 ==>
            EndsMarked(bi, bj) && tiles == Drawing(t0) && dualTiles == Columns(tiles, height, width + 1))
    }

    /** The layout loop of `step()` over every room, then the removal of
        one random corridor. `js[i]` is the room that room `i` moved away
        from; the removal uses the draw after those of the layout loop. */
    method Rearrange(rng: RandomSource) returns (ghost js: seq<int>)
      requires graph.Valid() && AllProper(Layout()) && rng.Valid()
      modifies rng`used
      modifies graph.nodes`x, graph.nodes`y, graph.nodes`x0, graph.nodes`y0, graph.nodes`x1, graph.nodes`y1
      modifies graph.nodes`entrances, graph.nodes`connections
      ensures graph.Valid() && AllProper(Layout())
      ensures Rearranged(graph.nodes, rng.draws, js,
                         old(Layout()), old(EntrancesOf(graph.nodes)), old(rng.used), old(graph.Links()), old(graph.Conns()),
                         old(EdgesOf(graph.nodes)),
                         Layout(), EntrancesOf(graph.nodes), rng.used, graph.Links(), graph.Conns())
      ensures Settled(old(Layout()), Lim()) ==> Settled(Layout(), Lim())
      ensures Connected(old(graph.Links())) ==> Connected(graph.Links())
      ensures Undirected(old(graph.Links())) ==> Undirected(graph.Links())
    {
      js := Relay(rng);
      Prune(rng);
    }

    /** The first half of `step()`: `Rearrange`, with the stalled counter
        updated from the room geometry before and after. */
    method Move(rng: RandomSource) returns (ghost js: seq<int>)
      requires graph.Valid() && AllProper(Layout()) && rng.Valid()
      modifies this`sameHashCount, rng`used
      modifies graph.nodes`x, graph.nodes`y, graph.nodes`x0, graph.nodes`y0, graph.nodes`x1, graph.nodes`y1
      modifies graph.nodes`entrances, graph.nodes`connections
      ensures graph.Valid() && AllProper(Layout())
      ensures Rearranged(graph.nodes, rng.draws, js,
                         old(Layout()), old(EntrancesOf(graph.nodes)), old(rng.used), old(graph.Links()), old(graph.Conns()),
                         old(EdgesOf(graph.nodes)),
                         Layout(), EntrancesOf(graph.nodes), rng.used, graph.Links(), graph.Conns())
      ensures sameHashCount == NextStalled(old(sameHashCount), old(Layout()), Layout())
      ensures tiles == old(tiles) && dualTiles == old(dualTiles)
      ensures Settled(old(Layout()), Lim()) ==> Settled(Layout(), Lim())
      ensures Connected(old(graph.Links())) ==> Connected(graph.Links())
      ensures Undirected(old(graph.Links())) ==> Undirected(graph.Links())
    {
      var before := Rects(graph.nodes);
      js := Rearrange(rng);
      var after := Rects(graph.nodes);
      Count(before, after);
    }

    /** The stalled counter of `step()`, with `before` and `after` the room
        geometry that the two calls of `hash()` digest. */
    method Count(before: seq<Rect>, after: seq<Rect>)
      modifies this`sameHashCount
      ensures sameHashCount == NextStalled(old(sameHashCount), before, after)
      ensures graph.Valid() == old(graph.Valid()) && Layout() == old(Layout())
      ensures graph.Links() == old(graph.Links()) && graph.Conns() == old(graph.Conns())
    {
      sameHashCount := NextStalled(sameHashCount, before, after);
    }

    /** `step()`: relay every room, drop one random corridor, update the
        stalled counter, then mark the end rooms and redraw (see `Move` and
        `Finish`). `js[i]` is the room that room `i` moved away from; `bi`
        and `bj` are the start and end rooms. With fewer than two rooms
        `findMostDistancedNodes` throws and the grids are not redrawn. */
    method Step(rng: RandomSource) returns (ghost js: seq<int>, ghost bi: int, ghost bj: int)
      requires Valid() && graph.Valid() && AllProper(Layout()) && rng.Valid()
      modifies this`sameHashCount, this`tiles, this`dualTiles, graph`startNode, graph`endNode
      modifies graph.nodes`x, graph.nodes`y, graph.nodes`x0, graph.nodes`y0, graph.nodes`x1, graph.nodes`y1
      modifies graph.nodes`entrances, graph.nodes`connections, graph.nodes`start, graph.nodes`end, rng`used
      ensures Valid() && graph.Valid() && AllProper(Layout())
      ensures Rearranged(graph.nodes, rng.draws, js,
                         old(Layout()), old(EntrancesOf(graph.nodes)), old(rng.used), old(graph.Links()), old(graph.Conns()),
                         old(EdgesOf(graph.nodes)),
                         Layout(), EntrancesOf(graph.nodes), rng.used, graph.Links(), graph.Conns())
      ensures sameHashCount == NextStalled(old(sameHashCount), old(Layout()), Layout())
      ensures Settled(old(Layout()), Lim()) ==> Settled(Layout(), Lim())
      ensures Connected(old(graph.Links())) ==> Connected(graph.Links())
      ensures Finished(old(tiles), old(dualTiles), bi, bj)
    {
      js := Move(rng);
      bi, bj := Finish();
    }

    /** The end of `step()`: mark the farthest pair of rooms as start and
        end, then redraw both grids; rooms and corridors stay as they are.
        With fewer than two rooms the marking throws, and nothing is
        redrawn. */
    method Finish() returns (ghost bi: int, ghost bj: int)
      requires Valid() && graph.Valid() && AllProper(Layout())
      modifies this`tiles, this`dualTiles, graph`startNode, graph`endNode, graph.nodes`start, graph.nodes`end
      ensures sameHashCount == old(sameHashCount)
      ensures Valid() && graph.Valid() && AllProper(Layout())
      ensures Layout() == old(Layout()) && graph.Links() == old(graph.Links()) && graph.Conns() == old(graph.Conns())
      ensures EntrancesOf(graph.nodes) == old(EntrancesOf(graph.nodes))
      ensures Finished(old(tiles), old(dualTiles), bi, bj)
    {
      var found;
      found, bi, bj := MarkEnds();
      if found {
        Repaint(bi, bj);
      }
    }
  }
}
