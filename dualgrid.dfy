/** `setDualTiles`: the corner grid. A `width` by `height` tile grid has
    `(width + 1) * (height + 1)` corners, built column after column; corner
    `(i, j)` holds the tiles at `(i-1, j-1)`, `(i, j-1)`, `(i-1, j)` and
    `(i, j)`, each looked up with `getTile`. */
module DualGrid {
  import opened Common
  import opened Tile
  import opened DualTile
  import opened Grid

  /** The tile positions around corner `(i, j)`, in `types()` order. */
  function CornerPoints(i: int, j: int): seq<Point>
  {
    [Point(i - 1, j - 1), Point(i, j - 1), Point(i - 1, j), Point(i, j)]
  }

  /** `new MapDualTile(i, j, getTile(i-1, j-1), getTile(i, j-1), getTile(i-1, j), getTile(i, j))`. */
  function Corner(ts: seq<MapTile>, i: int, j: int): MapDualTile
  {
    MapDualTile(i, j, GetTile(ts, Point(i - 1, j - 1)), GetTile(ts, Point(i, j - 1)),
                GetTile(ts, Point(i - 1, j)), GetTile(ts, Point(i, j)))
  }

  /** On a laid grid each tile of a corner is missing exactly when its
      position is off the grid, and otherwise is the tile at that position. */
  lemma CornerFacts(ts: seq<MapTile>, w: nat, h: nat, i: int, j: int)
    requires Laid(ts, w, h)
    ensures var d, ps := Corner(ts, i, j), CornerPoints(i, j);
      && d.x == i && d.y == j
      && (forall k :: 0 <= k < 4 ==> (Corners(d)[k].Some? <==> InGrid(w, h, ps[k])))
      && (forall k :: 0 <= k < 4 && Corners(d)[k].Some? ==> Corners(d)[k] == TileAt(ts, w, h, ps[k]))
  {
    var ps := CornerPoints(i, j);
    GetTileLaid(ts, w, h, ps[0]);
    GetTileLaid(ts, w, h, ps[1]);
    GetTileLaid(ts, w, h, ps[2]);
    GetTileLaid(ts, w, h, ps[3]);
  }

  /** The corners of column `i`, rows `0 .. h`. */
  function Column(ts: seq<MapTile>, h: nat, i: int): (c: seq<MapDualTile>)
    ensures |c| == h + 1
  {
    seq(h + 1, j requires 0 <= j <= h => Corner(ts, i, j))
  }

  /** The corners of columns `0 .. n - 1`, in order. */
  function Columns(ts: seq<MapTile>, h: nat, n: nat): (ds: seq<MapDualTile>)
    ensures |ds| == n * (h + 1)
  {
    if n == 0 then [] else Columns(ts, h, n - 1) + Column(ts, h, n - 1)
  }

  /** Corner `(i, j)` sits at index `i * (height + 1) + j`. */
  lemma {:induction false} ColumnsAt(ts: seq<MapTile>, h: nat, n: nat, i: int, j: int)
    requires 0 <= i < n && 0 <= j <= h
    ensures 0 <= i * (h + 1) + j < |Columns(ts, h, n)|
    ensures Columns(ts, h, n)[i * (h + 1) + j] == Corner(ts, i, j)
  {
    var front := Columns(ts, h, n - 1);
    assert (n - 1) * (h + 1) == n * (h + 1) - (h + 1);
    if i < n - 1 {
      ColumnsAt(ts, h, n - 1, i, j);
    } else {
      assert i * (h + 1) == |front|;
    }
  }

  /** `setDualTiles()`: the nested loops over `i <= width` and `j <= height`. */
  method SetDualTiles(ts: seq<MapTile>, w: nat, h: nat) returns (ds: seq<MapDualTile>)
    ensures ds == Columns(ts, h, w + 1)
  {
    ds := [];
    var i := 0;
    while i < w + 1
      invariant 0 <= i <= w + 1 && ds == Columns(ts, h, i)
    {
      ghost var front := ds;
      var j := 0;
      while j < h + 1
        invariant 0 <= j <= h + 1 && ds == front + Column(ts, h, i)[..j]
      {
        var d := MapDualTile(i, j, GetTile(ts, Point(i - 1, j - 1)), GetTile(ts, Point(i, j - 1)),
                             GetTile(ts, Point(i - 1, j)), GetTile(ts, Point(i, j)));
        assert Column(ts, h, i)[..j + 1] == Column(ts, h, i)[..j] + [d];
        ds := ds + [d];
        j := j + 1;
      }
      assert Column(ts, h, i)[..h + 1] == Column(ts, h, i);
      i := i + 1;
    }
  }

  /** The corner grid has `(width + 1) * (height + 1)` entries; the one at
      `i * (height + 1) + j` is corner `(i, j)`, whose tiles are the grid's
      tiles around it, missing exactly off the grid. */
  lemma DualGridFacts(ts: seq<MapTile>, w: nat, h: nat, i: int, j: int)
    requires Laid(ts, w, h)
    ensures |Columns(ts, h, w + 1)| == (w + 1) * (h + 1)
    ensures 0 <= i <= w && 0 <= j <= h ==>
      var d, ps := Columns(ts, h, w + 1)[i * (h + 1) + j], CornerPoints(i, j);
      && d.x == i && d.y == j
      && (forall k :: 0 <= k < 4 ==> (Corners(d)[k].Some? <==> InGrid(w, h, ps[k])))
      && (forall k :: 0 <= k < 4 && Corners(d)[k].Some? ==> Corners(d)[k] == TileAt(ts, w, h, ps[k]))
  {
    if 0 <= i <= w && 0 <= j <= h {
      ColumnsAt(ts, h, w + 1, i, j);
      CornerFacts(ts, w, h, i, j);
    }
  }
}
