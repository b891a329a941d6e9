/** A corner of the tile grid (`MapDualTile`): the up to four tiles around a
    grid vertex and the classifications drawn from them. */
module DualTile {
  import opened Common
  import opened Tile

  /** Corner `(x, y)` sits between tiles `(x-1, y-1)`, `(x, y-1)`, `(x-1, y)` and `(x, y)`;
      a missing tile (off the grid) is `None`. */
  datatype MapDualTile = MapDualTile(x: int, y: int,
    topLeft: Option<MapTile>, topRight: Option<MapTile>,
    bottomLeft: Option<MapTile>, bottomRight: Option<MapTile>)

  /** The four neighbouring tiles, in the order every accessor lists them. */
  function Corners(d: MapDualTile): seq<Option<MapTile>>
  {
    [d.topLeft, d.topRight, d.bottomLeft, d.bottomRight]
  }

  /** The type of a possibly missing tile; a missing one counts as outside. */
  function TypeOr(t: Option<MapTile>): TileType
  {
    if t.Some? then t.value.ttype else Outside
  }

  /** `types()`. */
  function Types(d: MapDualTile): (ts: seq<TileType>)
    ensures |ts| == 4
    ensures forall k :: 0 <= k < 4 ==> ts[k] == TypeOr(Corners(d)[k])
  {
    [TypeOr(d.topLeft), TypeOr(d.topRight), TypeOr(d.bottomLeft), TypeOr(d.bottomRight)]
  }

  /** `types().filter(type => type === t).length`. */
  function Count(ts: seq<TileType>, t: TileType): nat
  {
    if ts == [] then 0 else Count(ts[..|ts| - 1], t) + (if ts[|ts| - 1] == t then 1 else 0)
  }

  /** `hasOneWalls`, `hasOnePaths`, `hasOneInsides`, `hasOneOutsides` for `t` the respective type. */
  predicate HasOne(d: MapDualTile, t: TileType)
  {
    Count(Types(d), t) > 0
  }

  /** `hasTwoWalls`, `hasTwoPaths`, `hasTwoInsides`, `hasTwoOutsides` for `t` the respective type. */
  predicate HasTwo(d: MapDualTile, t: TileType)
  {
    Count(Types(d), t) > 1
  }

  /** A count is positive exactly when the type occurs. */
  lemma {:induction false} CountPositive(ts: seq<TileType>, t: TileType)
    ensures Count(ts, t) > 0 <==> t in ts
  {
    if ts != [] {
      CountPositive(ts[..|ts| - 1], t);
      assert ts == ts[..|ts| - 1] + [ts[|ts| - 1]];
    }
  }

  /** A count above one means two different positions hold the type. */
  lemma {:induction false} CountTwo(ts: seq<TileType>, t: TileType)
    ensures Count(ts, t) > 1 <==> exists i, j :: 0 <= i < j < |ts| && ts[i] == t && ts[j] == t
  {
    if ts != [] {
      var front := ts[..|ts| - 1];
      CountTwo(front, t);
      CountPositive(front, t);
      if Count(ts, t) > 1 {
        if ts[|ts| - 1] == t {
          var i :| 0 <= i < |front| && front[i] == t;
          assert ts[i] == t && ts[|ts| - 1] == t;
        } else {
          var i, j :| 0 <= i < j < |front| && front[i] == t && front[j] == t;
          assert ts[i] == t && ts[j] == t;
        }
      }
    }
  }

  /** `hasOne` holds exactly when some corner has the type, `hasTwo` exactly when
      two different corners have it; so `hasTwo` implies `hasOne`. */
  lemma HasOneTwo(d: MapDualTile, t: TileType)
    ensures HasOne(d, t) <==> exists k :: 0 <= k < 4 && Types(d)[k] == t
    ensures HasTwo(d, t) <==> exists i, j :: 0 <= i < j < 4 && Types(d)[i] == t && Types(d)[j] == t
    ensures HasTwo(d, t) ==> HasOne(d, t)
  {
    CountPositive(Types(d), t);
    CountTwo(Types(d), t);
  }

  /** The five type counts add up to the number of entries. */
  lemma {:induction false} CountsSum(ts: seq<TileType>)
    ensures Count(ts, Outside) + Count(ts, Wall) + Count(ts, Path) + Count(ts, Inside) + Count(ts, Door) == |ts|
  {
    if ts != [] {
      CountsSum(ts[..|ts| - 1]);
    }
  }

  /** Every corner is counted under exactly one of the five types. */
  lemma TypesCountFour(d: MapDualTile)
    ensures var ts := Types(d);
      Count(ts, Outside) + Count(ts, Wall) + Count(ts, Path) + Count(ts, Inside) + Count(ts, Door) == 4
  {
    CountsSum(Types(d));
  }

  /** `marchingSquares()`: 0 for an outside or missing corner, 1 otherwise. */
  function MarchingSquares(d: MapDualTile): (ms: seq<int>)
    ensures |ms| == 4
    ensures forall k :: 0 <= k < 4 ==> (ms[k] == 0 <==> Types(d)[k] == Outside) && (ms[k] == 0 || ms[k] == 1)
  {
    seq(4, k requires 0 <= k < 4 =>
      var c := Corners(d)[k];
      if (c.Some? && c.value.ttype == Outside) || c.None? then 0 else 1)
  }

  /** No corner is outside exactly when every marching-squares bit is set. */
  lemma NoOutsideIffAllSet(d: MapDualTile)
    ensures !HasOne(d, Outside) <==> forall k :: 0 <= k < 4 ==> MarchingSquares(d)[k] == 1
  {
    HasOneTwo(d, Outside);
    var ms := MarchingSquares(d);
    if forall k :: 0 <= k < 4 ==> ms[k] == 1 {
      assert forall k :: 0 <= k < 4 ==> Types(d)[k] != Outside;
    }
  }

  datatype DualTileJson = DualTileJson(x: int, y: int,
    topLeft: Option<Id>, topRight: Option<Id>, bottomLeft: Option<Id>, bottomRight: Option<Id>)

  /** The four corner ids, in `types()` order. */
  function JsonCorners(j: DualTileJson): seq<Option<Id>>
  {
    [j.topLeft, j.topRight, j.bottomLeft, j.bottomRight]
  }

  function IdOf(t: Option<MapTile>): Option<Id>
  {
    if t.Some? then Some(t.value.id) else None
  }

  /** `toJSON()`: each corner by its tile's id, `null` for a missing one. */
  function ToJson(d: MapDualTile): (j: DualTileJson)
    ensures j.x == d.x && j.y == d.y
    ensures forall k :: 0 <= k < 4 ==> (JsonCorners(j)[k].Some? <==> Corners(d)[k].Some?)
    ensures forall k :: 0 <= k < 4 && Corners(d)[k].Some? ==> JsonCorners(j)[k].value == Corners(d)[k].value.id
  {
    DualTileJson(d.x, d.y, IdOf(d.topLeft), IdOf(d.topRight), IdOf(d.bottomLeft), IdOf(d.bottomRight))
  }

  /** `tiles.find(tile => tile.id === id) ?? null`: the first tile with that id;
      a `null` id matches no tile. */
  function FindTile(tiles: seq<MapTile>, id: Option<Id>): (r: Option<MapTile>)
    ensures r.Some? <==> id.Some? && exists k :: 0 <= k < |tiles| && tiles[k].id == id.value
    ensures r.Some? ==> r.value in tiles && r.value.id == id.value
  {
    if id.None? || tiles == [] then None
    else if tiles[0].id == id.value then Some(tiles[0])
    else
      var r := FindTile(tiles[1..], id);
      assert forall k :: 1 <= k < |tiles| ==> tiles[k] == tiles[1..][k - 1];
      r
  }

  /** When the ids in `tiles` are unique, the id lookup finds the very tile with that id. */
  lemma {:induction false} FindUnique(tiles: seq<MapTile>, t: MapTile)
    requires t in tiles
    requires forall i, j :: 0 <= i < j < |tiles| ==> tiles[i].id != tiles[j].id
    ensures FindTile(tiles, Some(t.id)) == Some(t)
  {
    if tiles[0] != t {
      assert tiles[0].id != t.id by {
        var k :| 0 <= k < |tiles| && tiles[k] == t;
      }
      assert t in tiles[1..];
      FindUnique(tiles[1..], t);
    }
  }

  /** `MapDualTile.fromJSON(json, tiles)`. */
  function FromJson(j: DualTileJson, tiles: seq<MapTile>): (d: MapDualTile)
    ensures d.x == j.x && d.y == j.y
    ensures forall k :: 0 <= k < 4 ==> Corners(d)[k] == FindTile(tiles, JsonCorners(j)[k])
  {
    MapDualTile(j.x, j.y, FindTile(tiles, j.topLeft), FindTile(tiles, j.topRight),
                FindTile(tiles, j.bottomLeft), FindTile(tiles, j.bottomRight))
  }

  /** Reading a written corner back against tiles with unique ids that hold its
      tiles gives the same corner; a missing corner stays missing. */
  lemma JsonRoundTrip(d: MapDualTile, tiles: seq<MapTile>)
    requires forall i, j :: 0 <= i < j < |tiles| ==> tiles[i].id != tiles[j].id
    requires forall k :: 0 <= k < 4 && Corners(d)[k].Some? ==> Corners(d)[k].value in tiles
    ensures FromJson(ToJson(d), tiles) == d
  {
    forall k | 0 <= k < 4 && Corners(d)[k].Some? ensures FindTile(tiles, Some(Corners(d)[k].value.id)) == Corners(d)[k] {
      FindUnique(tiles, Corners(d)[k].value);
    }
    assert Corners(d)[0] == d.topLeft && Corners(d)[1] == d.topRight;
    assert Corners(d)[2] == d.bottomLeft && Corners(d)[3] == d.bottomRight;
  }

  /** An id missing from the tiles reads back as a missing corner rather than an error. */
  lemma UnknownIdIsMissing(j: DualTileJson, tiles: seq<MapTile>)
    requires j.topLeft.Some? && forall k :: 0 <= k < |tiles| ==> tiles[k].id != j.topLeft.value
    ensures FromJson(j, tiles).topLeft == None
  {
  }

  /** The objects the corner glyphs depend on. */
  function Parents(d: MapDualTile): set<object>
  {
    (if d.topLeft.Some? then ParentSet(d.topLeft.value) else {}) +
    (if d.topRight.Some? then ParentSet(d.topRight.value) else {}) +
    (if d.bottomLeft.Some? then ParentSet(d.bottomLeft.value) else {}) +
    (if d.bottomRight.Some? then ParentSet(d.bottomRight.value) else {})
  }

  function GlyphOr(t: Option<MapTile>): char
    reads if t.Some? then ParentSet(t.value) else {}
  {
    if t.Some? then Glyph(t.value) else 'x'
  }

  /** `toString()`: each corner's glyph in `types()` order, `'x'` for a missing corner. */
  function ToString(d: MapDualTile): (s: seq<char>)
    reads Parents(d)
    ensures |s| == 4
    ensures forall k :: 0 <= k < 4 ==> (s[k] == 'x' <==> Corners(d)[k].None?)
    ensures forall k :: 0 <= k < 4 && Corners(d)[k].Some? ==> s[k] == Glyph(Corners(d)[k].value)
  {
    var s := [GlyphOr(d.topLeft), GlyphOr(d.topRight), GlyphOr(d.bottomLeft), GlyphOr(d.bottomRight)];
    forall k | 0 <= k < 4 && Corners(d)[k].Some? ensures s[k] != 'x' {
      var t := Corners(d)[k].value;
      GlyphDecodes(t.ttype, t.parent.Some? && t.parent.value.start, t.parent.Some? && t.parent.value.end);
    }
    s
  }
}
