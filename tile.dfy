/** A grid cell of the rasterised dungeon (`MapTile`): its type, its grid
    position, the room it belongs to and its distance to the nearest room
    interior. Tiles are values; a grid keeps them in an array and replaces
    one to update it in place. */
module Tile {
  import opened Common
  import opened Node

  datatype TileType = Outside | Wall | Path | Inside | Door

  /** A distance to the nearest interior; `Inf` stands for `Infinity`. */
  datatype Dist = Fin(n: int) | Inf

  /** `a < b` on distances, with `Infinity < Infinity` false. */
  predicate Below(a: Dist, b: Dist)
  {
    match (a, b)
    case (Fin(m), Fin(n)) => m < n
    case (Fin(_), Inf) => true
    case (Inf, _) => false
  }

  /** `Math.min` of two distances. */
  function Lower(a: Dist, b: Dist): (m: Dist)
    ensures m == a || m == b
    ensures !Below(a, m) && !Below(b, m)
  {
    if Below(b, a) then b else a
  }

  datatype MapTile = MapTile(id: Id, ttype: TileType, x: int, y: int, parent: Option<MapNode>, distance: Dist)

  /** Grid position of a tile. */
  function At(t: MapTile): Point
  {
    Point(t.x, t.y)
  }

  /** A new tile as the constructor makes it: no parent, infinitely far from any interior. */
  function NewTile(id: Id, ttype: TileType, x: int, y: int): (t: MapTile)
    ensures t.id == id && t.ttype == ttype && At(t) == Point(x, y)
    ensures t.parent == None && t.distance == Inf
  {
    MapTile(id, ttype, x, y, None, Inf)
  }

  /** `tile.setType(type)`. */
  function SetType(t: MapTile, ttype: TileType): (r: MapTile)
    ensures r.ttype == ttype
    ensures r.id == t.id && r.x == t.x && r.y == t.y && r.parent == t.parent && r.distance == t.distance
  {
    t.(ttype := ttype)
  }

  /** Setting a type twice keeps only the second; setting the current type changes nothing. */
  lemma SetTypeLastWins(t: MapTile, a: TileType, b: TileType)
    ensures SetType(SetType(t, a), b) == SetType(t, b)
    ensures SetType(t, t.ttype) == t
  {
  }

  datatype TileJson = TileJson(ttype: TileType, x: int, y: int)

  /** `tile.toJSON()`. */
  function ToJson(t: MapTile): (j: TileJson)
    ensures j.ttype == t.ttype && Point(j.x, j.y) == At(t)
  {
    TileJson(t.ttype, t.x, t.y)
  }

  /** `MapTile.fromJSON(json)`, with `id` the fresh identifier the constructor draws. */
  function FromJson(j: TileJson, id: Id): (t: MapTile)
    ensures t == NewTile(id, j.ttype, j.x, j.y)
  {
    MapTile(id, j.ttype, j.x, j.y, None, Inf)
  }

  /** Reading a tile back keeps its type and position and resets the rest;
      writing a read tile gives the record back unchanged. */
  lemma JsonRoundTrip(t: MapTile, j: TileJson, id: Id)
    ensures var r := FromJson(ToJson(t), id);
      r.ttype == t.ttype && At(r) == At(t) && r.id == id && r.parent == None && r.distance == Inf
    ensures ToJson(FromJson(j, id)) == j
  {
  }

  /** The glyph `toString` prints for a tile of type `ttype` whose parent has the given flags. */
  function GlyphOf(ttype: TileType, parentStart: bool, parentEnd: bool): char
  {
    match ttype
    case Wall => ' '
    case Inside => if parentStart then 'S' else if parentEnd then 'E' else ' '
    case Outside => '\U{25A0}'
    case Path => '.'
    case Door => '_'
  }

  /** Every glyph but the blank tells the tile type; the start flag wins over the end flag. */
  lemma GlyphDecodes(ttype: TileType, s: bool, e: bool)
    ensures GlyphOf(ttype, s, e) == '\U{25A0}' <==> ttype == Outside
    ensures GlyphOf(ttype, s, e) == '.' <==> ttype == Path
    ensures GlyphOf(ttype, s, e) == '_' <==> ttype == Door
    ensures GlyphOf(ttype, s, e) == 'S' <==> ttype == Inside && s
    ensures GlyphOf(ttype, s, e) == 'E' <==> ttype == Inside && !s && e
    ensures GlyphOf(ttype, s, e) == ' ' <==> ttype == Wall || (ttype == Inside && !s && !e)
    ensures GlyphOf(ttype, s, e) != 'x'
  {
  }

  /** The objects a tile's glyph depends on: its parent room. */
  function ParentSet(t: MapTile): set<object>
  {
    if t.parent.Some? then {t.parent.value} else {}
  }

  /** `tile.toString()`: a missing parent counts as neither start nor end. */
  function Glyph(t: MapTile): char
    reads ParentSet(t)
  {
    var s := t.parent.Some? && t.parent.value.start;
    var e := t.parent.Some? && t.parent.value.end;
    GlyphOf(t.ttype, s, e)
  }
}
