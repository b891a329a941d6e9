/** `NodeFactory`: a constant table of seven room templates and the jittered
    constructor that places a room from a template inside an 8 by 8 cell.
    The factory's node is returned as a record (`Room`): the eight-argument
    node constructor it calls is not part of this model. */
module Factory {
  import opened Common
  import opened Node
  import opened Random

  /** One listed entrance, `{ side, i }`. */
  datatype Entrance = Entrance(side: Side, i: int)

  /** A template: its type name, footprint, the largest jitter of its origin
      and its entrance list (`data` is empty in every template). */
  datatype Template = Template(kind: string, width: nat, height: nat, maxXOffset: nat, maxYOffset: nat, entrances: seq<Entrance>)

  /** A room made by `createNode`: type, geometry and entrance list. */
  datatype Room = Room(kind: string, bounds: Rect, entrances: seq<Entrance>)

  /** The entrances shared by every template: index 1 on each side. */
  const Corners: seq<Entrance> := [Entrance(Top, 1), Entrance(Bottom, 1), Entrance(Left, 1), Entrance(Right, 1)]

  /** The keys of `nodeTemplates` in the order `Object.keys` lists them. */
  const Keys: seq<string> := ["3x3", "3x5", "5x3", "5x5", "5x7", "7x5", "7x7"]

  /** `nodeTemplates`. */
  const NodeTemplates: map<string, Template> := map[
    "3x3" := Template("3x3", 3, 3, 5, 5, Corners),
    "3x5" := Template("3x5", 3, 5, 5, 3, Corners + [Entrance(Left, 3), Entrance(Right, 3)]),
    "5x3" := Template("5x3", 5, 3, 3, 5, Corners + [Entrance(Top, 3), Entrance(Bottom, 3)]),
    "5x5" := Template("5x5", 5, 5, 3, 3,
      Corners + [Entrance(Top, 3), Entrance(Bottom, 3), Entrance(Left, 3), Entrance(Right, 3)]),
    "5x7" := Template("5x7", 5, 7, 3, 1,
      Corners + [Entrance(Top, 3), Entrance(Bottom, 3), Entrance(Left, 3), Entrance(Right, 3),
                 Entrance(Left, 5), Entrance(Right, 5)]),
    "7x5" := Template("7x5", 7, 5, 1, 3,
      Corners + [Entrance(Top, 3), Entrance(Bottom, 3), Entrance(Left, 3), Entrance(Right, 3),
                 Entrance(Top, 5), Entrance(Bottom, 5)]),
    "7x7" := Template("7x7", 7, 7, 1, 1,
      Corners + [Entrance(Top, 3), Entrance(Bottom, 3), Entrance(Left, 3), Entrance(Right, 3),
                 Entrance(Top, 5), Entrance(Bottom, 5), Entrance(Left, 5), Entrance(Right, 5)])
  ]

  /** The length of the side an entrance sits on: the width for the top and
      bottom walls, the height for the left and right walls. */
  function SideLength(t: Template, side: Side): nat
  {
    match side
    case Top => t.width
    case Bottom => t.width
    case Left => t.height
    case Right => t.height
  }

  /** A template that fits its key: the type is the key, every entrance lies
      strictly inside its wall (not on a corner), and footprint plus jitter
      fills exactly eight tiles in each direction. */
  predicate WellFormed(key: string, t: Template)
  {
    && t.kind == key
    && |t.entrances| > 0
    && (forall k :: 0 <= k < |t.entrances| ==> 1 <= t.entrances[k].i <= SideLength(t, t.entrances[k].side) - 2)
    && t.width + t.maxXOffset == 8
    && t.height + t.maxYOffset == 8
  }

  /** Every entry of `nodeTemplates` is well formed. */
  lemma TemplatesWellFormed()
    ensures forall key :: key in NodeTemplates ==> WellFormed(key, NodeTemplates[key])
  {
    forall key | key in NodeTemplates ensures WellFormed(key, NodeTemplates[key]) {
      TemplateWellFormed(key);
    }
  }

  /** The entry of one key of `nodeTemplates` is well formed. */
  lemma TemplateWellFormed(key: string)
    requires key in NodeTemplates
    ensures WellFormed(key, NodeTemplates[key])
  {
  }

  /** `Object.keys` lists each of the seven keys of `nodeTemplates` exactly once. */
  lemma KeysListed()
    ensures |Keys| == 7 && Distinct(Keys) && (forall key :: key in Keys <==> key in NodeTemplates)
  {
    forall i, j | 0 <= i < j < |Keys| ensures Keys[i] != Keys[j] {
      assert Keys[i][0] != Keys[j][0] || Keys[i][2] != Keys[j][2];
    }
  }

  /** The room `createNode` builds from template `t` at `(x, y)` with the
      two draws `dx` and `dy`: origin jittered by the draws, offsets `0, 0`
      to `width, height`, the template's type and entrances. */
  function Jittered(t: Template, x: int, y: int, dx: int, dy: int): (n: Room)
    requires 0 <= dx <= t.maxXOffset && 0 <= dy <= t.maxYOffset && t.width >= 1 && t.height >= 1
    ensures n.kind == t.kind && n.entrances == t.entrances
    ensures Proper(n.bounds) && Width(n.bounds) == t.width && Height(n.bounds) == t.height
    ensures x <= n.bounds.x <= x + t.maxXOffset && y <= n.bounds.y <= y + t.maxYOffset
  {
    Room(t.kind, Rect(x + dx, y + dy, 0, 0, t.width, t.height), t.entrances)
  }

  /** A room made from a well-formed template at cell `(x, y)` covers only
      tiles of the 8 by 8 cell `[x, x + 8) x [y, y + 8)`. */
  lemma JitteredInCell(key: string, t: Template, x: int, y: int, dx: int, dy: int)
    requires WellFormed(key, t) && t.width >= 1 && t.height >= 1
    requires 0 <= dx <= t.maxXOffset && 0 <= dy <= t.maxYOffset
    ensures forall p :: p in Area(Jittered(t, x, y, dx, dy).bounds, 0) ==> x <= p.x < x + 8 && y <= p.y < y + 8
  {
    var r := Jittered(t, x, y, dx, dy).bounds;
    forall p | p in Area(r, 0) ensures x <= p.x < x + 8 && y <= p.y < y + 8 {
      assert InBox(r, 0, p);
    }
  }

  /** `createNode(type, x, y)`: two draws of `randomInt(0, maxXOffset)` and
      `randomInt(0, maxYOffset)` jitter the origin. */
  method CreateNode(kind: string, x: int, y: int, rng: RandomSource) returns (n: Room)
    requires kind in NodeTemplates && rng.Valid()
    modifies rng`used
    ensures rng.used == old(rng.used) + 2
    ensures var t := NodeTemplates[kind];
      var dx, dy := RandomIntOf(rng.draws(old(rng.used)), 0, t.maxXOffset), RandomIntOf(rng.draws(old(rng.used) + 1), 0, t.maxYOffset);
      && 0 <= dx <= t.maxXOffset && 0 <= dy <= t.maxYOffset
      && n == Jittered(t, x, y, dx, dy)
  {
    TemplatesWellFormed();
    var t := NodeTemplates[kind];
    var dx := rng.RandomInt(0, t.maxXOffset);
    var dy := rng.RandomInt(0, t.maxYOffset);
    n := Jittered(t, x, y, dx, dy);
  }

  /** `createRandomNode(x, y)`: the key at index `randomInt(0, 6)` of the
      seven keys, then `createNode` with the next two draws. */
  method CreateRandomNode(x: int, y: int, rng: RandomSource) returns (n: Room)
    requires rng.Valid()
    modifies rng`used
    ensures rng.used == old(rng.used) + 3
    ensures var k := RandomIntOf(rng.draws(old(rng.used)), 0, |Keys| - 1);
      && 0 <= k < |Keys| && n.kind == Keys[k]
      && n.bounds.x0 == 0 && n.bounds.y0 == 0
      && n.bounds.x1 == NodeTemplates[Keys[k]].width && n.bounds.y1 == NodeTemplates[Keys[k]].height
  {
    KeysListed();
    var k := rng.RandomInt(0, |Keys| - 1);
    n := CreateNode(Keys[k], x, y, rng);
  }
}
