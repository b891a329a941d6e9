/** A room ("node"): an integer rectangle given by an origin `(x, y)` and
    four offsets `x0, y0, x1, y1`, one entrance index per side, start/end
    flags and its connections. The geometry is pure (functions on `Rect`);
    the class `MapNode` updates its fields in place. */
module Node {
  import opened Common
  import opened Random

  datatype Side = Top | Bottom | Left | Right

  /** The entrance index `i` on each side of a room. */
  datatype Entrances = Entrances(top: int, bottom: int, left: int, right: int)
  {
    function At(side: Side): int
    {
      match side
      case Top => top
      case Bottom => bottom
      case Left => left
      case Right => right
    }
  }

  /** Entrances of a freshly constructed room. */
  const DefaultEntrances: Entrances := Entrances(1, 1, 1, 1)

  /** The geometry of a room. */
  datatype Rect = Rect(x: int, y: int, x0: int, y0: int, x1: int, y1: int)

  function Width(r: Rect): int { r.x1 - r.x0 }

  function Height(r: Rect): int { r.y1 - r.y0 }

  function Origin(r: Rect): Point { Point(r.x, r.y) }

  /** `getAreaSize()`. */
  function AreaSize(r: Rect): int
  {
    Width(r) * Height(r)
  }

  /** Both dimensions at least one; every resize operation keeps it. */
  predicate Proper(r: Rect)
  {
    Width(r) >= 1 && Height(r) >= 1
  }

  /** The box `getArea(buffer)` covers: it starts at `(x + x0, y + y0)` and is
      `Width + 2 * buffer` wide and `Height + 2 * buffer` high. */
  predicate InBox(r: Rect, buffer: nat, p: Point)
  {
    && r.x + r.x0 <= p.x < r.x + r.x0 + Width(r) + 2 * buffer
    && r.y + r.y0 <= p.y < r.y + r.y0 + Height(r) + 2 * buffer
  }

  /** `getArea(buffer)`: point `i` is `(x + x0 + i % w, y + y0 + i / w)`,
      with `w` and `h` the buffered width and height. */
  function Area(r: Rect, buffer: nat): (pts: seq<Point>)
    requires Proper(r)
    ensures |pts| == (Width(r) + 2 * buffer) * (Height(r) + 2 * buffer)
    ensures forall p :: p in pts <==> InBox(r, buffer, p)
    ensures forall i, j :: 0 <= i < j < |pts| ==> pts[i] != pts[j]
  {
    var w := Width(r) + 2 * buffer;
    var h := Height(r) + 2 * buffer;
    var pts := seq(w * h, i requires 0 <= i < w * h => AreaPoint(r, w, i));
    forall p | p in pts ensures InBox(r, buffer, p) {
      var i :| 0 <= i < |pts| && pts[i] == p;
      AreaPointInBox(r, buffer, i);
    }
    forall p | InBox(r, buffer, p) ensures p in pts {
      var q, c := p.y - r.y - r.y0, p.x - r.x - r.x0;
      IndexInRange(q, c, w, h);
      DivModOf(q, c, w);
      assert pts[q * w + c] == p;
    }
    forall i, j | 0 <= i < j < |pts| ensures pts[i] != pts[j] {
      AreaPointInjective(r, w, i, j);
    }
    pts
  }

  /** Point `i` of a row-major walk over rows `w` wide starting at the footprint's corner. */
  function AreaPoint(r: Rect, w: int, i: int): Point
    requires w > 0
  {
    Point(r.x + r.x0 + i % w, r.y + r.y0 + i / w)
  }

  lemma AreaPointInBox(r: Rect, buffer: nat, i: int)
    requires Proper(r)
    requires 0 <= i < (Width(r) + 2 * buffer) * (Height(r) + 2 * buffer)
    ensures InBox(r, buffer, AreaPoint(r, Width(r) + 2 * buffer, i))
  {
    var w := Width(r) + 2 * buffer;
    var h := Height(r) + 2 * buffer;
    assert i == (i / w) * w + i % w;
    if i / w >= h {
      MulMonotone(h, i / w, w);
      assert w * h == h * w;
    }
  }

  lemma AreaPointInjective(r: Rect, w: int, i: int, j: int)
    requires w > 0 && i != j
    ensures AreaPoint(r, w, i) != AreaPoint(r, w, j)
  {
    assert i == (i / w) * w + i % w && j == (j / w) * w + j % w;
  }

  /** `getWalls()`: the area points with a 4-neighbour outside the area. */
  function Walls(r: Rect): (ws: seq<Point>)
    requires Proper(r)
  {
    var area := Area(r, 0);
    Filter(area, (p: Point) =>
      || Point(p.x, p.y - 1) !in area
      || Point(p.x, p.y + 1) !in area
      || Point(p.x - 1, p.y) !in area
      || Point(p.x + 1, p.y) !in area)
  }

  /** First or last column, or first or last row, of the footprint. */
  predicate OnBorder(r: Rect, p: Point)
  {
    || p.x == r.x + r.x0 || p.x == r.x + r.x1 - 1
    || p.y == r.y + r.y0 || p.y == r.y + r.y1 - 1
  }

  /** The walls are exactly the footprint points on its first or last row or column. */
  lemma WallsAreBorder(r: Rect, p: Point)
    requires Proper(r)
    ensures p in Walls(r) <==> p in Area(r, 0) && OnBorder(r, p)
    ensures p in Walls(r) ==> p in Area(r, 0)
  {
    var area := Area(r, 0);
    var f := (p: Point) =>
      || Point(p.x, p.y - 1) !in area
      || Point(p.x, p.y + 1) !in area
      || Point(p.x - 1, p.y) !in area
      || Point(p.x + 1, p.y) !in area;
    assert Walls(r) == Filter(area, f);
    if p in area {
      NeighbourOutIffBorder(r, p);
      assert f(p) <==> OnBorder(r, p);
    }
  }

  /** Inside the footprint, a 4-neighbour lies outside it exactly on the border. */
  lemma NeighbourOutIffBorder(r: Rect, p: Point)
    requires Proper(r) && InBox(r, 0, p)
    ensures OnBorder(r, p) <==>
      || !InBox(r, 0, Point(p.x, p.y - 1)) || !InBox(r, 0, Point(p.x, p.y + 1))
      || !InBox(r, 0, Point(p.x - 1, p.y)) || !InBox(r, 0, Point(p.x + 1, p.y))
  {
  }

  /** `hasPoint(x, y)`: inclusive of `x + x1` and `y + y1`. */
  predicate HasPoint(r: Rect, p: Point)
  {
    r.x + r.x0 <= p.x <= r.x + r.x1 && r.y + r.y0 <= p.y <= r.y + r.y1
  }

  /** `overlaps(other, buffer)`: some buffered area point lies in `other`. */
  predicate Overlaps(r: Rect, other: Rect, buffer: nat)
    requires Proper(r)
  {
    exists p :: p in Area(r, buffer) && HasPoint(other, p)
  }

  /** The buffered area grows with the buffer, so overlap does too. */
  lemma OverlapsGrowsWithBuffer(r: Rect, other: Rect, buffer: nat)
    requires Proper(r)
    ensures forall p :: p in Area(r, buffer) ==> p in Area(r, buffer + 1)
    ensures Overlaps(r, other, buffer) ==> Overlaps(r, other, buffer + 1)
  {
    if Overlaps(r, other, buffer) {
      var p :| p in Area(r, buffer) && HasPoint(other, p);
      assert p in Area(r, buffer + 1);
    }
  }

  /** Overlap in closed form: the two column ranges meet and the two row ranges meet. */
  lemma OverlapsIff(r: Rect, other: Rect, buffer: nat)
    requires Proper(r)
    ensures Overlaps(r, other, buffer) <==>
      && Max(r.x + r.x0, other.x + other.x0) <= Min(r.x + r.x0 + Width(r) + 2 * buffer - 1, other.x + other.x1)
      && Max(r.y + r.y0, other.y + other.y0) <= Min(r.y + r.y0 + Height(r) + 2 * buffer - 1, other.y + other.y1)
  {
    var px := Max(r.x + r.x0, other.x + other.x0);
    var py := Max(r.y + r.y0, other.y + other.y0);
    if px <= Min(r.x + r.x0 + Width(r) + 2 * buffer - 1, other.x + other.x1)
      && py <= Min(r.y + r.y0 + Height(r) + 2 * buffer - 1, other.y + other.y1)
    {
      assert Point(px, py) in Area(r, buffer) && HasPoint(other, Point(px, py));
    }
  }

  /** `translate(dx, dy)` on the geometry. */
  function Translated(r: Rect, dx: int, dy: int): Rect
  {
    r.(x := r.x + dx, y := r.y + dy)
  }

  /** Translating back restores the origin; offsets and area never change. */
  lemma TranslateRoundTrip(r: Rect, dx: int, dy: int)
    ensures Translated(Translated(r, dx, dy), -dx, -dy) == r
    ensures AreaSize(Translated(r, dx, dy)) == AreaSize(r)
    ensures Proper(Translated(r, dx, dy)) == Proper(r)
  {
  }

  /** The eight grow/shrink operations. */
  datatype ResizeOp = AddTop | AddBottom | AddLeft | AddRight
                    | RemoveTop | RemoveBottom | RemoveLeft | RemoveRight

  /** The single offset step each operation tries first. */
  function Tentative(r: Rect, op: ResizeOp): Rect
  {
    match op
    case AddTop => r.(y0 := r.y0 - 1)
    case AddBottom => r.(y1 := r.y1 + 1)
    case AddLeft => r.(x0 := r.x0 - 1)
    case AddRight => r.(x1 := r.x1 + 1)
    case RemoveTop => r.(y0 := r.y0 + 1)
    case RemoveBottom => r.(y1 := r.y1 - 1)
    case RemoveLeft => r.(x0 := r.x0 + 1)
    case RemoveRight => r.(x1 := r.x1 - 1)
  }

  /** The step is undone exactly when the area would drop below one. */
  predicate Reverts(r: Rect, op: ResizeOp)
  {
    AreaSize(Tentative(r, op)) < 1
  }

  /** The geometry after an `add*` / `remove*` call. */
  function Resized(r: Rect, op: ResizeOp): Rect
  {
    if Reverts(r, op) then r else Tentative(r, op)
  }

  /** Only the operation's own offset moves, by one, and never the origin;
      otherwise nothing changes. The area stays at least one, and a proper
      room stays proper; for a proper room only shrinking a side of length
      one reverts. */
  lemma ResizeFacts(r: Rect, op: ResizeOp)
    ensures Resized(r, op).x == r.x && Resized(r, op).y == r.y
    ensures Resized(r, op) == r <==> Reverts(r, op)
    ensures AreaSize(r) >= 1 ==> AreaSize(Resized(r, op)) >= 1
    ensures Proper(r) ==> Proper(Resized(r, op))
    ensures Proper(r) ==> (Reverts(r, op) <==>
      || (op == RemoveTop && Height(r) == 1) || (op == RemoveBottom && Height(r) == 1)
      || (op == RemoveLeft && Width(r) == 1) || (op == RemoveRight && Width(r) == 1))
  {
    var t := Tentative(r, op);
    if Proper(r) {
      // the dimension the operation does not touch stays at least one
      match op
      case AddTop | AddBottom | RemoveTop | RemoveBottom =>
        assert Width(t) == Width(r) >= 1;
        PositiveFactor(Height(t), Width(t));
      case _ =>
        assert Height(t) == Height(r) >= 1;
        PositiveFactor(Width(t), Height(t));
    }
  }

  /** With the other factor at least one, the area is at least one exactly when this factor is. */
  lemma PositiveFactor(a: int, b: int)
    requires b >= 1
    ensures a * b >= 1 <==> a >= 1
  {
    if a >= 1 {
      MulAtLeast(a, b);
    } else {
      MulNonNeg(-a, b);
    }
  }

  /** `getEntranceCoordinates(side)`: top and bottom divide the index by the
      height, left and right by the width, as the generator does. */
  function EntranceCoordinates(r: Rect, e: Entrances, side: Side): (p: Point)
    requires Proper(r)
    ensures side == Top ==> p.y == r.y + r.y0
    ensures side == Bottom ==> p.y == r.y + r.y1
    ensures side == Left ==> p.x == r.x + r.x0
    ensures side == Right ==> p.x == r.x + r.x1
    ensures (side == Top || side == Bottom) && 0 <= e.At(side) < Width(r) ==> r.x + r.x0 <= p.x < r.x + r.x1
    ensures (side == Left || side == Right) && 0 <= e.At(side) < Height(r) ==> r.y + r.y0 <= p.y < r.y + r.y1
  {
    var w, h := Width(r), Height(r);
    var i := e.At(side);
    DivAtMost(i, h);
    DivAtMost(i, w);
    match side
    case Top => Point(r.x + r.x0 + i / h, r.y + r.y0)
    case Bottom => Point(r.x + r.x0 + i / h, r.y + r.y1)
    case Left => Point(r.x + r.x0, r.y + r.y0 + i / w)
    case Right => Point(r.x + r.x1, r.y + r.y0 + i / w)
  }

  lemma DivAtMost(i: int, d: int)
    requires d >= 1
    ensures i >= 0 ==> 0 <= i / d <= i
  {
    if i >= 0 {
      var q := i / d;
      assert i == q * d + i % d;
      if q >= 1 {
        MulAtLeast(d, q);
        assert d * q == q * d;
      }
    }
  }

  /** `getEntraceDirectionClosestToNode`: the side of `a` facing `b`; left or
      right only when the horizontal distance strictly dominates. */
  function EntranceDirectionClosestTo(a: Point, b: Point): (side: Side)
    ensures (side == Left || side == Right) <==> Abs(a.x - b.x) > Abs(a.y - b.y)
    ensures side == Left ==> b.x < a.x
    ensures side == Right ==> b.x > a.x
    ensures side == Top ==> b.y < a.y
    ensures side == Bottom ==> b.y >= a.y
  {
    var dx, dy := a.x - b.x, a.y - b.y;
    if Abs(dx) > Abs(dy) then
      (if dx > 0 then Left else Right)
    else
      (if dy > 0 then Top else Bottom)
  }

  /** The entrances `randomizeEntrances` draws for geometry `r` from draws
      `n .. n + 3` (left, right, top, bottom in that order). */
  function RandomEntrances(r: Rect, draws: nat -> real, n: nat): Entrances
    requires forall k: nat :: 0.0 <= draws(k) < 1.0
  {
    Entrances(
      top := RandomIntOf(draws(n + 2), 1, Width(r) - 1),
      bottom := RandomIntOf(draws(n + 3), 1, Width(r) - 1),
      left := RandomIntOf(draws(n), 1, Height(r) - 1),
      right := RandomIntOf(draws(n + 1), 1, Height(r) - 1))
  }

  /** Re-randomised entrances of a proper room sit strictly inside their side
      where the side is long enough, and at index 1 otherwise. */
  lemma RandomEntrancesInRange(r: Rect, draws: nat -> real, n: nat)
    requires forall k: nat :: 0.0 <= draws(k) < 1.0
    requires Proper(r)
    ensures var e := RandomEntrances(r, draws, n);
      && 1 <= e.top <= Max(1, Width(r) - 1) && 1 <= e.bottom <= Max(1, Width(r) - 1)
      && 1 <= e.left <= Max(1, Height(r) - 1) && 1 <= e.right <= Max(1, Height(r) - 1)
  {
    RandomIntOfRange(draws(n + 2), 1, Width(r) - 1);
    RandomIntOfRange(draws(n + 3), 1, Width(r) - 1);
    RandomIntOfRange(draws(n), 1, Height(r) - 1);
    RandomIntOfRange(draws(n + 1), 1, Height(r) - 1);
  }

  /** What an `add*` / `remove*` call leaves behind. */
  ghost predicate ResizeOutcome(before: Rect, after: Rect, op: ResizeOp,
                                entBefore: Entrances, entAfter: Entrances,
                                draws: nat -> real, usedBefore: nat, usedAfter: nat)
    requires forall k: nat :: 0.0 <= draws(k) < 1.0
  {
    && after == Resized(before, op)
    && (if Reverts(before, op) then entAfter == entBefore && usedAfter == usedBefore
        else entAfter == RandomEntrances(after, draws, usedBefore) && usedAfter == usedBefore + 4)
  }

  /** The persisted form of a room. */
  datatype NodeJson = NodeJson(id: Id, x: int, y: int, x0: int, y0: int, x1: int, y1: int,
                               start: bool, end: bool, connections: seq<Id>)

  /** The ids of a list of rooms (`connections.map(c => c.id)`). */
  function Ids(ns: seq<MapNode>): (ids: seq<Id>)
    ensures |ids| == |ns| && forall i {:trigger ids[i]} :: 0 <= i < |ns| ==> ids[i] == ns[i].id
  {
    seq(|ns|, i requires 0 <= i < |ns| => ns[i].id)
  }

  class MapNode {
    const id: Id
    var x: int
    var y: int
    var x0: int
    var y0: int
    var x1: int
    var y1: int
    var start: bool
    var end: bool
    var entrances: Entrances
    var connections: seq<MapNode>

    /** `new MapNode(x, y, connections)` with the given fresh id. */
    constructor (id: Id, x: int, y: int, connections: seq<MapNode>)
      ensures this.id == id && Bounds() == Rect(x, y, 0, 0, 1, 1) && Valid()
      ensures !start && !end && entrances == DefaultEntrances && this.connections == connections
    {
      this.id := id;
      this.x, this.y := x, y;
      x0, y0, x1, y1 := 0, 0, 1, 1;
      start, end := false, false;
      entrances := DefaultEntrances;
      this.connections := connections;
    }

    /** `MapNode.fromJSON(data)`: geometry, id and flags from the data, no
        connections, default entrances. */
    constructor FromJson(data: NodeJson)
      ensures ToJson() == data.(connections := [])
      ensures entrances == DefaultEntrances && connections == []
    {
      id := data.id;
      x, y := data.x, data.y;
      x0, y0, x1, y1 := data.x0, data.y0, data.x1, data.y1;
      start, end := data.start, data.end;
      entrances := DefaultEntrances;
      connections := [];
    }

    function Bounds(): Rect
      reads this`x, this`y, this`x0, this`y0, this`x1, this`y1
    {
      Rect(x, y, x0, y0, x1, y1)
    }

    ghost predicate Valid()
      reads this
    {
      Proper(Bounds())
    }

    /** `MapNode.toJSON(node)`. */
    function ToJson(): (j: NodeJson)
      reads this
      ensures j.id == id && Rect(j.x, j.y, j.x0, j.y0, j.x1, j.y1) == Bounds()
      ensures j.start == start && j.end == end && j.connections == Ids(connections)
    {
      NodeJson(id, x, y, x0, y0, x1, y1, start, end, Ids(connections))
    }

    method Translate(dx: int, dy: int)
      modifies this`x, this`y
      ensures Bounds() == Translated(old(Bounds()), dx, dy)
    {
      x := x + dx;
      y := y + dy;
    }

    method RandomizeEntrances(rng: RandomSource)
      requires rng.Valid()
      modifies this`entrances, rng`used
      ensures rng.used == old(rng.used) + 4
      ensures entrances == RandomEntrances(Bounds(), rng.draws, old(rng.used))
    {
      var left := rng.RandomInt(1, y1 - y0 - 1);
      var right := rng.RandomInt(1, y1 - y0 - 1);
      var top := rng.RandomInt(1, x1 - x0 - 1);
      var bottom := rng.RandomInt(1, x1 - x0 - 1);
      entrances := Entrances(top, bottom, left, right);
    }

    method AddTop(rng: RandomSource)
      requires rng.Valid()
      modifies this`y0, this`entrances, rng`used
      ensures ResizeOutcome(old(Bounds()), Bounds(), ResizeOp.AddTop, old(entrances), entrances,
                            rng.draws, old(rng.used), rng.used)
    {
      y0 := y0 - 1;
      if AreaSize(Bounds()) < 1 {
        y0 := y0 + 1;
      } else {
        RandomizeEntrances(rng);
      }
    }

    method AddBottom(rng: RandomSource)
      requires rng.Valid()
      modifies this`y1, this`entrances, rng`used
      ensures ResizeOutcome(old(Bounds()), Bounds(), ResizeOp.AddBottom, old(entrances), entrances,
                            rng.draws, old(rng.used), rng.used)
    {
      y1 := y1 + 1;
      if AreaSize(Bounds()) < 1 {
        y1 := y1 - 1;
      } else {
        RandomizeEntrances(rng);
      }
    }

    method AddLeft(rng: RandomSource)
      requires rng.Valid()
      modifies this`x0, this`entrances, rng`used
      ensures ResizeOutcome(old(Bounds()), Bounds(), ResizeOp.AddLeft, old(entrances), entrances,
                            rng.draws, old(rng.used), rng.used)
    {
      x0 := x0 - 1;
      if AreaSize(Bounds()) < 1 {
        x0 := x0 + 1;
      } else {
        RandomizeEntrances(rng);
      }
    }

    method AddRight(rng: RandomSource)
      requires rng.Valid()
      modifies this`x1, this`entrances, rng`used
      ensures ResizeOutcome(old(Bounds()), Bounds(), ResizeOp.AddRight, old(entrances), entrances,
                            rng.draws, old(rng.used), rng.used)
    {
      x1 := x1 + 1;
      if AreaSize(Bounds()) < 1 {
        x1 := x1 - 1;
      } else {
        RandomizeEntrances(rng);
      }
    }

    method RemoveTop(rng: RandomSource)
      requires rng.Valid()
      modifies this`y0, this`entrances, rng`used
      ensures ResizeOutcome(old(Bounds()), Bounds(), ResizeOp.RemoveTop, old(entrances), entrances,
                            rng.draws, old(rng.used), rng.used)
    {
      y0 := y0 + 1;
      if AreaSize(Bounds()) < 1 {
        y0 := y0 - 1;
      } else {
        RandomizeEntrances(rng);
      }
    }

    method RemoveBottom(rng: RandomSource)
      requires rng.Valid()
      modifies this`y1, this`entrances, rng`used
      ensures ResizeOutcome(old(Bounds()), Bounds(), ResizeOp.RemoveBottom, old(entrances), entrances,
                            rng.draws, old(rng.used), rng.used)
    {
      y1 := y1 - 1;
      if AreaSize(Bounds()) < 1 {
        y1 := y1 + 1;
      } else {
        RandomizeEntrances(rng);
      }
    }

    method RemoveLeft(rng: RandomSource)
      requires rng.Valid()
      modifies this`x0, this`entrances, rng`used
      ensures ResizeOutcome(old(Bounds()), Bounds(), ResizeOp.RemoveLeft, old(entrances), entrances,
                            rng.draws, old(rng.used), rng.used)
    {
      x0 := x0 + 1;
      if AreaSize(Bounds()) < 1 {
        x0 := x0 - 1;
      } else {
        RandomizeEntrances(rng);
      }
    }

    method RemoveRight(rng: RandomSource)
      requires rng.Valid()
      modifies this`x1, this`entrances, rng`used
      ensures ResizeOutcome(old(Bounds()), Bounds(), ResizeOp.RemoveRight, old(entrances), entrances,
                            rng.draws, old(rng.used), rng.used)
    {
      x1 := x1 - 1;
      if AreaSize(Bounds()) < 1 {
        x1 := x1 + 1;
      } else {
        RandomizeEntrances(rng);
      }
    }
  }
}
