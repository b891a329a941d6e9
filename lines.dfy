/** Corridor routing: `makeLine` samples a straight segment with
    `Math.round`, and `manhattanLine` joins three such segments into an
    axis-aligned route. Both rasterisers share `makeLine` verbatim; their
    `manhattanLine`s differ in where they split. */
module Lines {
  import opened Common

  /** `Math.round(n / d)` for `d > 0`: the nearest integer, halves rounded
      up (towards positive infinity, also for negative `n`). */
  function RoundDiv(n: int, d: int): (r: int)
    requires d > 0
    ensures 2 * d * r <= 2 * n + d < 2 * d * (r + 1)
  {
    var r := (2 * n + d) / (2 * d);
    assert 2 * n + d == r * (2 * d) + (2 * n + d) % (2 * d);
    r
  }

  /** An exact quotient is its own rounding. */
  lemma RoundDivExact(k: int, d: int)
    requires d > 0
    ensures RoundDiv(k * d, d) == k
  {
    var r := RoundDiv(k * d, d);
    assert 2 * d * r <= 2 * d * k + d < 2 * d * (r + 1);
    if r < k {
      MulMonotone(r + 1, k, 2 * d);
    } else if r > k {
      MulMonotone(k + 1, r, 2 * d);
    }
  }

  /** Rounding keeps `n / d` within the range that bounds it. */
  lemma RoundDivBounds(n: int, d: int, s: int)
    requires d > 0 && s >= 0
    ensures 0 <= n <= s * d ==> 0 <= RoundDiv(n, d) <= s
    ensures -(s * d) <= n <= 0 ==> -s <= RoundDiv(n, d) <= 0
  {
    var r := RoundDiv(n, d);
    var sd := s * d;
    assert r * (2 * d) == 2 * d * r;
    assert (r + 1) * (2 * d) == 2 * d * r + 2 * d;
    assert (s + 1) * (2 * d) == 2 * sd + 2 * d;
    assert (-s) * (2 * d) == -2 * sd;
    if 0 <= n <= sd {
      if r < 0 {
        MulMonotone(r + 1, 0, 2 * d);
      } else if r > s {
        MulMonotone(s + 1, r, 2 * d);
      }
    }
    if -sd <= n <= 0 {
      if r > 0 {
        MulMonotone(1, r, 2 * d);
      } else if r < -s {
        MulMonotone(r + 1, -s, 2 * d);
      }
    }
  }

  /** The number of points `makeLine(p1, p2)` returns: the larger of the two distances. */
  function Steps(p1: Point, p2: Point): nat
  {
    Max(Abs(p2.x - p1.x), Abs(p2.y - p1.y))
  }

  /** Point `i` of `makeLine(p1, p2)`: `p1` moved by the rounded fraction
      `i / steps` of each difference. */
  function LinePoint(p1: Point, p2: Point, i: nat): Point
    requires i < Steps(p1, p2)
  {
    var dx, dy := p2.x - p1.x, p2.y - p1.y;
    var steps := Steps(p1, p2);
    Point(p1.x + RoundDiv(Sign(dx) * i * Abs(dx), steps), p1.y + RoundDiv(Sign(dy) * i * Abs(dy), steps))
  }

  /** The points of `makeLine(p1, p2)`. */
  function Line(p1: Point, p2: Point): (pts: seq<Point>)
  {
    seq(Steps(p1, p2), i requires 0 <= i < Steps(p1, p2) => LinePoint(p1, p2, i))
  }

  /** `makeLine(p1, p2)`: push one point per step. */
  method MakeLine(p1: Point, p2: Point) returns (points: seq<Point>)
    ensures points == Line(p1, p2)
  {
    points := [];
    var xDiff, yDiff := p2.x - p1.x, p2.y - p1.y;
    var xDir := if xDiff > 0 then 1 else -1;
    var yDir := if yDiff > 0 then 1 else -1;
    var xSteps, ySteps := Abs(xDiff), Abs(yDiff);
    var steps := Max(xSteps, ySteps);
    var i := 0;
    while i < steps
      invariant 0 <= i <= steps
      invariant points == Line(p1, p2)[..i]
    {
      var x := p1.x + RoundDiv(xDir * i * xSteps, steps);
      var y := p1.y + RoundDiv(yDir * i * ySteps, steps);
      assert Point(x, y) == Line(p1, p2)[i];
      assert Line(p1, p2)[..i + 1] == Line(p1, p2)[..i] + [Line(p1, p2)[i]];
      points := points + [Point(x, y)];
      i := i + 1;
    }
  }

  /** One coordinate of a line point stays between the endpoints' coordinates. */
  lemma StepBetween(a: int, b: int, i: nat, steps: int)
    requires 0 <= i < steps && Abs(b - a) <= steps
    ensures var c := a + RoundDiv(Sign(b - a) * i * Abs(b - a), steps);
      Min(a, b) <= c <= Max(a, b)
  {
    var s := Abs(b - a);
    MulMonotone(i, steps, s);
    assert i * s <= s * steps;
    if b - a > 0 {
      assert Sign(b - a) * i * s == i * s;
      MulNonNeg(i, s);
      RoundDivBounds(i * s, steps, s);
    } else {
      assert Sign(b - a) * i * s == -(i * s);
      MulNonNeg(i, s);
      RoundDivBounds(-(i * s), steps, s);
    }
  }

  /** A coordinate with as many steps as the line moves exactly one unit per step. */
  lemma StepExact(a: int, b: int, i: nat, steps: int)
    requires 0 <= i < steps && (Abs(b - a) == steps || a == b)
    ensures a + RoundDiv(Sign(b - a) * i * Abs(b - a), steps) == (if a == b then a else a + Sign(b - a) * i)
  {
    if a == b {
      assert Sign(b - a) * i * Abs(b - a) == 0 * steps;
      RoundDivExact(0, steps);
    } else {
      assert Sign(b - a) * i * Abs(b - a) == (Sign(b - a) * i) * steps;
      RoundDivExact(Sign(b - a) * i, steps);
    }
  }

  /** `makeLine(p1, p2)` returns `max(|dx|, |dy|)` points, starting at `p1`,
      all inside the bounding box of `p1` and `p2`, never `p2` itself. */
  lemma LineFacts(p1: Point, p2: Point)
    ensures |Line(p1, p2)| == Max(Abs(p2.x - p1.x), Abs(p2.y - p1.y))
    ensures Line(p1, p2) != [] ==> Line(p1, p2)[0] == p1
    ensures p2 !in Line(p1, p2)
    ensures forall p :: p in Line(p1, p2) ==>
      Min(p1.x, p2.x) <= p.x <= Max(p1.x, p2.x) && Min(p1.y, p2.y) <= p.y <= Max(p1.y, p2.y)
  {
    var pts := Line(p1, p2);
    var steps := Steps(p1, p2);
    forall i | 0 <= i < steps
      ensures Min(p1.x, p2.x) <= pts[i].x <= Max(p1.x, p2.x) && Min(p1.y, p2.y) <= pts[i].y <= Max(p1.y, p2.y)
      ensures pts[i] != p2
    {
      StepBetween(p1.x, p2.x, i, steps);
      StepBetween(p1.y, p2.y, i, steps);
      if Abs(p2.x - p1.x) == steps {
        StepExact(p1.x, p2.x, i, steps);
      } else {
        StepExact(p1.y, p2.y, i, steps);
      }
    }
    if pts != [] {
      assert Sign(p2.x - p1.x) * 0 * Abs(p2.x - p1.x) == 0 * steps;
      assert Sign(p2.y - p1.y) * 0 * Abs(p2.y - p1.y) == 0 * steps;
      RoundDivExact(0, steps);
    }
  }

  /** On a horizontal or vertical segment, point `i` is `p1` moved `i` unit steps towards `p2`. */
  lemma LineAxis(p1: Point, p2: Point)
    requires p1.x == p2.x || p1.y == p2.y
    ensures forall i :: 0 <= i < |Line(p1, p2)| ==>
      Line(p1, p2)[i] == Point(if p1.x == p2.x then p1.x else p1.x + Sign(p2.x - p1.x) * i,
                               if p1.y == p2.y then p1.y else p1.y + Sign(p2.y - p1.y) * i)
  {
    var steps := Steps(p1, p2);
    forall i | 0 <= i < steps
      ensures Line(p1, p2)[i] == Point(if p1.x == p2.x then p1.x else p1.x + Sign(p2.x - p1.x) * i,
                                       if p1.y == p2.y then p1.y else p1.y + Sign(p2.y - p1.y) * i)
    {
      StepExact(p1.x, p2.x, i, steps);
      StepExact(p1.y, p2.y, i, steps);
    }
  }

  /** `pts` walks from `a` towards `b` in 4-steps: empty exactly when `a == b`,
      otherwise it starts at `a`, each point is a 4-neighbour of the next and
      the last is a 4-neighbour of `b`. */
  predicate Walk(pts: seq<Point>, a: Point, b: Point)
  {
    && (pts == [] <==> a == b)
    && (pts != [] ==> pts[0] == a && Adjacent4(pts[|pts| - 1], b))
    && forall k :: 0 <= k < |pts| - 1 ==> Adjacent4(pts[k], pts[k + 1])
  }

  /** A horizontal or vertical segment is a 4-walk of `|dx| + |dy|` points. */
  lemma AxisWalk(p1: Point, p2: Point)
    requires p1.x == p2.x || p1.y == p2.y
    ensures Walk(Line(p1, p2), p1, p2)
    ensures |Line(p1, p2)| == Abs(p2.x - p1.x) + Abs(p2.y - p1.y)
  {
    LineAxis(p1, p2);
  }

  /** Walks chain: from `a` to `b` and on from `b` to `c` is a walk from `a` to `c`. */
  lemma WalkConcat(s: seq<Point>, t: seq<Point>, a: Point, b: Point, c: Point)
    requires Walk(s, a, b) && Walk(t, b, c) && (a == c ==> s + t == [])
    ensures Walk(s + t, a, c)
  {
    var u := s + t;
    forall k | 0 <= k < |u| - 1 ensures Adjacent4(u[k], u[k + 1]) {
      if k == |s| - 1 {
        assert u[k + 1] == t[0];
      }
    }
  }

  /** The corner coordinate `manhattanLine` picks: halfway from `a` to `b`, rounded down. */
  function Mid(a: int, b: int): int
  {
    a + (b - a) / 2
  }

  /** The midpoint splits the distance from `a` to `b` into two parts. */
  lemma MidSplits(a: int, b: int)
    ensures Abs(Mid(a, b) - a) + Abs(b - Mid(a, b)) == Abs(b - a)
  {
  }

  /** The three-leg route `manhattanLine` draws: `p1` to `m1`, `m1` to `m2`, `m2` to `p2`. */
  function Route(p1: Point, m1: Point, m2: Point, p2: Point): seq<Point>
  {
    Line(p1, m1) + Line(m1, m2) + Line(m2, p2)
  }

  /** The split the older rasteriser always uses, and the newer one when the
      route is at least as wide as it is tall: along the rows to the middle
      column, along that column, then along the rows to `p2`. */
  function ColumnSplit(p1: Point, p2: Point): seq<Point>
  {
    Route(p1, Point(Mid(p1.x, p2.x), p1.y), Point(Mid(p1.x, p2.x), p2.y), p2)
  }

  /** The newer rasteriser's other split, for routes taller than wide: along
      the column to the middle row, along that row, then along the column. */
  function RowSplit(p1: Point, p2: Point): seq<Point>
  {
    Route(p1, Point(p1.x, Mid(p1.y, p2.y)), Point(p2.x, Mid(p1.y, p2.y)), p2)
  }

  /** The points of the newer `manhattanLine(p1, p2)`. */
  function ManhattanTiles(p1: Point, p2: Point): seq<Point>
  {
    if Abs(p2.x - p1.x) < Abs(p2.y - p1.y) then RowSplit(p1, p2) else ColumnSplit(p1, p2)
  }

  /** A three-leg route through `m1` and `m2` whose legs are axis-aligned and
      whose corners lie between the endpoints is a 4-walk of `|dx| + |dy|` points. */
  lemma ThreeLegs(p1: Point, m1: Point, m2: Point, p2: Point)
    requires p1.x == m1.x || p1.y == m1.y
    requires m1.x == m2.x || m1.y == m2.y
    requires m2.x == p2.x || m2.y == p2.y
    requires Abs(m1.x - p1.x) + Abs(m2.x - m1.x) + Abs(p2.x - m2.x) == Abs(p2.x - p1.x)
    requires Abs(m1.y - p1.y) + Abs(m2.y - m1.y) + Abs(p2.y - m2.y) == Abs(p2.y - p1.y)
    ensures Walk(Route(p1, m1, m2, p2), p1, p2)
    ensures |Route(p1, m1, m2, p2)| == Abs(p2.x - p1.x) + Abs(p2.y - p1.y)
  {
    AxisWalk(p1, m1);
    AxisWalk(m1, m2);
    AxisWalk(m2, p2);
    if p1 == m2 {
      assert m1 == p1;
    }
    WalkConcat(Line(p1, m1), Line(m1, m2), p1, m1, m2);
    WalkConcat(Line(p1, m1) + Line(m1, m2), Line(m2, p2), p1, m2, p2);
  }

  /** The column split is a 4-walk from `p1` towards `p2` of `|dx| + |dy|` points. */
  lemma ColumnSplitWalk(p1: Point, p2: Point)
    ensures Walk(ColumnSplit(p1, p2), p1, p2)
    ensures |ColumnSplit(p1, p2)| == Abs(p2.x - p1.x) + Abs(p2.y - p1.y)
  {
    MidSplits(p1.x, p2.x);
    ThreeLegs(p1, Point(Mid(p1.x, p2.x), p1.y), Point(Mid(p1.x, p2.x), p2.y), p2);
  }

  /** The row split is a 4-walk from `p1` towards `p2` of `|dx| + |dy|` points. */
  lemma RowSplitWalk(p1: Point, p2: Point)
    ensures Walk(RowSplit(p1, p2), p1, p2)
    ensures |RowSplit(p1, p2)| == Abs(p2.x - p1.x) + Abs(p2.y - p1.y)
  {
    MidSplits(p1.y, p2.y);
    ThreeLegs(p1, Point(p1.x, Mid(p1.y, p2.y)), Point(p2.x, Mid(p1.y, p2.y)), p2);
  }

  /** The newer route is a 4-walk of `|dx| + |dy|` points too, whichever split it takes. */
  lemma ManhattanTilesWalk(p1: Point, p2: Point)
    ensures Walk(ManhattanTiles(p1, p2), p1, p2)
    ensures |ManhattanTiles(p1, p2)| == Abs(p2.x - p1.x) + Abs(p2.y - p1.y)
  {
    ColumnSplitWalk(p1, p2);
    RowSplitWalk(p1, p2);
  }

  /** `GameTiles.manhattanLine(p1, p2)`. */
  method ManhattanLine(p1: Point, p2: Point) returns (points: seq<Point>)
    ensures points == ManhattanTiles(p1, p2)
  {
    var first, second, third;
    if Abs(p2.x - p1.x) < Abs(p2.y - p1.y) {
      var c := Mid(p1.y, p2.y);
      var e1, e2 := Point(p1.x, c), Point(p2.x, c);
      first := MakeLine(p1, e1);
      second := MakeLine(e1, e2);
      third := MakeLine(e2, p2);
    } else {
      var c := Mid(p1.x, p2.x);
      var e1, e2 := Point(c, p1.y), Point(c, p2.y);
      first := MakeLine(p1, e1);
      second := MakeLine(e1, e2);
      third := MakeLine(e2, p2);
    }
    points := first + second + third;
  }

  /** `GameMap.manhattanLine(p1, p2)`: always the column split. */
  method ManhattanLineMap(p1: Point, p2: Point) returns (points: seq<Point>)
    ensures points == ColumnSplit(p1, p2)
  {
    var cx := Mid(p1.x, p2.x);
    var firstCorner, secondCorner := Point(cx, p1.y), Point(cx, p2.y);
    var first := MakeLine(p1, firstCorner);
    var second := MakeLine(firstCorner, secondCorner);
    var third := MakeLine(secondCorner, p2);
    points := first + second + third;
  }
}
