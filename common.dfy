/** Small shared vocabulary: optional values, integer points and the helpers
    the generator uses on them. */
module Common {

  datatype Option<T> = None | Some(value: T)

  /** An integer tile coordinate `{ x, y }`. */
  datatype Point = Point(x: int, y: int)

  /** Node and tile identifiers (uuid strings in the generator). */
  type Id = string

  function Abs(n: int): nat
  {
    if n < 0 then -n else n
  }

  function Max(a: int, b: int): int
  {
    if a < b then b else a
  }

  function Min(a: int, b: int): int
  {
    if a < b then a else b
  }

  /** The generator's direction choice `d > 0 ? 1 : -1` (also `Math.ceil(d) > 0 ? 1 : -1` on integers). */
  function Sign(d: int): int
  {
    if d > 0 then 1 else -1
  }

  /** Squared Euclidean distance between two origins; `Math.sqrt` is monotone, so
      comparing squares orders pairs exactly as the generator's distances do. */
  function DistSq(a: Point, b: Point): nat
  {
    (a.x - b.x) * (a.x - b.x) + (a.y - b.y) * (a.y - b.y)
  }

  /** The elements of a sequence as a set. */
  function Elems<T>(s: seq<T>): set<T>
  {
    set x | x in s
  }

  /** Two points are 4-neighbours. */
  predicate Adjacent4(p: Point, q: Point)
  {
    Abs(p.x - q.x) + Abs(p.y - q.y) == 1
  }

  /** `s.filter(f)`: the elements of `s` satisfying `f`, in order. */
  function Filter<T>(s: seq<T>, f: T -> bool): (r: seq<T>)
    ensures |r| <= |s|
    ensures forall i :: 0 <= i < |r| ==> r[i] in s && f(r[i])
    ensures forall i :: 0 <= i < |s| && f(s[i]) ==> s[i] in r
  {
    if s == [] then []
    else if f(s[0]) then [s[0]] + Filter(s[1..], f)
    else Filter(s[1..], f)
  }

  /** Membership in a filtered sequence. */
  lemma FilterHas<T>(s: seq<T>, f: T -> bool, x: T)
    ensures x in Filter(s, f) <==> x in s && f(x)
  {
    var r := Filter(s, f);
    if x in r {
      var i :| 0 <= i < |r| && r[i] == x;
    }
    if x in s && f(x) {
      var i :| 0 <= i < |s| && s[i] == x;
    }
  }

  /** Filtering a concatenation filters each part. */
  lemma {:induction false} FilterConcat<T>(s: seq<T>, t: seq<T>, f: T -> bool)
    ensures Filter(s + t, f) == Filter(s, f) + Filter(t, f)
  {
    if s == [] {
      assert s + t == t;
    } else {
      assert (s + t)[0] == s[0] && (s + t)[1..] == s[1..] + t;
      FilterConcat(s[1..], t, f);
    }
  }

  /** Filtering twice with the same test is filtering once. */
  lemma {:induction false} FilterTwice<T>(s: seq<T>, f: T -> bool)
    ensures Filter(Filter(s, f), f) == Filter(s, f)
  {
    if s != [] {
      FilterTwice(s[1..], f);
      if f(s[0]) {
        var r := [s[0]] + Filter(s[1..], f);
        assert r[0] == s[0] && r[1..] == Filter(s[1..], f);
      }
    }
  }

  /** `s.indexOf(x)`: the first position of `x`, or -1. */
  function IndexOf<T(==)>(s: seq<T>, x: T): (i: int)
    ensures x in s ==> 0 <= i < |s| && s[i] == x && x !in s[..i]
    ensures x !in s ==> i == -1
  {
    if s == [] then -1
    else if s[0] == x then 0
    else
      var j := IndexOf(s[1..], x);
      if j < 0 then -1 else (assert s[1..][..j] == s[1..j + 1]; assert s[..j + 1] == [s[0]] + s[1..][..j]; j + 1)
  }

  /** No entry occurs twice. */
  predicate Distinct<T(==)>(s: seq<T>)
  {
    forall i, j :: 0 <= i < j < |s| ==> s[i] != s[j]
  }

  /** In a sequence without repeats, the position of `s[i]` is `i`. */
  lemma IndexOfDistinct<T>(s: seq<T>, i: int)
    requires Distinct(s) && 0 <= i < |s|
    ensures IndexOf(s, s[i]) == i
  {
    var k := IndexOf(s, s[i]);
    assert s[k] == s[i];
  }

  /** A sequence without repeats has as many elements as entries. */
  lemma {:induction false} DistinctCard<T>(s: seq<T>)
    requires Distinct(s)
    ensures |Elems(s)| == |s|
  {
    if s != [] {
      var t := s[..|s| - 1];
      DistinctCard(t);
      assert Elems(s) == Elems(t) + {s[|s| - 1]};
      assert s[|s| - 1] !in Elems(t);
    }
  }

  /** A subset as large as its superset is the whole superset. */
  lemma SubsetCard<T>(a: set<T>, b: set<T>)
    requires a <= b && |a| >= |b|
    ensures a == b
  {
    if a != b {
      var x :| x in b && x !in a;
      assert a <= b - {x};
      assert |b - {x}| == |b| - 1;
      SubsetCardMono(a, b - {x});
    }
  }

  lemma {:induction false} SubsetCardMono<T>(a: set<T>, b: set<T>)
    requires a <= b
    ensures |a| <= |b|
  {
    if a != {} {
      var x :| x in a;
      SubsetCardMono(a - {x}, b - {x});
    }
  }

  /** Euclidean division by a positive divisor recovers quotient and remainder. */
  lemma DivModOf(q: int, r: int, w: int)
    requires w > 0 && 0 <= r < w
    ensures (q * w + r) / w == q && (q * w + r) % w == r
  {
    var i := q * w + r;
    var q', r' := i / w, i % w;
    assert i == q' * w + r';
    assert (q - q') * w == r' - r;
    if q > q' {
      MulAtLeast(q - q', w);
    } else if q < q' {
      MulAtLeast(q' - q, w);
    }
  }

  lemma MulAtLeast(a: int, w: int)
    requires a >= 1 && w > 0
    ensures a * w >= w
  {
    assert a * w == (a - 1) * w + w;
    assert (a - 1) * w >= 0;
  }

  /** Row-major index bounds: `q * w + r` lies in `[0, w * h)` for `q < h` and `r < w`. */
  lemma IndexInRange(q: int, r: int, w: int, h: int)
    requires 0 <= q < h && 0 <= r < w
    ensures 0 <= q * w + r < w * h
  {
    MulNonNeg(q, w);
    MulNonNeg(h - q - 1, w);
    assert (h - q - 1) * w == h * w - q * w - w;
    assert w * h == h * w;
  }

  lemma MulMonotone(a: int, b: int, w: int)
    requires a <= b && w >= 0
    ensures a * w <= b * w
  {
    MulNonNeg(b - a, w);
  }

  lemma MulNonNeg(a: int, b: int)
    requires a >= 0 && b >= 0
    ensures a * b >= 0
  {
  }
}
