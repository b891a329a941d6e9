/** Reachability over an adjacency given by index: `g[i]` is the set of
    indices room `i` lists among its connections. Only membership matters, so
    the order and repetition of a connection list never affect it. */
module Reach {

  predicate Edge(g: seq<set<int>>, a: int, b: int)
  {
    0 <= a < |g| && b in g[a]
  }

  /** Every index in `g` names a room of `g`. */
  predicate WellFormed(g: seq<set<int>>)
  {
    forall i, j :: 0 <= i < |g| && j in g[i] ==> 0 <= j < |g|
  }

  /** A walk: consecutive entries are linked. */
  ghost predicate IsWalk(g: seq<set<int>>, w: seq<int>)
  {
    |w| >= 1 && forall i {:trigger Edge(g, w[i], w[i + 1])} :: 0 <= i < |w| - 1 ==> Edge(g, w[i], w[i + 1])
  }

  /** A single link is a walk of two rooms. */
  lemma EdgeWalk(g: seq<set<int>>, a: int, b: int)
    requires Edge(g, a, b)
    ensures IsWalk(g, [a, b])
  {
    var w := [a, b];
    assert Edge(g, w[0], w[1]);
  }

  /** Step `i` of a walk is a link. */
  lemma WalkEdge(g: seq<set<int>>, w: seq<int>, i: int)
    requires IsWalk(g, w) && 0 <= i < |w| - 1
    ensures Edge(g, w[i], w[i + 1])
  {
  }

  ghost predicate Reachable(g: seq<set<int>>, a: int, b: int)
  {
    exists w {:trigger IsWalk(g, w)} :: IsWalk(g, w) && w[0] == a && w[|w| - 1] == b
  }

  /** Every room is reachable from room 0 (vacuously so without rooms). */
  ghost predicate Connected(g: seq<set<int>>)
  {
    forall j :: 0 <= j < |g| ==> Reachable(g, 0, j)
  }

  /** `S` is closed under links. */
  ghost predicate Closed(g: seq<set<int>>, S: set<int>)
  {
    forall a, b :: a in S && Edge(g, a, b) ==> b in S
  }

  lemma ReachableRefl(g: seq<set<int>>, a: int)
    ensures Reachable(g, a, a)
  {
    assert IsWalk(g, [a]);
  }

  lemma ReachableStep(g: seq<set<int>>, a: int, b: int, c: int)
    requires Reachable(g, a, b) && Edge(g, b, c)
    ensures Reachable(g, a, c)
  {
    var w :| IsWalk(g, w) && w[0] == a && w[|w| - 1] == b;
    var w' := w + [c];
    assert forall i :: 0 <= i < |w'| - 1 ==> Edge(g, w'[i], w'[i + 1]) by {
      forall i | 0 <= i < |w'| - 1 ensures Edge(g, w'[i], w'[i + 1]) {
        if i < |w| - 1 {
          assert w'[i] == w[i] && w'[i + 1] == w[i + 1];
        }
      }
    }
    assert IsWalk(g, w');
  }

  /** A set holding `a` and closed under links holds everything reachable from `a`. */
  lemma {:induction false} ClosedHoldsReachable(g: seq<set<int>>, S: set<int>, a: int, b: int)
    requires a in S && Closed(g, S) && Reachable(g, a, b)
    ensures b in S
  {
    var w :| IsWalk(g, w) && w[0] == a && w[|w| - 1] == b;
    WalkStaysIn(g, S, w, |w| - 1);
  }

  lemma {:induction false} WalkStaysIn(g: seq<set<int>>, S: set<int>, w: seq<int>, k: nat)
    requires IsWalk(g, w) && w[0] in S && Closed(g, S) && k < |w|
    ensures w[k] in S
  {
    if k > 0 {
      WalkStaysIn(g, S, w, k - 1);
      WalkEdge(g, w, k - 1);
    }
  }

  /** Every step of a walk is reachable from its first entry. */
  lemma {:induction false} WalkPrefixReachable(g: seq<set<int>>, w: seq<int>, k: nat)
    requires IsWalk(g, w) && k < |w|
    ensures Reachable(g, w[0], w[k])
  {
    if k == 0 {
      ReachableRefl(g, w[0]);
    } else {
      WalkPrefixReachable(g, w, k - 1);
      WalkEdge(g, w, k - 1);
      ReachableStep(g, w[0], w[k - 1], w[k]);
    }
  }

  /** Reachability only depends on which links exist. */
  lemma {:induction false} ReachableMono(g: seq<set<int>>, h: seq<set<int>>, a: int, b: int)
    requires |g| == |h| && forall i :: 0 <= i < |g| ==> g[i] <= h[i]
    requires Reachable(g, a, b)
    ensures Reachable(h, a, b)
  {
    var w :| IsWalk(g, w) && w[0] == a && w[|w| - 1] == b;
    assert forall i :: 0 <= i < |w| - 1 ==> Edge(h, w[i], w[i + 1]) by {
      forall i | 0 <= i < |w| - 1 ensures Edge(h, w[i], w[i + 1]) {
        assert Edge(g, w[i], w[i + 1]);
      }
    }
    assert IsWalk(h, w);
  }

  /** `g` with the link between `a` and `b` dropped in both directions. */
  function Unlink(g: seq<set<int>>, a: int, b: int): (h: seq<set<int>>)
    ensures |h| == |g|
    ensures forall i :: 0 <= i < |g| ==> h[i] <= g[i]
    ensures 0 <= a < |g| ==> b !in h[a]
    ensures 0 <= b < |g| ==> a !in h[b]
    ensures forall i, j :: 0 <= i < |g| && j in g[i] && !(i == a && j == b) && !(i == b && j == a) ==> j in h[i]
  {
    seq(|g|, i requires 0 <= i < |g| =>
      if i == a && i == b then g[i] - {a}
      else if i == a then g[i] - {b}
      else if i == b then g[i] - {a}
      else g[i])
  }

  /** `g` with `a` and `b` linked in both directions. */
  function Link(g: seq<set<int>>, a: int, b: int): (h: seq<set<int>>)
    ensures |h| == |g|
    ensures forall i :: 0 <= i < |g| ==> g[i] <= h[i]
    ensures 0 <= a < |g| ==> b in h[a]
    ensures 0 <= b < |g| ==> a in h[b]
    ensures forall i, j :: 0 <= i < |g| && j in h[i] ==> j in g[i] || (i == a && j == b) || (i == b && j == a)
  {
    seq(|g|, i requires 0 <= i < |g| =>
      if i == a && i == b then g[i] + {a}
      else if i == a then g[i] + {b}
      else if i == b then g[i] + {a}
      else g[i])
  }

  /** Unlinking then relinking two rooms linked both ways changes nothing;
      relinking never removes a link. */
  lemma RelinkRestores(g: seq<set<int>>, a: int, b: int)
    requires 0 <= a < |g| && 0 <= b < |g|
    ensures Edge(g, a, b) && Edge(g, b, a) <==> Link(Unlink(g, a, b), a, b) == g
  {
    var h := Link(Unlink(g, a, b), a, b);
    if Edge(g, a, b) && Edge(g, b, a) {
      assert forall i :: 0 <= i < |g| ==> h[i] == g[i];
    }
  }

  /** Removing a link keeps everything connected when the two rooms stay
      reachable from each other. */
  lemma {:induction false} UnlinkKeepsReachable(g: seq<set<int>>, a: int, b: int, x: int, y: int)
    requires Reachable(Unlink(g, a, b), a, b) && Reachable(Unlink(g, a, b), b, a)
    requires Reachable(g, x, y)
    ensures Reachable(Unlink(g, a, b), x, y)
  {
    var h := Unlink(g, a, b);
    var w :| IsWalk(g, w) && w[0] == x && w[|w| - 1] == y;
    ReachableRefl(h, x);
    var k := 0;
    while k < |w| - 1
      invariant 0 <= k < |w|
      invariant Reachable(h, x, w[k])
    {
      assert Edge(g, w[k], w[k + 1]);
      if w[k] == a && w[k + 1] == b {
        ReachableTrans(h, x, a, b);
      } else if w[k] == b && w[k + 1] == a {
        ReachableTrans(h, x, b, a);
      } else {
        ReachableStep(h, x, w[k], w[k + 1]);
      }
      k := k + 1;
    }
  }

  lemma {:induction false} ReachableTrans(g: seq<set<int>>, a: int, b: int, c: int)
    requires Reachable(g, a, b) && Reachable(g, b, c)
    ensures Reachable(g, a, c)
  {
    var w :| IsWalk(g, w) && w[0] == b && w[|w| - 1] == c;
    var k := 0;
    while k < |w| - 1
      invariant 0 <= k < |w|
      invariant Reachable(g, a, w[k])
    {
      ReachableStep(g, a, w[k], w[k + 1]);
      k := k + 1;
    }
  }

  /** Every link is matched by its reverse. */
  predicate Undirected(g: seq<set<int>>)
  {
    forall i, j :: 0 <= i < |g| && j in g[i] ==> Edge(g, j, i)
  }

  /** Dropping or adding a link in both directions keeps the adjacency undirected. */
  lemma RelinkUndirected(g: seq<set<int>>, a: int, b: int)
    requires Undirected(g) && 0 <= a < |g| && 0 <= b < |g|
    ensures Undirected(Unlink(g, a, b)) && Undirected(Link(g, a, b))
  {
    var u, l := Unlink(g, a, b), Link(g, a, b);
    forall i, j | 0 <= i < |u| && j in u[i] ensures Edge(u, j, i) {
      assert j in g[i];
      assert Edge(g, j, i);
    }
    assert Undirected(u);
    forall i, j | 0 <= i < |l| && j in l[i] ensures Edge(l, j, i) {
      if j in g[i] {
        assert Edge(g, j, i);
      }
    }
    assert Undirected(l);
  }

  /** Removing a link after restoring it gives the graph without the link. */
  lemma UnlinkRelinked(g: seq<set<int>>, a: int, b: int)
    requires 0 <= a < |g| && 0 <= b < |g|
    ensures Unlink(Link(Unlink(g, a, b), a, b), a, b) == Unlink(g, a, b)
  {
    var h, k := Unlink(g, a, b), Unlink(Link(Unlink(g, a, b), a, b), a, b);
    assert forall i :: 0 <= i < |g| ==> k[i] == h[i];
  }

  /** Adding links keeps a connected graph connected. */
  lemma ConnectedMono(g: seq<set<int>>, h: seq<set<int>>)
    requires |g| == |h| && forall i :: 0 <= i < |g| ==> g[i] <= h[i]
    requires Connected(g)
    ensures Connected(h)
  {
    forall j | 0 <= j < |h| ensures Reachable(h, 0, j) {
      ReachableMono(g, h, 0, j);
    }
  }

  /** A walk that repeats no entry. */
  ghost predicate IsSimpleWalk(g: seq<set<int>>, w: seq<int>)
  {
    IsWalk(g, w) && forall i, j :: 0 <= i < j < |w| ==> w[i] != w[j]
  }

  /** Cutting out the loops of a walk leaves a simple walk with the same ends. */
  lemma {:induction false} SimpleWalkOf(g: seq<set<int>>, w: seq<int>) returns (v: seq<int>)
    requires IsWalk(g, w)
    ensures IsSimpleWalk(g, v) && v[0] == w[0] && v[|v| - 1] == w[|w| - 1]
    ensures forall k :: k in v ==> k in w
    decreases |w|
  {
    if i, j :| 0 <= i < j < |w| && w[i] == w[j] {
      var u := w[..i] + w[j..];
      assert |u| < |w|;
      forall k | 0 <= k < |u| - 1 ensures Edge(g, u[k], u[k + 1]) {
        if k < i - 1 {
          WalkEdge(g, w, k);
          assert u[k] == w[k] && u[k + 1] == w[k + 1];
        } else if k == i - 1 {
          WalkEdge(g, w, i - 1);
          assert u[k] == w[i - 1] && u[k + 1] == w[j] == w[i];
        } else {
          WalkEdge(g, w, k - i + j);
          assert u[k] == w[k - i + j] && u[k + 1] == w[k - i + j + 1];
        }
      }
      assert u[0] == w[0] by {
        if i == 0 { assert u[0] == w[j]; }
      }
      assert u[|u| - 1] == w[|w| - 1];
      v := SimpleWalkOf(g, u);
      forall k | k in v ensures k in w {
        assert k in u;
      }
    } else {
      v := w;
    }
  }

  /** Dropping a link and adding it back never loses a link. */
  lemma RelinkCovers(g: seq<set<int>>, a: int, b: int)
    requires 0 <= a < |g| && 0 <= b < |g|
    ensures forall i :: 0 <= i < |g| ==> g[i] <= Link(Unlink(g, a, b), a, b)[i]
  {
  }

  /** What `removeRandomConnection` leaves once it has drawn the link
      `a -> b`: without the link when the graph stays connected without it,
      otherwise the link dropped and added back in both directions. */
  ghost function GuardedUnlink(g: seq<set<int>>, a: int, b: int): seq<set<int>>
  {
    if Connected(Unlink(g, a, b)) then Unlink(g, a, b) else Link(Unlink(g, a, b), a, b)
  }

  /** A connected graph stays connected; an undirected graph stays undirected
      and loses at most the drawn link. */
  lemma GuardedRemoval(g: seq<set<int>>, a: int, b: int)
    requires 0 <= a < |g| && 0 <= b < |g| && Edge(g, a, b)
    ensures |GuardedUnlink(g, a, b)| == |g|
    ensures Connected(g) ==> Connected(GuardedUnlink(g, a, b))
    ensures Undirected(g) ==> Undirected(GuardedUnlink(g, a, b))
    ensures Undirected(g) ==> forall i :: 0 <= i < |g| ==> GuardedUnlink(g, a, b)[i] <= g[i]
  {
    var h := GuardedUnlink(g, a, b);
    if Connected(Unlink(g, a, b)) {
      if Undirected(g) {
        RelinkUndirected(g, a, b);
      }
    } else {
      if Connected(g) {
        RelinkCovers(g, a, b);
        ConnectedMono(g, h);
      }
      if Undirected(g) {
        assert Edge(g, b, a);
        RelinkRestores(g, a, b);
      }
    }
  }

  /** What `addRandomConnection` leaves once it has drawn `a` and `b`: the
      graph unchanged when `b` is reachable from `a`, otherwise linked both ways. */
  ghost function GuardedLink(g: seq<set<int>>, a: int, b: int): seq<set<int>>
  {
    if Reachable(g, a, b) then g else Link(g, a, b)
  }

  /** Links are only added, never a link of a room to itself, and
      connectivity and symmetry are kept. */
  lemma GuardedLinkFacts(g: seq<set<int>>, a: int, b: int)
    requires 0 <= a < |g| && 0 <= b < |g|
    ensures var h := GuardedLink(g, a, b);
      && |h| == |g| && (forall i :: 0 <= i < |g| ==> g[i] <= h[i])
      && (forall i :: 0 <= i < |g| && i in h[i] ==> i in g[i])
      && (Connected(g) ==> Connected(h))
      && (Undirected(g) ==> Undirected(h))
  {
    var h := GuardedLink(g, a, b);
    if a == b {
      ReachableRefl(g, a);
    }
    if Connected(g) {
      ConnectedMono(g, h);
    }
    if Undirected(g) {
      RelinkUndirected(g, a, b);
    }
  }
}
