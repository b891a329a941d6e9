/** `getPath(start, end, prev)` on an adjacency by index: `adj[i]` lists, in
    order, the indices of the rooms room `i` is connected to. `vis` plays the
    role of `prev`, the ids visited on the way to the current room; with
    unique ids, comparing ids and comparing indices agree. */
module Paths {
  import opened Common
  import opened Reach

  /** Every listed index names a room. */
  predicate InRange(adj: seq<seq<int>>)
  {
    forall i, k :: 0 <= i < |adj| && 0 <= k < |adj[i]| ==> 0 <= adj[i][k] < |adj|
  }

  /** The adjacency with order and repetition forgotten. */
  function Sets(adj: seq<seq<int>>): (g: seq<set<int>>)
    ensures |g| == |adj| && forall i :: 0 <= i < |adj| ==> g[i] == Elems(adj[i])
  {
    seq(|adj|, i requires 0 <= i < |adj| => Elems(adj[i]))
  }

  /** The rooms not yet visited; every recursive call visits one more. */
  function Unvisited(n: nat, vis: seq<int>): set<int>
  {
    set i | 0 <= i < n && i !in vis
  }

  lemma UnvisitedShrinks(n: nat, vis: seq<int>, s: int)
    requires 0 <= s < n && s !in vis
    ensures |Unvisited(n, vis + [s])| < |Unvisited(n, vis)|
  {
    assert Unvisited(n, vis + [s]) == Unvisited(n, vis) - {s};
  }

  /** Every entry of `q` names a room. */
  predicate ListInRange(adj: seq<seq<int>>, q: seq<int>)
  {
    forall k :: 0 <= k < |q| ==> 0 <= q[k] < |adj|
  }

  /** `getPath` as written: `visited = [...prev, start]`, then the first
      unvisited entry of `start.connections` decides the answer. The end room
      answers `[...visited, end]`; any other room answers with its own
      recursive search, and since an array is always truthy, even an empty
      answer is returned without trying the remaining entries. */
  function PathFrom(adj: seq<seq<int>>, s: int, e: int, vis: seq<int>): seq<int>
    requires InRange(adj) && 0 <= s < |adj| && s !in vis
    decreases |Unvisited(|adj|, vis)|, |adj[s]| + 1
  {
    UnvisitedShrinks(|adj|, vis, s);
    PathVia(adj, e, vis + [s], adj[s], 0)
  }

  /** The loop over `queue = start.connections` from position `k` on. */
  function PathVia(adj: seq<seq<int>>, e: int, vis: seq<int>, q: seq<int>, k: nat): seq<int>
    requires InRange(adj) && ListInRange(adj, q) && k <= |q|
    decreases |Unvisited(|adj|, vis)| + 1, |q| - k
  {
    if k == |q| then []
    else if q[k] in vis then PathVia(adj, e, vis, q, k + 1)
    else if q[k] == e then vis + [q[k]]
    else PathFrom(adj, q[k], e, vis)
  }

  /** `getPath` as evidently intended: an empty recursive answer moves on to
      the next entry (`if (path.length) return path`). */
  function PathFromFixed(adj: seq<seq<int>>, s: int, e: int, vis: seq<int>): seq<int>
    requires InRange(adj) && 0 <= s < |adj| && s !in vis
    decreases |Unvisited(|adj|, vis)|, |adj[s]| + 1
  {
    UnvisitedShrinks(|adj|, vis, s);
    PathViaFixed(adj, e, vis + [s], adj[s], 0)
  }

  function PathViaFixed(adj: seq<seq<int>>, e: int, vis: seq<int>, q: seq<int>, k: nat): seq<int>
    requires InRange(adj) && ListInRange(adj, q) && k <= |q|
    decreases |Unvisited(|adj|, vis)| + 1, |q| - k
  {
    if k == |q| then []
    else if q[k] in vis then PathViaFixed(adj, e, vis, q, k + 1)
    else if q[k] == e then vis + [q[k]]
    else
      var p := PathFromFixed(adj, q[k], e, vis);
      if p != [] then p else PathViaFixed(adj, e, vis, q, k + 1)
  }

  /** `r` continues the visited list `vis` along links to `e` without
      repeating a room. */
  ghost predicate Continues(adj: seq<seq<int>>, r: seq<int>, vis: seq<int>, e: int)
  {
    && 1 <= |vis| < |r|
    && r[..|vis|] == vis
    && r[|r| - 1] == e
    && IsWalk(Sets(adj), r[|vis| - 1..])
    && Distinct(r)
  }

  /** Continuing `vis + [o]` is continuing `vis` when `o` follows the last visited room. */
  lemma ContinuesStep(adj: seq<seq<int>>, r: seq<int>, vis: seq<int>, o: int, e: int)
    requires |vis| >= 1 && Edge(Sets(adj), vis[|vis| - 1], o)
    requires Continues(adj, r, vis + [o], e)
    ensures Continues(adj, r, vis, e)
  {
    var n := |vis|;
    assert r[..n] == (r[..n + 1])[..n] == vis;
    var t, u := r[n - 1..], r[n..];
    assert t == [r[n - 1]] + u;
    assert r[n - 1] == vis[n - 1] && r[n] == o;
    forall i | 0 <= i < |t| - 1 ensures Edge(Sets(adj), t[i], t[i + 1]) {
      if i > 0 {
        WalkEdge(Sets(adj), u, i - 1);
        assert t[i] == u[i - 1] && t[i + 1] == u[i];
      }
    }
  }

  /** A non-empty answer of the written search starts with `vis`, then
      `s`, follows links and ends at `e`, never repeating a room. */
  lemma {:induction false} PathFromSound(adj: seq<seq<int>>, s: int, e: int, vis: seq<int>)
    requires InRange(adj) && 0 <= s < |adj| && s !in vis && Distinct(vis) && ListInRange(adj, vis)
    ensures PathFrom(adj, s, e, vis) != [] ==> Continues(adj, PathFrom(adj, s, e, vis), vis + [s], e)
    decreases |Unvisited(|adj|, vis)|, |adj[s]| + 1
  {
    UnvisitedShrinks(|adj|, vis, s);
    PathViaSound(adj, e, vis + [s], adj[s], 0);
  }

  lemma {:induction false} PathViaSound(adj: seq<seq<int>>, e: int, vis: seq<int>, q: seq<int>, k: nat)
    requires InRange(adj) && ListInRange(adj, q) && k <= |q| && Distinct(vis)
    requires |vis| >= 1 && ListInRange(adj, vis) && Elems(q) <= Sets(adj)[vis[|vis| - 1]]
    ensures PathVia(adj, e, vis, q, k) != [] ==> Continues(adj, PathVia(adj, e, vis, q, k), vis, e)
    decreases |Unvisited(|adj|, vis)| + 1, |q| - k
  {
    if k == |q| {
    } else if q[k] in vis {
      PathViaSound(adj, e, vis, q, k + 1);
    } else if q[k] == e {
      var r := vis + [q[k]];
      assert q[k] in Elems(q);
      assert r[|vis| - 1..] == [vis[|vis| - 1], q[k]];
      assert r[..|vis|] == vis;
      EdgeWalk(Sets(adj), vis[|vis| - 1], q[k]);
    } else {
      PathFromSound(adj, q[k], e, vis);
      if PathVia(adj, e, vis, q, k) != [] {
        assert q[k] in Elems(q);
        ContinuesStep(adj, PathVia(adj, e, vis, q, k), vis, q[k], e);
      }
    }
  }

  /** The same soundness for the corrected search. */
  lemma {:induction false} PathFromFixedSound(adj: seq<seq<int>>, s: int, e: int, vis: seq<int>)
    requires InRange(adj) && 0 <= s < |adj| && s !in vis && Distinct(vis) && ListInRange(adj, vis)
    ensures PathFromFixed(adj, s, e, vis) != [] ==> Continues(adj, PathFromFixed(adj, s, e, vis), vis + [s], e)
    decreases |Unvisited(|adj|, vis)|, |adj[s]| + 1
  {
    UnvisitedShrinks(|adj|, vis, s);
    PathViaFixedSound(adj, e, vis + [s], adj[s], 0);
  }

  lemma {:induction false} PathViaFixedSound(adj: seq<seq<int>>, e: int, vis: seq<int>, q: seq<int>, k: nat)
    requires InRange(adj) && ListInRange(adj, q) && k <= |q| && Distinct(vis)
    requires |vis| >= 1 && ListInRange(adj, vis) && Elems(q) <= Sets(adj)[vis[|vis| - 1]]
    ensures PathViaFixed(adj, e, vis, q, k) != [] ==> Continues(adj, PathViaFixed(adj, e, vis, q, k), vis, e)
    decreases |Unvisited(|adj|, vis)| + 1, |q| - k
  {
    if k == |q| {
    } else if q[k] in vis {
      PathViaFixedSound(adj, e, vis, q, k + 1);
    } else if q[k] == e {
      var r := vis + [q[k]];
      assert q[k] in Elems(q);
      assert r[|vis| - 1..] == [vis[|vis| - 1], q[k]];
      assert r[..|vis|] == vis;
      EdgeWalk(Sets(adj), vis[|vis| - 1], q[k]);
    } else {
      var p := PathFromFixed(adj, q[k], e, vis);
      if p != [] {
        PathFromFixedSound(adj, q[k], e, vis);
        assert q[k] in Elems(q);
        ContinuesStep(adj, p, vis, q[k], e);
      } else {
        PathViaFixedSound(adj, e, vis, q, k + 1);
      }
    }
  }

  /** The corrected search finds a path whenever a simple walk from `s` to a
      different room `e` avoids every visited room. */
  lemma {:induction false} PathFromFixedComplete(adj: seq<seq<int>>, s: int, e: int, vis: seq<int>, w: seq<int>)
    requires InRange(adj) && 0 <= s < |adj| && s !in vis && s != e
    requires IsSimpleWalk(Sets(adj), w) && w[0] == s && w[|w| - 1] == e
    requires forall k :: 0 <= k < |w| ==> w[k] !in vis
    ensures PathFromFixed(adj, s, e, vis) != []
    decreases |w|
  {
    var g := Sets(adj);
    assert |w| >= 2;
    WalkEdge(g, w, 0);
    var o := w[1];
    var m :| 0 <= m < |adj[s]| && adj[s][m] == o;
    var vis' := vis + [s];
    assert o !in vis';
    if o != e {
      var w' := w[1..];
      assert IsSimpleWalk(g, w') by {
        forall i | 0 <= i < |w'| - 1 ensures Edge(g, w'[i], w'[i + 1]) {
          WalkEdge(g, w, i + 1);
          assert w'[i] == w[i + 1] && w'[i + 1] == w[i + 2];
        }
      }
      forall k | 0 <= k < |w'| ensures w'[k] !in vis' {
        assert w'[k] == w[k + 1] != w[0];
      }
      PathFromFixedComplete(adj, o, e, vis', w');
    }
    ViaFixedComplete(adj, e, vis', adj[s], 0, m);
  }

  /** The loop reaches position `m` unless an earlier entry already answered. */
  lemma {:induction false} ViaFixedComplete(adj: seq<seq<int>>, e: int, vis: seq<int>, q: seq<int>, k: nat, m: nat)
    requires InRange(adj) && ListInRange(adj, q) && k <= m < |q| && q[m] !in vis
    requires q[m] == e || PathFromFixed(adj, q[m], e, vis) != []
    ensures PathViaFixed(adj, e, vis, q, k) != []
    decreases m - k
  {
    if k < m && (q[k] in vis || (q[k] != e && PathFromFixed(adj, q[k], e, vis) == [])) {
      ViaFixedComplete(adj, e, vis, q, k + 1, m);
    }
  }

  /** From the start, a non-empty answer is a simple walk from `s` to `e`
      through rooms of the list. */
  lemma PathFixedShape(adj: seq<seq<int>>, s: int, e: int)
    requires InRange(adj) && 0 <= s < |adj|
    ensures var r := PathFromFixed(adj, s, e, []);
      r != [] ==> |r| >= 2 && r[0] == s && r[|r| - 1] == e && IsSimpleWalk(Sets(adj), r)
    ensures var r := PathFromFixed(adj, s, e, []);
      forall k :: 0 <= k < |r| ==> 0 <= r[k] < |adj|
  {
    var r := PathFromFixed(adj, s, e, []);
    PathFromFixedSound(adj, s, e, []);
    if r != [] {
      assert [s] == r[..1];
      assert r[0..] == r;
      forall k | 0 <= k < |r| ensures 0 <= r[k] < |adj| {
        if k > 0 {
          WalkEdge(Sets(adj), r, k - 1);
          assert r[k] in adj[r[k - 1]];
        }
      }
    }
  }

  /** From the start, a path is found whenever `e` is reachable from a
      different `s`. */
  lemma PathFixedFound(adj: seq<seq<int>>, s: int, e: int)
    requires InRange(adj) && 0 <= s < |adj|
    ensures s != e && Reachable(Sets(adj), s, e) ==> PathFromFixed(adj, s, e, []) != []
  {
    if s != e && Reachable(Sets(adj), s, e) {
      var w0 :| IsWalk(Sets(adj), w0) && w0[0] == s && w0[|w0| - 1] == e;
      var w := SimpleWalkOf(Sets(adj), w0);
      PathFromFixedComplete(adj, s, e, [], w);
    }
  }

  /** From the start: a non-empty answer is a simple walk from `s` to `e`,
      and one is found whenever `e` is reachable from a different `s`. */
  lemma PathFixedIff(adj: seq<seq<int>>, s: int, e: int)
    requires InRange(adj) && 0 <= s < |adj|
    ensures var r := PathFromFixed(adj, s, e, []);
      r != [] ==> |r| >= 2 && r[0] == s && r[|r| - 1] == e && IsSimpleWalk(Sets(adj), r)
    ensures var r := PathFromFixed(adj, s, e, []);
      forall k :: 0 <= k < |r| ==> 0 <= r[k] < |adj|
    ensures s == e ==> PathFromFixed(adj, s, e, []) == []
    ensures s != e && Reachable(Sets(adj), s, e) ==> PathFromFixed(adj, s, e, []) != []
  {
    PathFixedShape(adj, s, e);
    PathFixedFound(adj, s, e);
  }

  /** The written search can miss a path: from room 0 with connections
      `[1, 2]`, the search into room 1 comes back empty and room 2, a direct
      neighbour, is never tried. */
  lemma PathAsWrittenMissesNeighbour()
    ensures var adj := [[1, 2], [0], []];
      && InRange(adj)
      && Edge(Sets(adj), 0, 2)
      && PathFrom(adj, 0, 2, []) == []
  {
    var adj := [[1, 2], [0], []];
    assert InRange(adj);
    assert 2 in Elems(adj[0]);
    assert PathVia(adj, 2, [0, 1], [0], 1) == [];
    assert PathVia(adj, 2, [0, 1], [0], 0) == [];
    assert PathFrom(adj, 1, 2, [0]) == PathVia(adj, 2, [0, 1], [0], 0);
    assert PathVia(adj, 2, [0], [1, 2], 0) == [];
    assert [] + [0] == [0];
    assert PathFrom(adj, 0, 2, []) == PathVia(adj, 2, [0], [1, 2], 0);
  }

  /** On the same rooms the corrected search answers `[0, 2]`. */
  lemma PathFixedFindsNeighbour()
    ensures PathFromFixed([[1, 2], [0], []], 0, 2, []) == [0, 2]
  {
    var adj := [[1, 2], [0], []];
    assert PathViaFixed(adj, 2, [0, 1], [0], 1) == [];
    assert PathViaFixed(adj, 2, [0, 1], [0], 0) == [];
    assert PathFromFixed(adj, 1, 2, [0]) == PathViaFixed(adj, 2, [0, 1], [0], 0);
    assert [] + [0] == [0];
    assert PathViaFixed(adj, 2, [0], [1, 2], 1) == [0, 2];
    assert PathViaFixed(adj, 2, [0], [1, 2], 0) == [0, 2];
    assert PathFromFixed(adj, 0, 2, []) == PathViaFixed(adj, 2, [0], [1, 2], 0);
  }
}
