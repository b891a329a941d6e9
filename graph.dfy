/** The room graph: a list of rooms whose connection lists form the
    adjacency. Connections are updated in place on the rooms; every property
    about paths is stated over `Links()`, the adjacency by index. */
module Graph {
  import opened Common
  import opened Random
  import opened Node
  import opened Reach
  import opened Paths

  /** One entry of `getEdges()`. */
  datatype GraphEdge = GraphEdge(node1: MapNode, node2: MapNode)

  /** The filter `n => n.id !== id`. */
  function NotId(id: Id): MapNode -> bool
  {
    (n: MapNode) => n.id != id
  }

  /** Filtering out an id drops the room carrying it. */
  lemma FilterDrops(c: seq<MapNode>, x: MapNode)
    ensures x !in Filter(c, NotId(x.id))
  {
    FilterHas(c, NotId(x.id), x);
  }

  /** Room ids are unique (uuids in the generator). */
  predicate DistinctIds(ns: seq<MapNode>)
  {
    forall i, j {:trigger ns[i].id, ns[j].id} :: 0 <= i < j < |ns| ==> ns[i].id != ns[j].id
  }

  /** The indices of the rooms of `ns` that occur in the list `c`. */
  ghost function LinkSet(ns: seq<MapNode>, c: seq<MapNode>): set<int>
  {
    set j | 0 <= j < |ns| && ns[j] in c
  }

  /** The adjacency by index of rooms `ns` whose connection lists are `cs`. */
  ghost function LinksOf(ns: seq<MapNode>, cs: seq<seq<MapNode>>): (g: seq<set<int>>)
    requires |cs| == |ns|
    ensures |g| == |ns| && forall i {:trigger g[i]} :: 0 <= i < |ns| ==> g[i] == LinkSet(ns, cs[i])
  {
    seq(|ns|, i => if 0 <= i < |cs| then LinkSet(ns, cs[i]) else {})
  }

  /** Every connection is one of the rooms `ns`. */
  predicate Inside(ns: seq<MapNode>, cs: seq<seq<MapNode>>)
  {
    forall i, k :: 0 <= i < |cs| && 0 <= k < |cs[i]| ==> cs[i][k] in ns
  }

  /** The lists after `removeConnection(ns[a], ns[b])`. */
  function UnlinkLists(ns: seq<MapNode>, cs: seq<seq<MapNode>>, a: int, b: int): seq<seq<MapNode>>
    requires |cs| == |ns| && 0 <= a < |ns| && 0 <= b < |ns|
  {
    var cs1 := cs[a := Filter(cs[a], NotId(ns[b].id))];
    cs1[b := Filter(cs1[b], NotId(ns[a].id))]
  }

  /** The lists after `addConnection(ns[a], ns[b])`. */
  function LinkLists(ns: seq<MapNode>, cs: seq<seq<MapNode>>, a: int, b: int): seq<seq<MapNode>>
    requires |cs| == |ns| && 0 <= a < |ns| && 0 <= b < |ns|
  {
    var cs1 := cs[a := cs[a] + [ns[b]]];
    cs1[b := cs1[b] + [ns[a]]]
  }

  lemma UnlinkListsLinks(ns: seq<MapNode>, cs: seq<seq<MapNode>>, a: int, b: int)
    requires DistinctIds(ns) && |cs| == |ns| && 0 <= a < |ns| && 0 <= b < |ns|
    ensures LinksOf(ns, UnlinkLists(ns, cs, a, b)) == Unlink(LinksOf(ns, cs), a, b)
    ensures Inside(ns, cs) ==> Inside(ns, UnlinkLists(ns, cs, a, b))
  {
    var cs1 := cs[a := Filter(cs[a], NotId(ns[b].id))];
    var cs2 := UnlinkLists(ns, cs, a, b);
    DistinctIdsDistinct(ns);
    IndexOfDistinct(ns, a);
    IndexOfDistinct(ns, b);
    var g, h := LinksOf(ns, cs2), Unlink(LinksOf(ns, cs), a, b);
    forall i | 0 <= i < |ns| ensures g[i] == h[i] {
      if i == a && i == b {
        LinkSetFilter(ns, cs[a], ns[b]);
        LinkSetFilter(ns, cs1[b], ns[a]);
      } else if i == a {
        LinkSetFilter(ns, cs[a], ns[b]);
      } else if i == b {
        LinkSetFilter(ns, cs[b], ns[a]);
      }
    }
    if Inside(ns, cs) {
      forall i, k | 0 <= i < |cs2| && 0 <= k < |cs2[i]| ensures cs2[i][k] in ns {
        FilterHas(cs[a], NotId(ns[b].id), cs2[i][k]);
        FilterHas(cs1[b], NotId(ns[a].id), cs2[i][k]);
      }
    }
  }

  lemma LinkListsLinks(ns: seq<MapNode>, cs: seq<seq<MapNode>>, a: int, b: int)
    requires DistinctIds(ns) && |cs| == |ns| && 0 <= a < |ns| && 0 <= b < |ns|
    ensures LinksOf(ns, LinkLists(ns, cs, a, b)) == Link(LinksOf(ns, cs), a, b)
    ensures Inside(ns, cs) ==> Inside(ns, LinkLists(ns, cs, a, b))
  {
    var cs1 := cs[a := cs[a] + [ns[b]]];
    DistinctIdsDistinct(ns);
    IndexOfDistinct(ns, a);
    IndexOfDistinct(ns, b);
    LinkSetPush(ns, cs[a], ns[b]);
    LinkSetPush(ns, cs1[b], ns[a]);
    if a != b {
      LinkSetPush(ns, cs[b], ns[a]);
    }
  }

  /** The lists after `isTraversableWithoutConnection(ns[a], ns[b])`: the
      link is removed, then pushed back. */
  function RelinkLists(ns: seq<MapNode>, cs: seq<seq<MapNode>>, a: int, b: int): seq<seq<MapNode>>
    requires |cs| == |ns| && 0 <= a < |ns| && 0 <= b < |ns|
  {
    LinkLists(ns, UnlinkLists(ns, cs, a, b), a, b)
  }

  /** After the relink of two different rooms, each comes last in the
      other's list and nowhere else in it, whatever the list held before;
      the other rooms' lists are as they were. */
  lemma RelinkListsFacts(ns: seq<MapNode>, cs: seq<seq<MapNode>>, a: int, b: int)
    requires |cs| == |ns| && 0 <= a < |ns| && 0 <= b < |ns| && a != b
    ensures var r := RelinkLists(ns, cs, a, b);
      && |r| == |cs|
      && r[a] == Filter(cs[a], NotId(ns[b].id)) + [ns[b]] && ns[b] !in r[a][..|r[a]| - 1]
      && r[b] == Filter(cs[b], NotId(ns[a].id)) + [ns[a]] && ns[a] !in r[b][..|r[b]| - 1]
      && forall i :: 0 <= i < |cs| && i != a && i != b ==> r[i] == cs[i]
  {
    var r := RelinkLists(ns, cs, a, b);
    FilterDrops(cs[a], ns[b]);
    FilterDrops(cs[b], ns[a]);
    assert r[a][..|r[a]| - 1] == Filter(cs[a], NotId(ns[b].id));
    assert r[b][..|r[b]| - 1] == Filter(cs[b], NotId(ns[a].id));
  }

  /** Removing the link after the relink leaves the lists of one removal. */
  lemma UnlinkAfterRelink(ns: seq<MapNode>, cs: seq<seq<MapNode>>, a: int, b: int)
    requires |cs| == |ns| && 0 <= a < |ns| && 0 <= b < |ns|
    ensures UnlinkLists(ns, RelinkLists(ns, cs, a, b), a, b) == UnlinkLists(ns, cs, a, b)
  {
    var u, v := UnlinkLists(ns, cs, a, b), UnlinkLists(ns, RelinkLists(ns, cs, a, b), a, b);
    if a == b {
      UnlinkAfterRelinkSelf(ns, cs, a);
    } else {
      UnlinkAfterRelinkPair(ns, cs, a, b);
    }
    assert forall i :: 0 <= i < |cs| ==> v[i] == u[i];
  }

  /** `UnlinkAfterRelink` for a self-link, which is filtered twice and
      pushed twice. */
  lemma UnlinkAfterRelinkSelf(ns: seq<MapNode>, cs: seq<seq<MapNode>>, a: int)
    requires |cs| == |ns| && 0 <= a < |ns|
    ensures UnlinkLists(ns, RelinkLists(ns, cs, a, a), a, a)[a] == UnlinkLists(ns, cs, a, a)[a]
  {
    var f := NotId(ns[a].id);
    var ua := Filter(Filter(cs[a], f), f);
    FilterTwice(cs[a], f);
    assert ua == Filter(cs[a], f) == Filter(ua, f);
    assert RelinkLists(ns, cs, a, a)[a] == (ua + [ns[a]]) + [ns[a]];
    assert Filter([ns[a]], f) == [];
    FilterConcat(ua + [ns[a]], [ns[a]], f);
    FilterConcat(ua, [ns[a]], f);
    var r := RelinkLists(ns, cs, a, a);
    assert Filter(r[a], f) == ua;
    assert UnlinkLists(ns, r, a, a)[a] == Filter(Filter(r[a], f), f);
  }

  /** `UnlinkAfterRelink` for two different rooms: each list loses the
      pushed room again. */
  lemma UnlinkAfterRelinkPair(ns: seq<MapNode>, cs: seq<seq<MapNode>>, a: int, b: int)
    requires |cs| == |ns| && 0 <= a < |ns| && 0 <= b < |ns| && a != b
    ensures var v := UnlinkLists(ns, RelinkLists(ns, cs, a, b), a, b);
      v[a] == Filter(cs[a], NotId(ns[b].id)) && v[b] == Filter(cs[b], NotId(ns[a].id))
  {
    var fa, fb := NotId(ns[b].id), NotId(ns[a].id);
    var ua, ub := Filter(cs[a], fa), Filter(cs[b], fb);
    assert Filter([ns[b]], fa) == [] && Filter([ns[a]], fb) == [];
    FilterTwice(cs[a], fa);
    FilterTwice(cs[b], fb);
    FilterConcat(ua, [ns[b]], fa);
    FilterConcat(ub, [ns[a]], fb);
  }

  /** The lists after the tail of `removeRandomConnection()` on `ns[a]` and
      `ns[b]`: relinked by the test, then unlinked when the rest stays
      connected. */
  ghost function GuardedUnlinkLists(ns: seq<MapNode>, cs: seq<seq<MapNode>>, a: int, b: int): seq<seq<MapNode>>
    requires |cs| == |ns| && 0 <= a < |ns| && 0 <= b < |ns|
  {
    var relinked := RelinkLists(ns, cs, a, b);
    if Connected(Unlink(LinksOf(ns, cs), a, b)) then UnlinkLists(ns, relinked, a, b) else relinked
  }

  /** The guarded removal on the lists: its links are `GuardedUnlink`, and a
      dropped link leaves the lists of a single `removeConnection`. */
  lemma GuardedUnlinkListsFacts(ns: seq<MapNode>, cs: seq<seq<MapNode>>, a: int, b: int)
    requires DistinctIds(ns) && |cs| == |ns| && 0 <= a < |ns| && 0 <= b < |ns|
    ensures LinksOf(ns, GuardedUnlinkLists(ns, cs, a, b)) == GuardedUnlink(LinksOf(ns, cs), a, b)
    ensures Connected(Unlink(LinksOf(ns, cs), a, b)) ==> GuardedUnlinkLists(ns, cs, a, b) == UnlinkLists(ns, cs, a, b)
    ensures Inside(ns, cs) ==> Inside(ns, GuardedUnlinkLists(ns, cs, a, b))
  {
    var u := UnlinkLists(ns, cs, a, b);
    UnlinkListsLinks(ns, cs, a, b);
    LinkListsLinks(ns, u, a, b);
    UnlinkAfterRelink(ns, cs, a, b);
  }

  /** The lists after `addRandomConnection()` drew `ns[a]` and `ns[b]`: linked
      only when `a` does not reach `b`. */
  ghost function GuardedLinkLists(ns: seq<MapNode>, cs: seq<seq<MapNode>>, a: int, b: int): seq<seq<MapNode>>
    requires |cs| == |ns| && 0 <= a < |ns| && 0 <= b < |ns|
  {
    if Reachable(LinksOf(ns, cs), a, b) then cs else LinkLists(ns, cs, a, b)
  }

  lemma DistinctIdsDistinct(ns: seq<MapNode>)
    requires DistinctIds(ns)
    ensures Distinct(ns)
  {
    forall i, j | 0 <= i < j < |ns| ensures ns[i] != ns[j] {
      assert ns[i].id != ns[j].id;
    }
  }

  /** Pushing a room of `ns` adds exactly its index. */
  lemma LinkSetPush(ns: seq<MapNode>, c: seq<MapNode>, x: MapNode)
    requires DistinctIds(ns) && x in ns
    ensures LinkSet(ns, c + [x]) == LinkSet(ns, c) + {IndexOf(ns, x)}
  {
    var k := IndexOf(ns, x);
    DistinctIdsDistinct(ns);
    forall j | 0 <= j < |ns| ensures ns[j] == x <==> j == k {
    }
  }

  /** Filtering out an id of `ns` removes exactly that room's index. */
  lemma LinkSetFilter(ns: seq<MapNode>, c: seq<MapNode>, x: MapNode)
    requires DistinctIds(ns) && x in ns
    ensures LinkSet(ns, Filter(c, NotId(x.id))) == LinkSet(ns, c) - {IndexOf(ns, x)}
  {
    var k := IndexOf(ns, x);
    forall j | 0 <= j < |ns|
      ensures ns[j] in Filter(c, NotId(x.id)) <==> ns[j] in c && j != k
    {
      FilterHas(c, NotId(x.id), ns[j]);
    }
  }

  /** A set of rooms that holds every connection of its members. */
  ghost predicate ClosedSet(S: set<MapNode>)
    reads S
  {
    forall v, c :: v in S && c in v.connections ==> c in S
  }

  /** The edges contributed by one room: one per entry of its list, in order. */
  function EdgesFrom(n: MapNode): (es: seq<GraphEdge>)
    reads n`connections
    ensures |es| == |n.connections|
    ensures forall k {:trigger es[k]} :: 0 <= k < |es| ==> es[k] == GraphEdge(n, n.connections[k])
  {
    var cs := n.connections;
    seq(|cs|, k requires 0 <= k < |cs| => GraphEdge(n, cs[k]))
  }

  /** `getEdges()` over the rooms `ns`: room by room, list position by list position. */
  function EdgesOf(ns: seq<MapNode>): seq<GraphEdge>
    reads ns`connections
  {
    if ns == [] then [] else EdgesOf(ns[..|ns| - 1]) + EdgesFrom(ns[|ns| - 1])
  }

  /** The total length of the connection lists. */
  function ConnCount(ns: seq<MapNode>): nat
    reads ns
  {
    if ns == [] then 0 else ConnCount(ns[..|ns| - 1]) + |ns[|ns| - 1].connections|
  }

  /** One edge per list entry: `a -> b` is an edge exactly when `a` is a room
      listing `b`. */
  lemma {:induction false} EdgesOfFacts(ns: seq<MapNode>)
    ensures |EdgesOf(ns)| == ConnCount(ns)
    ensures forall a, b :: GraphEdge(a, b) in EdgesOf(ns) <==> a in ns && b in a.connections
  {
    if ns != [] {
      var front, last := ns[..|ns| - 1], ns[|ns| - 1];
      EdgesOfFacts(front);
      forall a, b ensures GraphEdge(a, b) in EdgesOf(ns) <==> a in ns && b in a.connections {
        if GraphEdge(a, b) in EdgesFrom(last) {
          var k :| 0 <= k < |last.connections| && EdgesFrom(last)[k] == GraphEdge(a, b);
        }
        if a == last && b in a.connections {
          var k :| 0 <= k < |last.connections| && last.connections[k] == b;
          assert EdgesFrom(last)[k] == GraphEdge(a, b);
        }
        assert a in ns <==> a in front || a == last;
      }
    }
  }

  /** Each edge starts at a room of `ns` and ends at a room it lists. */
  lemma EdgeListed(ns: seq<MapNode>, k: int)
    requires 0 <= k < |EdgesOf(ns)|
    ensures EdgesOf(ns)[k].node1 in ns && EdgesOf(ns)[k].node2 in EdgesOf(ns)[k].node1.connections
  {
    var e := EdgesOf(ns)[k];
    EdgesOfFacts(ns);
    assert GraphEdge(e.node1, e.node2) == e && e in EdgesOf(ns);
  }

  /** Squared distance between the origins of two rooms (`getDistance`, squared). */
  function DistanceSq(a: MapNode, b: MapNode): nat
    reads a`x, a`y, b`x, b`y
  {
    DistSq(Point(a.x, a.y), Point(b.x, b.y))
  }

  /** `getTotalArea()` over the rooms `ns`. */
  function TotalArea(ns: seq<MapNode>): int
    reads ns
  {
    if ns == [] then 0 else TotalArea(ns[..|ns| - 1]) + AreaSize(ns[|ns| - 1].Bounds())
  }

  /** Rooms of area at least one add up to at least one per room. */
  lemma {:induction false} TotalAreaAtLeast(ns: seq<MapNode>)
    requires forall i :: 0 <= i < |ns| ==> Proper(ns[i].Bounds())
    ensures TotalArea(ns) >= |ns|
  {
    if ns != [] {
      var r := ns[|ns| - 1].Bounds();
      TotalAreaAtLeast(ns[..|ns| - 1]);
      MulAtLeast(Width(r), Height(r));
    }
  }

  /** Entry `j` of a list with entry `k` removed. */
  lemma SpliceIndex<T>(s: seq<T>, k: int, j: int)
    requires 0 <= k < |s| && 0 <= j < |s| - 1
    ensures (s[..k] + s[k + 1..])[j] == s[if j < k then j else j + 1]
  {
  }

  /** Removing one entry of a list without repeated ids keeps the ids
      distinct, drops exactly that entry and keeps every other. */
  lemma SpliceFacts(ns: seq<MapNode>, k: int)
    requires DistinctIds(ns) && 0 <= k < |ns|
    ensures var rest := ns[..k] + ns[k + 1..];
      && DistinctIds(rest) && ns[k] !in rest
      && (forall x :: x in ns ==> x == ns[k] || x in rest)
      && (forall x :: x in rest ==> x in ns)
  {
    var rest := ns[..k] + ns[k + 1..];
    DistinctIdsDistinct(ns);
    forall i, j | 0 <= i < j < |rest| ensures rest[i].id != rest[j].id {
      var i', j' := if i < k then i else i + 1, if j < k then j else j + 1;
      assert rest[i] == ns[i'] && rest[j] == ns[j'];
    }
    forall x | x in ns ensures x == ns[k] || x in rest {
      var i :| 0 <= i < |ns| && ns[i] == x;
      if i < k {
        assert rest[i] == x;
      } else if i > k {
        assert rest[i - 1] == x;
      }
    }
  }

  /** The position in the original list of entry `j` once entry `k` is removed. */
  function Skip(j: int, k: int): int
  {
    if j < k then j else j + 1
  }

  /** The loop of `removeNode(n)`: `removeConnection(n, other)` for every
      remaining room `other`, dropping each from the other's list. */
  method DetachFrom(n: MapNode, ns: seq<MapNode>, ghost cs: seq<seq<MapNode>>)
    requires DistinctIds(ns) && n !in ns
    requires |cs| == |ns| && forall j :: 0 <= j < |ns| ==> ns[j].connections == cs[j]
    modifies n`connections, ns`connections
    ensures forall j :: 0 <= j < |ns| ==> ns[j].connections == Filter(cs[j], NotId(n.id))
    ensures forall m :: m in ns ==> m.connections == Filter(old(m.connections), NotId(n.id))
    ensures forall x :: x in n.connections ==> x in old(n.connections) && x !in ns
  {
    var i := 0;
    while i < |ns|
      invariant 0 <= i <= |ns|
      invariant forall j :: 0 <= j < i ==> ns[j].connections == Filter(cs[j], NotId(n.id))
      invariant forall j :: i <= j < |ns| ==> ns[j].connections == old(ns[j].connections)
      invariant forall x :: x in n.connections ==> x in old(n.connections) && x !in ns[..i]
    {
      var other := ns[i];
      ghost var before := n.connections;
      n.connections := Filter(n.connections, NotId(other.id));
      other.connections := Filter(other.connections, NotId(n.id));
      forall x | x in n.connections ensures x in old(n.connections) && x !in ns[..i + 1] {
        FilterHas(before, NotId(other.id), x);
        assert ns[..i + 1] == ns[..i] + [other];
      }
      i := i + 1;
    }
    assert ns[..i] == ns;
  }

  /** Entry `j` of both spliced lists comes from position `Skip(j, k)`. */
  lemma SplicePairs<S, T>(s: seq<S>, t: seq<T>, k: int)
    requires |s| == |t| && 0 <= k < |s|
    ensures forall j :: 0 <= j < |s| - 1 ==>
      (s[..k] + s[k + 1..])[j] == s[Skip(j, k)] && (t[..k] + t[k + 1..])[j] == t[Skip(j, k)]
  {
    forall j | 0 <= j < |s| - 1
      ensures (s[..k] + s[k + 1..])[j] == s[Skip(j, k)] && (t[..k] + t[k + 1..])[j] == t[Skip(j, k)]
    {
      SpliceIndex(s, k, j);
      SpliceIndex(t, k, j);
    }
  }

  /** The connection lists of `ns`, in order. */
  function ConnsOf(ns: seq<MapNode>): (cs: seq<seq<MapNode>>)
    reads ns`connections
    ensures |cs| == |ns| && forall i {:trigger cs[i]} :: 0 <= i < |ns| ==> cs[i] == ns[i].connections
  {
    if ns == [] then [] else ConnsOf(ns[..|ns| - 1]) + [ns[|ns| - 1].connections]
  }

  /** The positions of the rooms of `c` in `ns`. */
  function IndexList(ns: seq<MapNode>, c: seq<MapNode>): (r: seq<int>)
    ensures |r| == |c| && forall k :: 0 <= k < |c| ==> r[k] == IndexOf(ns, c[k])
  {
    seq(|c|, k requires 0 <= k < |c| => IndexOf(ns, c[k]))
  }

  /** The connection lists as lists of positions, in list order. */
  function AdjOf(ns: seq<MapNode>, cs: seq<seq<MapNode>>): (adj: seq<seq<int>>)
    ensures |adj| == |cs| && forall i :: 0 <= i < |cs| ==> adj[i] == IndexList(ns, cs[i])
  {
    seq(|cs|, i requires 0 <= i < |cs| => IndexList(ns, cs[i]))
  }

  /** With distinct rooms and every connection a room, the position lists
      stay in range and, as sets, are exactly the links. */
  lemma AdjOfLinks(ns: seq<MapNode>, cs: seq<seq<MapNode>>)
    requires Distinct(ns) && |cs| == |ns| && Inside(ns, cs)
    ensures InRange(AdjOf(ns, cs))
    ensures Sets(AdjOf(ns, cs)) == LinksOf(ns, cs)
  {
    var adj := AdjOf(ns, cs);
    forall i | 0 <= i < |ns| ensures Elems(adj[i]) == LinkSet(ns, cs[i]) {
      forall j | j in Elems(adj[i]) ensures j in LinkSet(ns, cs[i]) {
        var k :| 0 <= k < |adj[i]| && adj[i][k] == j;
        assert cs[i][k] in ns;
      }
      forall j | j in LinkSet(ns, cs[i]) ensures j in Elems(adj[i]) {
        var k :| 0 <= k < |cs[i]| && cs[i][k] == ns[j];
        IndexOfDistinct(ns, j);
        assert adj[i][k] == j;
      }
    }
  }

  /** `getPath(start, end)` over the rooms `ns` with connection lists `cs`,
      with an empty answer from a neighbour moving on to the next connection
      (the written search stops there, see `Paths.PathAsWrittenMissesNeighbour`).
      A non-empty answer runs from `start` to `end` along connections without
      repeating a room, and one is found whenever `end` is reachable from a
      different `start`; with `start == end`, or an `end` that is not a room,
      the answer is empty. */
  function NodePath(ns: seq<MapNode>, cs: seq<seq<MapNode>>, start: MapNode, end: MapNode): (p: seq<MapNode>)
    requires Distinct(ns) && |cs| == |ns| && Inside(ns, cs) && start in ns
    ensures p != [] ==> |p| >= 2 && p[0] == start && p[|p| - 1] == end
    ensures forall k :: 0 <= k < |p| ==> p[k] in ns
    ensures forall k :: 0 <= k < |p| - 1 ==> p[k + 1] in cs[IndexOf(ns, p[k])]
    ensures Distinct(p)
    ensures start == end || end !in ns ==> p == []
    ensures end in ns && start != end && Reachable(LinksOf(ns, cs), IndexOf(ns, start), IndexOf(ns, end)) ==> p != []
  {
    var adj := AdjOf(ns, cs);
    AdjOfLinks(ns, cs);
    var s, e := IndexOf(ns, start), IndexOf(ns, end);
    PathFixedIff(adj, s, e);
    var r := PathFromFixed(adj, s, e, []);
    PathIndicesToNodes(ns, cs, r);
    seq(|r|, k requires 0 <= k < |r| => ns[r[k]])
  }

  /** For rooms of `ns`, the list at their position is their connection list. */
  lemma ConnsOfListed(ns: seq<MapNode>, cs: seq<seq<MapNode>>, p: seq<MapNode>)
    requires Distinct(ns) && |cs| == |ns| && forall i :: 0 <= i < |ns| ==> cs[i] == ns[i].connections
    requires forall k :: 0 <= k < |p| ==> p[k] in ns
    ensures forall k :: 0 <= k < |p| ==> cs[IndexOf(ns, p[k])] == p[k].connections
  {
  }

  /** A simple walk over the positions is a simple walk over the rooms. */
  lemma PathIndicesToNodes(ns: seq<MapNode>, cs: seq<seq<MapNode>>, r: seq<int>)
    requires Distinct(ns) && |cs| == |ns| && Inside(ns, cs)
    requires forall k :: 0 <= k < |r| ==> 0 <= r[k] < |ns|
    requires r != [] ==> IsSimpleWalk(Sets(AdjOf(ns, cs)), r)
    ensures var p := seq(|r|, k requires 0 <= k < |r| => ns[r[k]]);
      && (forall k :: 0 <= k < |p| - 1 ==> p[k + 1] in cs[IndexOf(ns, p[k])])
      && Distinct(p)
  {
    var adj := AdjOf(ns, cs);
    var p := seq(|r|, k requires 0 <= k < |r| => ns[r[k]]);
    forall k | 0 <= k < |p| - 1 ensures p[k + 1] in cs[IndexOf(ns, p[k])] {
      assert Edge(Sets(adj), r[k], r[k + 1]);
      var m :| 0 <= m < |adj[r[k]]| && adj[r[k]][m] == r[k + 1];
      IndexOfDistinct(ns, r[k]);
      assert cs[r[k]][m] in ns;
      IndexOfDistinct(ns, r[k + 1]);
    }
    forall i, j | 0 <= i < j < |p| ensures p[i] != p[j] {
      assert r[i] != r[j];
    }
  }

  /** `nodes.find((node) => node.id === id) || null`. */
  function FindById(ns: seq<MapNode>, id: Id): (r: Option<MapNode>)
    ensures r.Some? ==> r.value in ns && r.value.id == id
    ensures r.None? <==> forall k :: 0 <= k < |ns| ==> ns[k].id != id
    ensures r.Some? ==> exists k :: 0 <= k < |ns| && ns[k] == r.value && forall j :: 0 <= j < k ==> ns[j].id != id
  {
    if ns == [] then None
    else if ns[0].id == id then (assert ns[0] == ns[0]; Some(ns[0]))
    else
      var r := FindById(ns[1..], id);
      if r.Some? then
        ghost var k :| 0 <= k < |ns[1..]| && ns[1..][k] == r.value && forall j :: 0 <= j < k ==> ns[1..][j].id != id;
        assert ns[k + 1] == r.value;
        r
      else r
  }

  /** How many entries of `b` equal `p`. */
  function Count(b: seq<Point>, p: Point): (n: nat)
    ensures n <= |b|
  {
    if b == [] then 0 else Count(b[..|b| - 1], p) + (if b[|b| - 1] == p then 1 else 0)
  }

  /** The pairs `(j, k)` with `a[j] == b[k]`: how often `getCrossedConnections`
      pushes an edge whose rooms have areas `a` and `b`. */
  function SharedPairs(a: seq<Point>, b: seq<Point>): (n: nat)
    ensures n <= |a| * |b|
  {
    if a == [] then 0
    else
      var m := SharedPairs(a[..|a| - 1], b);
      MulAtLeastPrefix(|a|, |b|);
      m + Count(b, a[|a| - 1])
  }

  lemma MulAtLeastPrefix(n: int, m: nat)
    requires n >= 1
    ensures (n - 1) * m + m == n * m
  {
  }

  lemma {:induction false} CountPositive(b: seq<Point>, p: Point)
    ensures Count(b, p) > 0 <==> p in b
  {
    if b != [] {
      CountPositive(b[..|b| - 1], p);
      assert b == b[..|b| - 1] + [b[|b| - 1]];
    }
  }

  /** An edge is pushed at all exactly when the two areas share a tile. */
  lemma {:induction false} SharedPairsPositive(a: seq<Point>, b: seq<Point>)
    ensures SharedPairs(a, b) > 0 <==> exists p :: p in a && p in b
  {
    if a != [] {
      var a' := a[..|a| - 1];
      SharedPairsPositive(a', b);
      CountPositive(b, a[|a| - 1]);
      assert a == a' + [a[|a| - 1]];
      if SharedPairs(a', b) > 0 {
        var p :| p in a' && p in b;
        assert p in a;
      }
      if exists p :: p in a && p in b {
        var p :| p in a && p in b;
        if p != a[|a| - 1] {
          assert p in a';
        }
      }
    }
  }

  /** `n` copies of `e`. */
  function Repeat(e: GraphEdge, n: nat): (r: seq<GraphEdge>)
    ensures |r| == n && forall k :: 0 <= k < n ==> r[k] == e
  {
    if n == 0 then [] else Repeat(e, n - 1) + [e]
  }

  /** Both rooms of every edge. */
  function Ends(es: seq<GraphEdge>): (r: set<MapNode>)
    ensures forall i :: 0 <= i < |es| ==> es[i].node1 in r && es[i].node2 in r
  {
    if es == [] then {} else Ends(es[..|es| - 1]) + {es[|es| - 1].node1, es[|es| - 1].node2}
  }

  /** Edges among rooms `ns` have their ends among `ns`. */
  lemma {:induction false} EndsWithin(es: seq<GraphEdge>, ns: seq<MapNode>)
    requires forall k :: 0 <= k < |es| ==> es[k].node1 in ns && es[k].node2 in ns
    ensures forall n :: n in Ends(es) ==> n in ns
  {
    if es != [] {
      EndsWithin(es[..|es| - 1], ns);
    }
  }

  /** The geometry of both rooms of each edge. */
  function EdgeRects(es: seq<GraphEdge>): (rs: seq<(Rect, Rect)>)
    reads Ends(es)`x, Ends(es)`y, Ends(es)`x0, Ends(es)`y0, Ends(es)`x1, Ends(es)`y1
    ensures |rs| == |es| && forall i {:trigger rs[i]} :: 0 <= i < |es| ==> rs[i] == (es[i].node1.Bounds(), es[i].node2.Bounds())
  {
    if es == [] then [] else EdgeRects(es[..|es| - 1]) + [(es[|es| - 1].node1.Bounds(), es[|es| - 1].node2.Bounds())]
  }

  /** Both rooms of every edge are at least one tile wide and high. */
  predicate ProperPairs(rs: seq<(Rect, Rect)>)
  {
    forall i :: 0 <= i < |rs| ==> Proper(rs[i].0) && Proper(rs[i].1)
  }

  /** Edges between proper rooms have proper geometry. */
  lemma EdgeRectsProper(ns: seq<MapNode>, es: seq<GraphEdge>)
    requires forall i :: 0 <= i < |ns| ==> Proper(ns[i].Bounds())
    requires forall k :: 0 <= k < |es| ==> es[k].node1 in ns && es[k].node2 in ns
    ensures ProperPairs(EdgeRects(es))
  {
  }

  /** `getCrossedConnections()` over edges `es` with room geometry `rs`: each
      edge once for every pair of equal tiles of its two areas. */
  function CrossedList(es: seq<GraphEdge>, rs: seq<(Rect, Rect)>): (r: seq<GraphEdge>)
    requires |rs| == |es| && ProperPairs(rs)
  {
    if es == [] then []
    else
      var n := |es| - 1;
      CrossedList(es[..n], rs[..n]) + Repeat(es[n], SharedPairs(Area(rs[n].0, 0), Area(rs[n].1, 0)))
  }

  /** An edge is listed exactly when it is one of `es` whose two rooms share a tile. */
  lemma {:induction false} CrossedListHas(es: seq<GraphEdge>, rs: seq<(Rect, Rect)>, e: GraphEdge)
    requires |rs| == |es| && ProperPairs(rs)
    ensures e in CrossedList(es, rs) <==>
      exists i :: 0 <= i < |es| && es[i] == e && exists p :: InBox(rs[i].0, 0, p) && InBox(rs[i].1, 0, p)
  {
    if es != [] {
      var n := |es| - 1;
      assert ProperPairs(rs[..n]);
      CrossedListHas(es[..n], rs[..n], e);
      var a, b := Area(rs[n].0, 0), Area(rs[n].1, 0);
      SharedPairsPositive(a, b);
      if e in CrossedList(es, rs) && e !in CrossedList(es[..n], rs[..n]) {
        assert e in Repeat(es[n], SharedPairs(a, b));
        var p :| p in a && p in b;
        assert InBox(rs[n].0, 0, p) && InBox(rs[n].1, 0, p);
      }
      if exists i :: 0 <= i < |es| && es[i] == e && exists p :: InBox(rs[i].0, 0, p) && InBox(rs[i].1, 0, p) {
        var i :| 0 <= i < |es| && es[i] == e && exists p :: InBox(rs[i].0, 0, p) && InBox(rs[i].1, 0, p);
        var p :| InBox(rs[i].0, 0, p) && InBox(rs[i].1, 0, p);
        if i == n {
          assert p in a && p in b;
          assert Repeat(e, SharedPairs(a, b))[0] == e;
        } else {
          assert es[..n][i] == e && rs[..n][i] == rs[i];
        }
      }
    }
  }

  /** The loop of `getCrossedConnections()` over edges `es` whose room
      bounds are `rs`: for each edge, push it once per shared tile. */
  method CrossedOf(es: seq<GraphEdge>, rs: seq<(Rect, Rect)>) returns (crossed: seq<GraphEdge>)
    requires |rs| == |es| && ProperPairs(rs)
    ensures crossed == CrossedList(es, rs)
  {
    crossed := [];
    var i := 0;
    while i < |es|
      invariant 0 <= i <= |es|
      invariant crossed == CrossedList(es[..i], rs[..i])
    {
      var area1 := Area(rs[i].0, 0);
      var area2 := Area(rs[i].1, 0);
      crossed := PushShared(crossed, es[i], area1, area2);
      assert es[..i + 1][..i] == es[..i] && rs[..i + 1][..i] == rs[..i];
      i := i + 1;
    }
    assert es[..i] == es && rs[..i] == rs;
  }

  /** The two inner loops of `getCrossedConnections()`: `e` is pushed once
      for every pair of equal tiles of `area1` and `area2`. */
  method PushShared(crossed0: seq<GraphEdge>, e: GraphEdge, area1: seq<Point>, area2: seq<Point>)
    returns (crossed: seq<GraphEdge>)
    ensures crossed == crossed0 + Repeat(e, SharedPairs(area1, area2))
  {
    crossed := crossed0;
    var j := 0;
    while j < |area1|
      invariant 0 <= j <= |area1|
      invariant crossed == crossed0 + Repeat(e, SharedPairs(area1[..j], area2))
    {
      var k := 0;
      while k < |area2|
        invariant 0 <= k <= |area2|
        invariant crossed == crossed0 + Repeat(e, SharedPairs(area1[..j], area2) + Count(area2[..k], area1[j]))
      {
        if area1[j] == area2[k] {
          crossed := crossed + [e];
        }
        assert area2[..k + 1][..k] == area2[..k];
        k := k + 1;
      }
      assert area1[..j + 1][..j] == area1[..j] && area2[..|area2|] == area2;
      j := j + 1;
    }
    assert area1[..|area1|] == area1;
  }

  /** The origins of the rooms `ns`, in order. */
  function PositionsOf(ns: seq<MapNode>): (pts: seq<Point>)
    reads ns`x, ns`y
    ensures |pts| == |ns| && forall i {:trigger pts[i]} :: 0 <= i < |ns| ==> pts[i] == Point(ns[i].x, ns[i].y)
  {
    if ns == [] then [] else PositionsOf(ns[..|ns| - 1]) + [Point(ns[|ns| - 1].x, ns[|ns| - 1].y)]
  }

  /** The pair `(p, q)` comes before `(bi, bj)` in the scan order `i < j`. */
  predicate ScanBefore(p: int, q: int, bi: int, bj: int)
  {
    p < bi || (p == bi && q < bj)
  }

  /** The first `k` squared distances from origin `p` of `pts`. */
  function DistRow(pts: seq<Point>, p: int, k: nat): (row: seq<int>)
    requires 0 <= p < |pts| && k <= |pts|
    ensures |row| == k
  {
    if k == 0 then [] else DistRow(pts, p, k - 1) + [DistSq(pts[p], pts[k - 1])]
  }

  /** The rows of the first `k` origins of `pts`. */
  function DistRows(pts: seq<Point>, k: nat): (d: seq<seq<int>>)
    requires k <= |pts|
    ensures |d| == k && forall p :: 0 <= p < k ==> |d[p]| == |pts|
  {
    if k == 0 then [] else DistRows(pts, k - 1) + [DistRow(pts, k - 1, |pts|)]
  }

  /** Squared distances between every two origins of `pts`. */
  function DistTable(pts: seq<Point>): (d: seq<seq<int>>)
    ensures IsTable(d) && |d| == |pts|
  {
    DistRows(pts, |pts|)
  }

  /** Entry `(p, q)` of the table is the squared distance of origins `p` and `q`. */
  lemma DistAt(pts: seq<Point>, p: int, q: int)
    requires 0 <= p < |pts| && 0 <= q < |pts|
    ensures DistTable(pts)[p][q] == DistSq(pts[p], pts[q])
  {
    RowAt(pts, p, q, |pts|);
    RowsAt(pts, p, |pts|);
  }

  lemma {:induction false} RowAt(pts: seq<Point>, p: int, q: int, k: nat)
    requires 0 <= p < |pts| && 0 <= q < k <= |pts|
    ensures DistRow(pts, p, k)[q] == DistSq(pts[p], pts[q])
  {
    if q < k - 1 {
      RowAt(pts, p, q, k - 1);
    }
  }

  lemma {:induction false} RowsAt(pts: seq<Point>, p: int, k: nat)
    requires 0 <= p < k <= |pts|
    ensures DistRows(pts, k)[p] == DistRow(pts, p, |pts|)
  {
    if p < k - 1 {
      RowsAt(pts, p, k - 1);
    }
  }

  /** `d` is a square table of distances. */
  ghost predicate IsTable(d: seq<seq<int>>)
  {
    forall p :: 0 <= p < |d| ==> |d[p]| == |d|
  }

  /** `(bi, bj)` is the pair `findMostDistancedNodes` settles on in the
      distance table `d`: farthest apart, and strictly farther than every
      pair scanned before it. */
  ghost predicate FarthestIn(d: seq<seq<int>>, bi: int, bj: int)
  {
    && IsTable(d)
    && 0 <= bi < bj < |d|
    && (forall p, q :: 0 <= p < q < |d| ==> d[p][q] <= d[bi][bj])
    && (forall p, q :: 0 <= p < q < |d| && ScanBefore(p, q, bi, bj) ==> d[p][q] < d[bi][bj])
  }

  /** The same, for the origins `pts` of the rooms. */
  ghost predicate FarthestPair(pts: seq<Point>, bi: int, bj: int)
  {
    FarthestIn(DistTable(pts), bi, bj)
  }

  /** The scan of `findMostDistancedNodes` from pair `(i, j)` on, holding
      the pair `(pi, pj)` so far: a later pair replaces it only when strictly
      farther apart. */
  function Scan(d: seq<seq<int>>, i: nat, j: nat, pi: nat, pj: nat): (r: (nat, nat))
    requires IsTable(d) && pi < |d| && pj < |d|
    ensures r.0 < |d| && r.1 < |d|
    decreases |d| - i, |d| + 1 - j
  {
    if i >= |d| then (pi, pj)
    else if j >= |d| then Scan(d, i + 1, i + 2, pi, pj)
    else if d[i][j] > d[pi][pj] then Scan(d, i, j + 1, i, j)
    else Scan(d, i, j + 1, pi, pj)
  }

  /** Every pair scanned before `(i, j)` is no farther than `(pi, pj)`, and
      those scanned before `(pi, pj)` are strictly nearer. */
  ghost predicate ScanInvariant(d: seq<seq<int>>, i: nat, j: nat, pi: nat, pj: nat)
  {
    && IsTable(d)
    && pi < pj < |d|
    && (ScanBefore(pi, pj, i, j) || (pi == 0 && pj == 1))
    && (forall p, q :: 0 <= p < q < |d| && ScanBefore(p, q, i, j) ==> d[p][q] <= d[pi][pj])
    && (forall p, q :: 0 <= p < q < |d| && ScanBefore(p, q, pi, pj) ==> d[p][q] < d[pi][pj])
  }

  /** The scan ends on the farthest pair. */
  lemma {:induction false} ScanFarthest(d: seq<seq<int>>, i: nat, j: nat, pi: nat, pj: nat)
    requires ScanInvariant(d, i, j, pi, pj) && i < j
    ensures var r := Scan(d, i, j, pi, pj); FarthestIn(d, r.0, r.1)
    decreases |d| - i, |d| + 1 - j
  {
    if i >= |d| {
      forall p, q | 0 <= p < q < |d| ensures ScanBefore(p, q, i, j) {
      }
    } else if j >= |d| {
      assert ScanInvariant(d, i + 1, i + 2, pi, pj) by {
        forall p, q | 0 <= p < q < |d| && ScanBefore(p, q, i + 1, i + 2)
          ensures d[p][q] <= d[pi][pj]
        {
          assert ScanBefore(p, q, i, j);
        }
      }
      ScanFarthest(d, i + 1, i + 2, pi, pj);
    } else if d[i][j] > d[pi][pj] {
      assert ScanInvariant(d, i, j + 1, i, j);
      ScanFarthest(d, i, j + 1, i, j);
    } else {
      assert ScanInvariant(d, i, j + 1, pi, pj);
      ScanFarthest(d, i, j + 1, pi, pj);
    }
  }

  /** The whole scan, started on the first pair, finds the farthest pair. */
  lemma ScanFindsFarthest(d: seq<seq<int>>)
    requires IsTable(d) && |d| >= 2
    ensures var r := Scan(d, 0, 1, 0, 1); FarthestIn(d, r.0, r.1)
  {
    ScanFarthest(d, 0, 1, 0, 1);
  }

  /** A scan that has run past the last row holds the farthest pair. */
  lemma ScanEnds(pts: seq<Point>, pi: nat, pj: nat)
    requires |pts| >= 2 && pi < |pts| && pj < |pts|
    requires Scan(DistTable(pts), |pts|, |pts| + 1, pi, pj) == Scan(DistTable(pts), 0, 1, 0, 1)
    ensures FarthestPair(pts, pi, pj)
  {
    ScanFindsFarthest(DistTable(pts));
  }

  /** The farthest pair is unique. */
  lemma FarthestUnique(d: seq<seq<int>>, bi: int, bj: int, ci: int, cj: int)
    requires FarthestIn(d, bi, bj) && FarthestIn(d, ci, cj)
    ensures bi == ci && bj == cj
  {
    assert d[ci][cj] == d[bi][bj];
  }

  class MapGraph {
    var nodes: seq<MapNode>
    var startNode: Option<MapNode>
    var endNode: Option<MapNode>

    /** `new MapGraph(nodes)`. */
    constructor (nodes: seq<MapNode>)
      ensures this.nodes == nodes && startNode == None && endNode == None
    {
      this.nodes := nodes;
      startNode, endNode := None, None;
    }

    /** The connection list of every room, in order. */
    function Conns(): (cs: seq<seq<MapNode>>)
      reads this`nodes, nodes`connections
      ensures |cs| == |nodes| && forall i {:trigger cs[i]} :: 0 <= i < |nodes| ==> cs[i] == nodes[i].connections
    {
      ConnsOf(nodes)
    }

    /** Ids are unique, every connection is a room of this graph, and every
        room has area at least one. */
    ghost predicate Valid()
      reads this`nodes, nodes`connections
    {
      && DistinctIds(nodes)
      && Inside(nodes, Conns())
    }

    /** Every room is at least one tile wide and high. */
    ghost predicate Shaped()
      reads this, nodes`x, nodes`y, nodes`x0, nodes`y0, nodes`x1, nodes`y1
    {
      forall i :: 0 <= i < |nodes| ==> Proper(nodes[i].Bounds())
    }

    /** The adjacency by index: `Links()[i]` holds `j` when room `j` is in room `i`'s list. */
    ghost function Links(): (g: seq<set<int>>)
      reads this`nodes, nodes`connections
    {
      LinksOf(nodes, Conns())
    }

    /** Every link is matched by its reverse: what `addConnection` and
        `removeConnection` keep. */
    ghost predicate Symmetric()
      reads this, nodes
    {
      forall i, j :: 0 <= i < |nodes| && j in Links()[i] ==> i in Links()[j]
    }

    /** The rooms reachable from room `a`. */
    ghost function ReachableFrom(a: int): (rs: set<MapNode>)
      requires 0 <= a < |nodes|
      reads this, nodes
      ensures rs <= Elems(nodes)
    {
      set j | 0 <= j < |nodes| && Reachable(Links(), a, j) :: nodes[j]
    }

    lemma ReachableFromHas(a: int, j: int)
      requires Valid() && 0 <= a < |nodes| && 0 <= j < |nodes|
      ensures nodes[j] in ReachableFrom(a) <==> Reachable(Links(), a, j)
    {
      if nodes[j] in ReachableFrom(a) {
        var m :| 0 <= m < |nodes| && Reachable(Links(), a, m) && nodes[m] == nodes[j];
        DistinctIdsDistinct(nodes);
      }
    }

    /** The reachable rooms are closed under connections and hold the start. */
    lemma ReachableFromIsClosed(a: int)
      requires Valid() && 0 <= a < |nodes|
      ensures nodes[a] in ReachableFrom(a) && ClosedSet(ReachableFrom(a))
    {
      ReachableRefl(Links(), a);
      forall v, c | v in ReachableFrom(a) && c in v.connections ensures c in ReachableFrom(a) {
        var j :| 0 <= j < |nodes| && Reachable(Links(), a, j) && nodes[j] == v;
        var k :| 0 <= k < |v.connections| && v.connections[k] == c;
        assert Conns()[j][k] == c;
        var m := IndexOf(nodes, c);
        assert m in Links()[j];
        ReachableStep(Links(), a, j, m);
      }
    }

    /** A set of rooms holding room `a` and closed under connections holds
        every room reachable from `a`. */
    lemma ReachableFromClosed(a: int, S: set<MapNode>)
      requires Valid() && 0 <= a < |nodes| && nodes[a] in S
      requires ClosedSet(S)
      ensures ReachableFrom(a) <= S
    {
      var L := Links();
      var SI := set j | 0 <= j < |nodes| && nodes[j] in S;
      assert Closed(L, SI) by {
        forall x, y | x in SI && Edge(L, x, y) ensures y in SI {
          assert nodes[y] in nodes[x].connections;
        }
      }
      forall v | v in ReachableFrom(a) ensures v in S {
        var j :| 0 <= j < |nodes| && Reachable(L, a, j) && nodes[j] == v;
        ClosedHoldsReachable(L, SI, a, j);
      }
    }

    /** Connected means room 0 reaches every room. */
    lemma ConnectedIff()
      requires Valid() && |nodes| > 0
      ensures Connected(Links()) <==> ReachableFrom(0) == Elems(nodes)
    {
      if Connected(Links()) {
        forall v | v in Elems(nodes) ensures v in ReachableFrom(0) {
          var j :| 0 <= j < |nodes| && nodes[j] == v;
          ReachableFromHas(0, j);
        }
      }
      if ReachableFrom(0) == Elems(nodes) {
        forall j | 0 <= j < |nodes| ensures Reachable(Links(), 0, j) {
          ReachableFromHas(0, j);
        }
      }
    }

    /** The search from room 0 reached every room exactly when it reached as
        many rooms as there are. */
    lemma CountReached(visited: set<MapNode>)
      requires Valid() && |nodes| > 0 && visited == ReachableFrom(0)
      ensures |visited| == |nodes| <==> Connected(Links())
    {
      ConnectedIff();
      DistinctIdsDistinct(nodes);
      DistinctCard(nodes);
      if |visited| == |nodes| {
        SubsetCard(visited, Elems(nodes));
      }
    }

    /** `addConnection(a, b)`: each room lists the other (a self-link is pushed twice). */
    method AddConnection(a: MapNode, b: MapNode)
      requires Valid() && a in nodes && b in nodes
      modifies a`connections, b`connections
      ensures a != b ==> a.connections == old(a.connections) + [b] && b.connections == old(b.connections) + [a]
      ensures a == b ==> a.connections == old(a.connections) + [b, a]
      ensures Valid() && Conns() == LinkLists(nodes, old(Conns()), IndexOf(nodes, a), IndexOf(nodes, b))
      ensures Links() == Link(old(Links()), IndexOf(nodes, a), IndexOf(nodes, b))
    {
      ghost var cs := Conns();
      ghost var ia, ib := IndexOf(nodes, a), IndexOf(nodes, b);
      a.connections := a.connections + [b];
      b.connections := b.connections + [a];
      DistinctIdsDistinct(nodes);
      assert Conns() == LinkLists(nodes, cs, ia, ib);
      LinkListsLinks(nodes, cs, ia, ib);
    }

    /** `removeConnection(a, b)`: each list drops the other's id and keeps
        every other entry in order. */
    method RemoveConnection(a: MapNode, b: MapNode)
      requires Valid() && a in nodes && b in nodes
      modifies a`connections, b`connections
      ensures a != b ==> a.connections == Filter(old(a.connections), NotId(b.id))
      ensures a != b ==> b.connections == Filter(old(b.connections), NotId(a.id))
      ensures a == b ==> a.connections == Filter(Filter(old(a.connections), NotId(b.id)), NotId(a.id))
      ensures b !in a.connections && a !in b.connections
      ensures Valid() && Conns() == UnlinkLists(nodes, old(Conns()), IndexOf(nodes, a), IndexOf(nodes, b))
      ensures Links() == Unlink(old(Links()), IndexOf(nodes, a), IndexOf(nodes, b))
    {
      ghost var cs := Conns();
      ghost var ia, ib := IndexOf(nodes, a), IndexOf(nodes, b);
      a.connections := Filter(a.connections, NotId(b.id));
      b.connections := Filter(b.connections, NotId(a.id));
      assert b !in a.connections && a !in b.connections by {
        FilterDrops(b.connections, a);
        if a == b {
          FilterDrops(cs[ia], b);
        } else {
          FilterDrops(a.connections, b);
        }
      }
      assert Conns() == UnlinkLists(nodes, cs, ia, ib) by {
        DistinctIdsDistinct(nodes);
        IndexOfDistinct(nodes, ia);
        IndexOfDistinct(nodes, ib);
      }
      UnlinkListsLinks(nodes, cs, ia, ib);
    }

    /** The depth-first search shared by `isTraversable` and
        `nodesAreConnected`: pop a room, skip it if visited, otherwise mark it
        and push its connections in order; stop when `stop` is popped. `R` is
        any closed set of rooms holding `start`, so every visited room lies in
        it; a search that does not stop leaves a closed visited set. */
    method DepthFirst(start: MapNode, stop: Option<MapNode>, ghost R: set<MapNode>)
      returns (visited: set<MapNode>, found: bool)
      requires start in R && ClosedSet(R) && R <= Elems(nodes)
      ensures visited <= R
      ensures found ==> stop.Some? && stop.value in visited
      ensures !found ==> start in visited && ClosedSet(visited) && (stop.Some? ==> stop.value !in visited)
    {
      visited := {};
      var stack := [start];
      while |stack| > 0
        invariant visited <= R && forall k :: 0 <= k < |stack| ==> stack[k] in R
        invariant stop.Some? ==> stop.value !in visited
        invariant forall v, c :: v in visited && c in v.connections ==> c in visited || c in stack
        invariant start in visited || start in stack
        decreases |Elems(nodes) - visited|, |stack|
      {
        ghost var st, vis := stack, visited;
        var node := stack[|stack| - 1];
        stack := stack[..|stack| - 1];
        assert st == stack + [node];
        if node in visited {
          continue;
        }
        SubsetCardMono(Elems(nodes) - (visited + {node}), Elems(nodes) - visited);
        assert node in Elems(nodes) - visited;
        visited := visited + {node};
        if stop == Some(node) {
          return visited, true;
        }
        ghost var s0 := stack;
        var i := 0;
        while i < |node.connections|
          invariant 0 <= i <= |node.connections|
          invariant stack == s0 + node.connections[..i]
          invariant forall k :: 0 <= k < |stack| ==> stack[k] in R
        {
          assert node.connections[i] in node.connections;
          stack := stack + [node.connections[i]];
          i := i + 1;
        }
        assert node.connections[..i] == node.connections;
        forall v, c | v in visited && c in v.connections ensures c in visited || c in stack {
          if v != node {
            assert c in vis || c in st;
          }
        }
      }
      found := false;
    }

    /** `isTraversable()`: a depth-first search from `nodes[0]`; true exactly
        when every room is reachable from the first (and for a graph without
        rooms). */
    method IsTraversable() returns (r: bool)
      requires Valid()
      ensures r <==> Connected(Links())
    {
      if |nodes| == 0 {
        return true;
      }
      ReachableFromIsClosed(0);
      var visited, _ := DepthFirst(nodes[0], None, ReachableFrom(0));
      r := |visited| == |nodes|;
      ReachableFromClosed(0, visited);
      CountReached(visited);
    }

    /** `nodesAreConnected(a, b)`: the same search from `a`, stopping at `b`. */
    method NodesAreConnected(a: MapNode, b: MapNode) returns (r: bool)
      requires Valid() && a in nodes
      ensures b in nodes ==> (r <==> Reachable(Links(), IndexOf(nodes, a), IndexOf(nodes, b)))
      ensures b !in nodes ==> !r
      ensures a == b ==> r
    {
      var ia := IndexOf(nodes, a);
      ReachableFromIsClosed(ia);
      var visited;
      visited, r := DepthFirst(a, Some(b), ReachableFrom(ia));
      if !r {
        ReachableFromClosed(ia, visited);
      }
      if b in nodes {
        ReachableFromHas(ia, IndexOf(nodes, b));
      }
    }

    /** `isTraversableWithoutConnection(a, b)`: unlink, search, relink. The
        answer is about the graph without the link; afterwards each room
        comes last in the other's list, once, and the two are linked both
        ways, which restores the adjacency exactly when they were linked
        both ways before. */
    method IsTraversableWithoutConnection(a: MapNode, b: MapNode) returns (r: bool)
      requires Valid() && a in nodes && b in nodes
      modifies a`connections, b`connections
      ensures Valid() && Conns() == RelinkLists(nodes, old(Conns()), IndexOf(nodes, a), IndexOf(nodes, b))
      ensures a != b ==> a.connections == Filter(old(a.connections), NotId(b.id)) + [b]
      ensures a != b ==> b.connections == Filter(old(b.connections), NotId(a.id)) + [a]
      ensures a == b ==> a.connections == Filter(Filter(old(a.connections), NotId(a.id)), NotId(a.id)) + [a, a]
      ensures r <==> Connected(Unlink(old(Links()), IndexOf(nodes, a), IndexOf(nodes, b)))
      ensures Links() == Link(Unlink(old(Links()), IndexOf(nodes, a), IndexOf(nodes, b)), IndexOf(nodes, a), IndexOf(nodes, b))
      ensures Edge(old(Links()), IndexOf(nodes, a), IndexOf(nodes, b)) && Edge(old(Links()), IndexOf(nodes, b), IndexOf(nodes, a))
              <==> Links() == old(Links())
    {
      ghost var L0, ia, ib := Links(), IndexOf(nodes, a), IndexOf(nodes, b);
      RemoveConnection(a, b);
      ghost var L1, cs1 := Links(), Conns();
      assert L1 == Unlink(L0, ia, ib);
      r := IsTraversable();
      assert Conns() == cs1;
      AddConnection(a, b);
      assert Links() == Link(L1, ia, ib);
      RelinkRestores(L0, ia, ib);
    }

    /** Rooms are found at their own position. */
    lemma IndexOfNode(i: int)
      requires Valid() && 0 <= i < |nodes|
      ensures IndexOf(nodes, nodes[i]) == i
    {
      DistinctIdsDistinct(nodes);
      IndexOfDistinct(nodes, i);
    }

    /** A listed room is linked by index. */
    lemma ListedIsLinked(i: int, c: MapNode)
      requires Valid() && 0 <= i < |nodes| && c in nodes[i].connections
      ensures c in nodes && IndexOf(nodes, c) in Links()[i]
    {
      var k :| 0 <= k < |nodes[i].connections| && nodes[i].connections[k] == c;
      assert Conns()[i][k] == c;
    }

    /** `getEdges()`: one edge per list entry, room by room. */
    method GetEdges() returns (edges: seq<GraphEdge>)
      ensures edges == EdgesOf(nodes)
      ensures |edges| == ConnCount(nodes)
      ensures forall k :: 0 <= k < |edges| ==> edges[k].node1 in nodes && edges[k].node2 in edges[k].node1.connections
    {
      edges := [];
      var i := 0;
      while i < |nodes|
        invariant 0 <= i <= |nodes|
        invariant edges == EdgesOf(nodes[..i])
      {
        var node := nodes[i];
        var j := 0;
        while j < |node.connections|
          invariant 0 <= j <= |node.connections|
          invariant edges == EdgesOf(nodes[..i]) + EdgesFrom(node)[..j]
        {
          edges := edges + [GraphEdge(node, node.connections[j])];
          j := j + 1;
        }
        assert nodes[..i + 1][..i] == nodes[..i];
        i := i + 1;
      }
      assert nodes[..|nodes|] == nodes;
      EdgesOfFacts(nodes);
      forall k | 0 <= k < |edges| ensures edges[k].node1 in nodes && edges[k].node2 in edges[k].node1.connections {
        assert GraphEdge(edges[k].node1, edges[k].node2) == edges[k];
      }
    }

    /** `removeNode(n)`: splice `n` out of the room list, then drop every
        remaining room from `n`'s list and `n` from every remaining list. */
    method RemoveNode(n: MapNode)
      requires Valid() && n in nodes
      modifies this`nodes, nodes`connections
      ensures var k := IndexOf(old(nodes), n); nodes == old(nodes)[..k] + old(nodes)[k + 1..]
      ensures forall m :: m in nodes ==> m.connections == Filter(old(m.connections), NotId(n.id))
      ensures forall m :: m in nodes ==> n !in m.connections
      ensures forall x :: x in n.connections ==> x == n
      ensures Valid()
    {
      ghost var on, oc := nodes, Conns();
      var k := IndexOf(nodes, n);
      SplicePairs(on, oc, k);
      nodes := nodes[..k] + nodes[k + 1..];
      DetachAll(n, on, oc, k);
    }

    /** The loop of `removeNode(n)` once `n` is spliced out of `on`: drop `n`
        from every remaining list and every remaining room from `n`'s list. */
    method DetachAll(n: MapNode, ghost on: seq<MapNode>, ghost oc: seq<seq<MapNode>>, ghost k: int)
      requires |oc| == |on| && 0 <= k < |on| && on[k] == n && DistinctIds(on) && Inside(on, oc)
      requires nodes == on[..k] + on[k + 1..] && n.connections == oc[k]
      requires forall j :: 0 <= j < |nodes| ==> nodes[j].connections == (oc[..k] + oc[k + 1..])[j]
      modifies nodes`connections, n`connections
      ensures forall m :: m in nodes ==> m.connections == Filter(old(m.connections), NotId(n.id))
      ensures forall m :: m in nodes ==> n !in m.connections
      ensures forall x :: x in n.connections ==> x == n
      ensures Valid()
    {
      SpliceFacts(on, k);
      DetachFrom(n, nodes, oc[..k] + oc[k + 1..]);
      assert forall m :: m in nodes ==> n !in m.connections by {
        forall m | m in nodes ensures n !in m.connections {
          FilterDrops(old(m.connections), n);
        }
      }
      forall x | x in n.connections ensures x == n {
        var c :| 0 <= c < |oc[k]| && oc[k][c] == x;
      }
      RemovedValid(on, oc, k, n);
    }

    /** What `removeNode` leaves is a valid graph again. */
    lemma RemovedValid(on: seq<MapNode>, oc: seq<seq<MapNode>>, k: int, n: MapNode)
      requires |oc| == |on| && 0 <= k < |on| && on[k] == n && DistinctIds(on) && Inside(on, oc)
      requires nodes == on[..k] + on[k + 1..]
      requires forall j :: 0 <= j < |nodes| ==> nodes[j].connections == Filter((oc[..k] + oc[k + 1..])[j], NotId(n.id))
      ensures Valid()
    {
      SpliceFacts(on, k);
      SplicePairs(on, oc, k);
      forall j, c | 0 <= j < |nodes| && 0 <= c < |nodes[j].connections| ensures nodes[j].connections[c] in nodes {
        var x := nodes[j].connections[c];
        FilterHas(oc[Skip(j, k)], NotId(n.id), x);
        var c' :| 0 <= c' < |oc[Skip(j, k)]| && oc[Skip(j, k)][c'] == x;
      }
    }

    /** `removeRandomConnection()`: draw an edge with one draw; drop it only
        when the graph stays traversable without it (see `GuardedRemoval`). */
    method RemoveRandomConnection(rng: RandomSource)
      requires Valid() && rng.Valid()
      modifies nodes`connections, rng`used
      ensures Valid() && rng.used == old(rng.used) + 1
      ensures var es := old(EdgesOf(nodes));
        var k := DrawIndex(rng.draws(old(rng.used)), |es|);
        if k < |es| then
          Links() == GuardedUnlink(old(Links()), IndexOf(nodes, es[k].node1), IndexOf(nodes, es[k].node2))
          && Edge(old(Links()), IndexOf(nodes, es[k].node1), IndexOf(nodes, es[k].node2))
          && es[k].node1 in nodes && es[k].node2 in nodes
          && Conns() == GuardedUnlinkLists(nodes, old(Conns()), IndexOf(nodes, es[k].node1), IndexOf(nodes, es[k].node2))
        else Links() == old(Links()) && Conns() == old(Conns())
    {
      ghost var cs := Conns();
      var edges := GetEdges();
      var u := rng.Next();
      assert Conns() == cs;
      var idx := DrawIndex(u, |edges|);
      if idx < |edges| {
        var a, b := edges[idx].node1, edges[idx].node2;
        ghost var ia, ib := IndexOf(nodes, a), IndexOf(nodes, b);
        ListedIsLinked(ia, b);
        RemoveIfTraversable(a, b);
      }
    }

    /** The tail of `removeRandomConnection()`: the link between `a` and `b`
        is dropped only when the graph stays connected without it. */
    method RemoveIfTraversable(a: MapNode, b: MapNode)
      requires Valid() && a in nodes && b in nodes
      modifies nodes`connections
      ensures Valid() && Conns() == GuardedUnlinkLists(nodes, old(Conns()), IndexOf(nodes, a), IndexOf(nodes, b))
      ensures Links() == GuardedUnlink(old(Links()), IndexOf(nodes, a), IndexOf(nodes, b))
    {
      ghost var L0, cs, ia, ib := Links(), Conns(), IndexOf(nodes, a), IndexOf(nodes, b);
      var ok := IsTraversableWithoutConnection(a, b);
      ghost var L1 := Links();
      if ok {
        RemoveConnection(a, b);
        assert Links() == Unlink(L1, ia, ib);
        UnlinkRelinked(L0, ia, ib);
      }
    }

    /** `addRandomConnection()`: draw two rooms with two draws; link them only
        when the first does not reach the second (see `GuardedLinkFacts`). */
    method AddRandomConnection(rng: RandomSource)
      requires Valid() && rng.Valid()
      modifies nodes`connections, rng`used
      ensures Valid() && rng.used == old(rng.used) + 2
      ensures |nodes| == 0 ==> Links() == old(Links()) && Conns() == old(Conns())
      ensures |nodes| > 0 ==>
        Links() == GuardedLink(old(Links()), DrawIndex(rng.draws(old(rng.used)), |nodes|),
                               DrawIndex(rng.draws(old(rng.used) + 1), |nodes|))
      ensures |nodes| > 0 ==>
        Conns() == GuardedLinkLists(nodes, old(Conns()), DrawIndex(rng.draws(old(rng.used)), |nodes|),
                                    DrawIndex(rng.draws(old(rng.used) + 1), |nodes|))
    {
      ghost var L0, cs := Links(), Conns();
      var u1 := rng.Next();
      var u2 := rng.Next();
      assert Conns() == cs;
      var i1, i2 := DrawIndex(u1, |nodes|), DrawIndex(u2, |nodes|);
      if |nodes| == 0 {
        return;
      }
      var connected := NodesAreConnected(nodes[i1], nodes[i2]);
      IndexOfNode(i1);
      IndexOfNode(i2);
      if connected {
        return;
      }
      AddConnection(nodes[i1], nodes[i2]);
    }

    /** `getNodeById(id)`: the first room carrying `id`. */
    function GetNodeById(id: Id): (r: Option<MapNode>)
      reads this
      ensures r.Some? ==> r.value in nodes && r.value.id == id
      ensures r.None? <==> forall k :: 0 <= k < |nodes| ==> nodes[k].id != id
    {
      FindById(nodes, id)
    }

    /** A candidate of `getClosestNode(node)`: the first room, which starts the
        scan whatever it is, or any later room other than `node` itself. */
    ghost predicate ClosestCandidate(node: MapNode, k: int)
      reads this
    {
      0 <= k < |nodes| && (k == 0 || nodes[k] != node)
    }

    /** Room `k` is a candidate nearest to `node`, and the first such: the
        scan replaces its choice only on a strictly smaller distance. */
    ghost predicate ClosestAt(node: MapNode, k: int)
      reads this, nodes, node
    {
      && ClosestCandidate(node, k)
      && (forall j :: ClosestCandidate(node, j) ==> DistanceSq(nodes[k], node) <= DistanceSq(nodes[j], node))
      && (forall j :: ClosestCandidate(node, j) && j < k ==> DistanceSq(nodes[k], node) < DistanceSq(nodes[j], node))
    }

    /** `getClosestNode(node)`: null without rooms, otherwise the nearest
        candidate, earliest on ties. */
    method GetClosestNode(node: MapNode) returns (r: Option<MapNode>, ghost k: int)
      ensures r.None? <==> |nodes| == 0
      ensures r.Some? ==> 0 <= k < |nodes| && r.value == nodes[k] && ClosestAt(node, k)
    {
      if |nodes| == 0 {
        return None, -1;
      }
      var closest := nodes[0];
      var closestDistance := DistanceSq(closest, node);
      k := 0;
      var i := 1;
      while i < |nodes|
        invariant 1 <= i <= |nodes| && 0 <= k < i && closest == nodes[k] && ClosestCandidate(node, k)
        invariant closestDistance == DistanceSq(closest, node)
        invariant forall j :: 0 <= j < i && ClosestCandidate(node, j) ==> closestDistance <= DistanceSq(nodes[j], node)
        invariant forall j :: 0 <= j < k && ClosestCandidate(node, j) ==> closestDistance < DistanceSq(nodes[j], node)
      {
        var other := nodes[i];
        var distance := DistanceSq(other, node);
        if node != other && distance < closestDistance {
          closest, closestDistance, k := other, distance, i;
        }
        i := i + 1;
      }
      r := Some(closest);
    }

    /** The nearest candidate is unique, so `ClosestAt` pins the answer down. */
    lemma ClosestAtUnique(node: MapNode, k: int, k': int)
      requires ClosestAt(node, k) && ClosestAt(node, k')
      ensures k == k'
    {
    }

    /** The first room is its own nearest candidate (distance 0), so the
        scan answers `nodes[0]` for `nodes[0]`; any later room is never its
        own answer. */
    lemma ClosestOfFirst()
      requires |nodes| > 0
      ensures ClosestAt(nodes[0], 0)
    {
    }

    lemma ClosestIsOther(j: int, k: int)
      requires Valid() && 0 < j < |nodes| && ClosestAt(nodes[j], k)
      ensures nodes[k] != nodes[j]
    {
      DistinctIdsDistinct(nodes);
    }

    /** `anyNodeOverlaps(node, buffer)`: some other room's buffered area
        meets `node`. */
    method AnyNodeOverlaps(node: MapNode, buffer: nat) returns (r: bool)
      requires Shaped()
      ensures r <==> exists i :: 0 <= i < |nodes| && nodes[i] != node && Overlaps(nodes[i].Bounds(), node.Bounds(), buffer)
    {
      var i := 0;
      while i < |nodes|
        invariant 0 <= i <= |nodes|
        invariant forall j :: 0 <= j < i && nodes[j] != node ==> !Overlaps(nodes[j].Bounds(), node.Bounds(), buffer)
      {
        var other := nodes[i];
        if other != node && Overlaps(other.Bounds(), node.Bounds(), buffer) {
          return true;
        }
        i := i + 1;
      }
      return false;
    }

    /** A larger buffer can only add overlaps. */
    lemma AnyOverlapGrows(node: MapNode, buffer: nat, i: int)
      requires Shaped() && 0 <= i < |nodes| && Overlaps(nodes[i].Bounds(), node.Bounds(), buffer)
      ensures Overlaps(nodes[i].Bounds(), node.Bounds(), buffer + 1)
    {
      OverlapsGrowsWithBuffer(nodes[i].Bounds(), node.Bounds(), buffer);
    }

    /** `getTotalArea()`: the sum of the rooms' area sizes. */
    method GetTotalArea() returns (total: int)
      ensures total == TotalArea(nodes)
      ensures Shaped() ==> total >= |nodes|
    {
      total := 0;
      var i := 0;
      while i < |nodes|
        invariant 0 <= i <= |nodes| && total == TotalArea(nodes[..i])
      {
        assert nodes[..i + 1][..i] == nodes[..i];
        total := total + AreaSize(nodes[i].Bounds());
        i := i + 1;
      }
      assert nodes[..i] == nodes;
      ShapedArea();
    }

    /** Rooms of area at least one give a total of at least one per room. */
    lemma ShapedArea()
      ensures Shaped() ==> TotalArea(nodes) >= |nodes|
    {
      if Shaped() {
        TotalAreaAtLeast(nodes);
      }
    }

    /** The inner loop of `findMostDistancedNodes()`: compares room `i` with
        every later room, keeping the pair `(pi, pj)` unless a pair is strictly
        farther apart; it carries out the scan of row `i`. */
    method ScanRow(i: int, pi0: int, pj0: int, best0: int, ghost pts: seq<Point>, ghost d: seq<seq<int>>)
      returns (pi: int, pj: int, best: int)
      requires 0 <= i < |nodes| && 0 <= pi0 < |nodes| && 0 <= pj0 < |nodes|
      requires |pts| == |nodes| && forall q :: 0 <= q < |nodes| ==> pts[q] == Point(nodes[q].x, nodes[q].y)
      requires d == DistTable(pts) && best0 == d[pi0][pj0]
      ensures 0 <= pi < |nodes| && 0 <= pj < |nodes| && best == d[pi][pj]
      ensures Scan(d, i, i + 1, pi0, pj0) == Scan(d, i + 1, i + 2, pi, pj)
    {
      var other := nodes[i];
      pi, pj, best := pi0, pj0, best0;
      var j := i + 1;
      while j < |nodes|
        invariant i + 1 <= j <= |nodes| && 0 <= pi < |nodes| && 0 <= pj < |nodes| && best == d[pi][pj]
        invariant Scan(d, i, i + 1, pi0, pj0) == Scan(d, i, j, pi, pj)
      {
        var distance := DistanceSq(other, nodes[j]);
        DistAt(pts, i, j);
        if distance > best {
          pi, pj, best := i, j, distance;
        }
        j := j + 1;
      }
    }

    /** The end of `findMostDistancedNodes()`: with every flag cleared,
        rooms `pi` and `pj` get `start` and `end` and become the start and
        end room of the graph; no room moves. */
    method MarkEnds(pi: int, pj: int)
      requires 0 <= pi < |nodes| && 0 <= pj < |nodes| && Distinct(nodes)
      requires forall p :: 0 <= p < |nodes| ==> !nodes[p].start && !nodes[p].end
      modifies this`startNode, this`endNode, nodes`start, nodes`end
      ensures PositionsOf(nodes) == old(PositionsOf(nodes))
      ensures startNode == Some(nodes[pi]) && endNode == Some(nodes[pj])
      ensures forall p :: 0 <= p < |nodes| ==> (nodes[p].start <==> p == pi) && (nodes[p].end <==> p == pj)
    {
      nodes[pi].start := true;
      nodes[pj].end := true;
      startNode := Some(nodes[pi]);
      endNode := Some(nodes[pj]);
    }

    /** `findMostDistancedNodes()`: with fewer than two rooms it throws
        (`None`, nothing changed); otherwise every flag is cleared, the
        farthest pair gets `start` and `end`, and it becomes the start and end
        room of the graph. */
    method FindMostDistancedNodes() returns (r: Option<(MapNode, MapNode)>, ghost bi: int, ghost bj: int)
      requires Valid()
      modifies this`startNode, this`endNode, nodes`start, nodes`end
      ensures |nodes| < 2 ==> r.None? && unchanged(this) && forall m :: m in nodes ==> unchanged(m)
      ensures |nodes| >= 2 ==>
        && FarthestPair(PositionsOf(nodes), bi, bj) && r == Some((nodes[bi], nodes[bj]))
        && startNode == Some(nodes[bi]) && endNode == Some(nodes[bj])
        && (forall i :: 0 <= i < |nodes| ==> (nodes[i].start <==> i == bi) && (nodes[i].end <==> i == bj))
    {
      if |nodes| < 2 {
        return None, 0, 0;
      }
      DistinctIdsDistinct(nodes);
      var pi, pj := ClearAndScan();
      ghost var pts := PositionsOf(nodes);
      MarkEnds(pi, pj);
      assert PositionsOf(nodes) == pts;
      r := Some((nodes[pi], nodes[pj]));
      bi, bj := pi, pj;
    }

    /** The two loops of `findMostDistancedNodes()` on at least two rooms:
        every flag is cleared and the farthest pair is found. */
    method ClearAndScan() returns (pi: int, pj: int)
      requires |nodes| >= 2 && Distinct(nodes)
      modifies nodes`start, nodes`end
      ensures FarthestPair(PositionsOf(nodes), pi, pj)
      ensures forall i :: 0 <= i < |nodes| ==> !nodes[i].start && !nodes[i].end
    {
      ghost var pts := PositionsOf(nodes);
      ghost var d := DistTable(pts);
      ghost var goal := Scan(d, 0, 1, 0, 1);
      pi, pj := 0, 1;
      var best := DistanceSq(nodes[0], nodes[1]);
      DistAt(pts, 0, 1);
      var i := 0;
      while i < |nodes|
        invariant 0 <= i <= |nodes| && 0 <= pi < |nodes| && 0 <= pj < |nodes| && best == d[pi][pj]
        invariant forall q :: 0 <= q < |nodes| ==> pts[q] == Point(nodes[q].x, nodes[q].y)
        invariant Scan(d, i, i + 1, pi, pj) == goal
        invariant forall p :: 0 <= p < i ==> !nodes[p].start && !nodes[p].end
      {
        var other := nodes[i];
        other.start := false;
        other.end := false;
        pi, pj, best := ScanRow(i, pi, pj, best, pts, d);
        i := i + 1;
      }
      assert PositionsOf(nodes) == pts;
      ScanEnds(pts, pi, pj);
    }

    /** `getPath(start, end)` on this graph (see `NodePath`). */
    function GetPath(start: MapNode, end: MapNode): (p: seq<MapNode>)
      requires Valid() && start in nodes
      reads this, nodes
      ensures p != [] ==> |p| >= 2 && p[0] == start && p[|p| - 1] == end
      ensures forall k :: 0 <= k < |p| ==> p[k] in nodes
      ensures forall k :: 0 <= k < |p| - 1 ==> p[k + 1] in p[k].connections
      ensures Distinct(p)
      ensures start == end || end !in nodes ==> p == []
      ensures end in nodes && start != end && Reachable(Links(), IndexOf(nodes, start), IndexOf(nodes, end)) ==> p != []
    {
      DistinctIdsDistinct(nodes);
      var cs := Conns();
      var p := NodePath(nodes, cs, start, end);
      ConnsOfListed(nodes, cs, p);
      p
    }

    /** Both ends of every edge `getEdges()` lists are rooms of this graph. */
    lemma EdgeEndsAmongNodes()
      requires Valid()
      ensures forall i :: 0 <= i < |EdgesOf(nodes)| ==> EdgesOf(nodes)[i].node1 in nodes && EdgesOf(nodes)[i].node2 in nodes
    {
      var es := EdgesOf(nodes);
      forall i | 0 <= i < |es| ensures es[i].node1 in nodes && es[i].node2 in nodes {
        EdgeListed(nodes, i);
        ListedIsLinked(IndexOf(nodes, es[i].node1), es[i].node2);
      }
    }

    /** Both ends of every listed edge are rooms of this graph. */
    lemma EdgesAmongNodes(es: seq<GraphEdge>)
      requires Valid()
      requires forall k :: 0 <= k < |es| ==> es[k].node1 in nodes && es[k].node2 in es[k].node1.connections
      ensures forall k :: 0 <= k < |es| ==> es[k].node2 in nodes
    {
      forall k | 0 <= k < |es| ensures es[k].node2 in nodes {
        ListedIsLinked(IndexOf(nodes, es[k].node1), es[k].node2);
      }
    }

    /** `getCrossedConnections()`: every edge of `getEdges()`, once for each
        pair of equal tiles of its rooms' areas (see `CrossedListHas`). */
    method GetCrossedConnections() returns (crossed: seq<GraphEdge>)
      requires Valid() && Shaped()
      ensures var es := EdgesOf(nodes); ProperPairs(EdgeRects(es)) && crossed == CrossedList(es, EdgeRects(es))
    {
      var connections := GetEdges();
      EdgesAmongNodes(connections);
      EdgeRectsProper(nodes, connections);
      var rs := EdgeRects(connections);
      crossed := CrossedOf(connections, rs);
      assert EdgeRects(connections) == rs;
      assert EdgesOf(nodes) == connections;
    }

  }
}
