/** `MapGraph.toJSON` / `MapGraph.fromJSON`: the persisted form of a room
    graph is the list of its rooms' JSON records; reading it back keys the
    rooms by id (a later record with the same id replaces an earlier one, in
    the earlier one's place) and resolves each connection id to the room
    carrying it, skipping empty and unknown ids. */
module GraphJson {
  import opened Common
  import opened Node
  import opened Graph

  /** The `{ nodes: [...] }` record of a graph. */
  datatype GraphData = GraphData(nodes: seq<NodeJson>)

  /** The records of rooms `ns`, in order. */
  function NodesJson(ns: seq<MapNode>): (js: seq<NodeJson>)
    reads ns
    ensures |js| == |ns| && forall i {:trigger js[i]} :: 0 <= i < |ns| ==> js[i] == ns[i].ToJson()
  {
    if ns == [] then [] else NodesJson(ns[..|ns| - 1]) + [ns[|ns| - 1].ToJson()]
  }

  /** The ids of a list of records. */
  function JsonIds(data: seq<NodeJson>): (ids: seq<Id>)
    ensures |ids| == |data| && forall i :: 0 <= i < |data| ==> ids[i] == data[i].id
  {
    seq(|data|, i requires 0 <= i < |data| => data[i].id)
  }

  /** The keys of the id-keyed record after storing `data` in order: each id
      once, where it first occurs. */
  function FirstIds(data: seq<NodeJson>): (keys: seq<Id>)
    ensures Distinct(keys)
    ensures forall x :: x in keys <==> x in JsonIds(data)
  {
    if data == [] then []
    else
      var n := |data| - 1;
      var keys := FirstIds(data[..n]);
      assert JsonIds(data) == JsonIds(data[..n]) + [data[n].id];
      if data[n].id in keys then keys else keys + [data[n].id]
  }

  /** The record stored under `id` after storing `data` in order: the last one carrying it. */
  function LastWith(data: seq<NodeJson>, id: Id): (d: NodeJson)
    requires id in JsonIds(data)
    ensures d.id == id
    ensures exists i :: 0 <= i < |data| && data[i] == d && forall j :: i < j < |data| ==> data[j].id != id
  {
    var n := |data| - 1;
    assert JsonIds(data) == JsonIds(data[..n]) + [data[n].id];
    if data[n].id == id then data[n]
    else
      var d := LastWith(data[..n], id);
      assert forall i :: 0 <= i < n ==> data[..n][i] == data[i];
      d
  }

  /** The connection ids that `fromJSON` resolves: non-empty and among `keys`, in order. */
  function Known(cs: seq<Id>, keys: seq<Id>): (r: seq<Id>)
  {
    if cs == [] then []
    else
      var n := |cs| - 1;
      Known(cs[..n], keys) + (if cs[n] != "" && cs[n] in keys then [cs[n]] else [])
  }

  /** The rooms those ids resolve to, where room `objs[k]` is stored under `keys[k]`. */
  function Resolve(cs: seq<Id>, keys: seq<Id>, objs: seq<MapNode>): (r: seq<MapNode>)
    requires |objs| == |keys|
    ensures forall k :: 0 <= k < |r| ==> r[k] in objs
  {
    if cs == [] then []
    else
      var n := |cs| - 1;
      Resolve(cs[..n], keys, objs) + (if cs[n] != "" && cs[n] in keys then [objs[IndexOf(keys, cs[n])]] else [])
  }

  /** The rooms resolved from `cs` carry exactly the known ids of `cs`. */
  lemma {:induction false} ResolveIds(cs: seq<Id>, keys: seq<Id>, objs: seq<MapNode>)
    requires |objs| == |keys| && forall k :: 0 <= k < |keys| ==> objs[k].id == keys[k]
    ensures Ids(Resolve(cs, keys, objs)) == Known(cs, keys)
  {
    if cs != [] {
      var n := |cs| - 1;
      ResolveIds(cs[..n], keys, objs);
      var r0 := Resolve(cs[..n], keys, objs);
      var tail := if cs[n] != "" && cs[n] in keys then [objs[IndexOf(keys, cs[n])]] else [];
      assert Ids(r0 + tail) == Ids(r0) + Ids(tail);
    }
  }

  /** A list of known ids resolves to itself. */
  lemma {:induction false} KnownAll(cs: seq<Id>, keys: seq<Id>)
    requires forall k :: 0 <= k < |cs| ==> cs[k] != "" && cs[k] in keys
    ensures Known(cs, keys) == cs
  {
    if cs != [] {
      var n := |cs| - 1;
      KnownAll(cs[..n], keys);
      assert cs[..n] + [cs[n]] == cs;
    }
  }

  /** Records that read back unchanged: distinct non-empty ids, and every
      connection id is the id of one of the records. */
  predicate Clean(data: seq<NodeJson>)
  {
    && Distinct(JsonIds(data))
    && (forall i :: 0 <= i < |data| ==> data[i].id != "")
    && (forall i, k :: 0 <= i < |data| && 0 <= k < |data[i].connections| ==>
          data[i].connections[k] != "" && data[i].connections[k] in JsonIds(data))
  }

  /** With distinct ids the keys are the ids in order and every id keys its own record. */
  lemma {:induction false} FirstIdsDistinct(data: seq<NodeJson>)
    requires Distinct(JsonIds(data))
    ensures FirstIds(data) == JsonIds(data)
    ensures forall i :: 0 <= i < |data| ==> LastWith(data, data[i].id) == data[i]
  {
    if data != [] {
      var n := |data| - 1;
      assert JsonIds(data) == JsonIds(data[..n]) + [data[n].id];
      assert JsonIds(data[..n]) == JsonIds(data)[..n];
      FirstIdsDistinct(data[..n]);
      forall i | 0 <= i < |data| ensures LastWith(data, data[i].id) == data[i] {
        var d := LastWith(data, data[i].id);
        var m :| 0 <= m < |data| && data[m] == d && forall j :: m < j < |data| ==> data[j].id != data[i].id;
      }
    }
  }

  /** Clean records are read back as themselves, connections included. */
  lemma CleanReadsBack(data: seq<NodeJson>)
    requires Clean(data)
    ensures FirstIds(data) == JsonIds(data)
    ensures forall i :: 0 <= i < |data| ==>
      var d := LastWith(data, data[i].id); d == data[i] && Known(d.connections, FirstIds(data)) == d.connections
  {
    FirstIdsDistinct(data);
    forall i | 0 <= i < |data| ensures Known(data[i].connections, JsonIds(data)) == data[i].connections {
      KnownAll(data[i].connections, JsonIds(data));
    }
  }

  /** The records written for a graph whose ids are distinct and non-empty
      and whose connections are its own rooms are clean. */
  lemma {:induction false} WrittenIsClean(ns: seq<MapNode>)
    requires DistinctIds(ns) && Inside(ns, ConnsOf(ns)) && forall i :: 0 <= i < |ns| ==> ns[i].id != ""
    ensures Clean(NodesJson(ns))
  {
    var data := NodesJson(ns);
    WrittenIds(ns);
    assert Distinct(JsonIds(data));
    assert forall i :: 0 <= i < |data| ==> data[i].id != "";
    WrittenConnections(ns);
  }

  /** The ids written are the rooms' ids. */
  lemma WrittenIds(ns: seq<MapNode>)
    ensures JsonIds(NodesJson(ns)) == Ids(ns)
  {
  }

  /** Every connection id written is the non-empty id of a room. */
  lemma WrittenConnections(ns: seq<MapNode>)
    requires Inside(ns, ConnsOf(ns)) && forall i :: 0 <= i < |ns| ==> ns[i].id != ""
    ensures var data := NodesJson(ns); forall i, k :: 0 <= i < |data| && 0 <= k < |data[i].connections| ==>
      data[i].connections[k] != "" && data[i].connections[k] in Ids(ns)
  {
    var data := NodesJson(ns);
    forall i, k | 0 <= i < |data| && 0 <= k < |data[i].connections|
      ensures data[i].connections[k] != "" && data[i].connections[k] in Ids(ns)
    {
      WrittenConnection(ns, i, k);
    }
  }

  /** The `k`-th connection id written for room `i` is the id of a room. */
  lemma WrittenConnection(ns: seq<MapNode>, i: int, k: int)
    requires Inside(ns, ConnsOf(ns)) && forall i :: 0 <= i < |ns| ==> ns[i].id != ""
    requires 0 <= i < |ns| && 0 <= k < |ns[i].connections|
    ensures NodesJson(ns)[i].connections[k] == ns[i].connections[k].id
    ensures ns[i].connections[k].id != "" && ns[i].connections[k].id in Ids(ns)
  {
    var c := ns[i].connections[k];
    assert ConnsOf(ns)[i][k] == c;
    var j := IndexOf(ns, c);
    assert Ids(ns)[j] == c.id;
  }

  /** `MapGraph.toJSON(map)`: one record per room, in order. */
  method ToJson(g: MapGraph) returns (json: GraphData)
    ensures json.nodes == NodesJson(g.nodes)
  {
    var nodes := g.nodes;
    var out: seq<NodeJson> := [];
    var i := 0;
    while i < |nodes|
      invariant 0 <= i <= |nodes| && out == NodesJson(nodes[..i])
    {
      out := out + [nodes[i].ToJson()];
      assert nodes[..i + 1][..i] == nodes[..i];
      i := i + 1;
    }
    assert nodes[..i] == nodes;
    json := GraphData(out);
  }

  /** The records stored under the keys `FirstIds(data)` after storing
      `data` in order, key by key. */
  function Stored(data: seq<NodeJson>): (recs: seq<NodeJson>)
    ensures |recs| == |FirstIds(data)|
  {
    if data == [] then []
    else
      var n := |data| - 1;
      var recs := Stored(data[..n]);
      var keys := FirstIds(data[..n]);
      if data[n].id in keys then recs[IndexOf(keys, data[n].id) := data[n]] else recs + [data[n]]
  }

  /** The record stored under each key is the last record carrying it. */
  lemma {:induction false} StoredIsLast(data: seq<NodeJson>)
    ensures forall k :: 0 <= k < |FirstIds(data)| ==> Stored(data)[k] == LastWith(data, FirstIds(data)[k])
  {
    if data != [] {
      var n := |data| - 1;
      StoredIsLast(data[..n]);
      var keys, keys1 := FirstIds(data[..n]), FirstIds(data);
      assert JsonIds(data) == JsonIds(data[..n]) + [data[n].id];
      forall k | 0 <= k < |keys1| ensures Stored(data)[k] == LastWith(data, keys1[k]) {
        if keys1[k] != data[n].id {
          assert k < |keys| && keys1[k] == keys[k];
          assert LastWith(data, keys1[k]) == LastWith(data[..n], keys[k]);
        }
      }
    }
  }

  /** Storing one more record: its id is appended to the keys when new,
      and its record replaces the one stored under its id. */
  lemma StoreStep(data: seq<NodeJson>, i: int)
    requires 0 <= i < |data|
    ensures var keys := FirstIds(data[..i]); var at := IndexOf(keys, data[i].id);
      && FirstIds(data[..i + 1]) == (if at >= 0 then keys else keys + [data[i].id])
      && Stored(data[..i + 1]) == (if at >= 0 then Stored(data[..i])[at := data[i]] else Stored(data[..i]) + [data[i]])
  {
    assert data[..i + 1][..i] == data[..i];
  }

  /** Room `objs[k]` was read from record `recs[k]` and `lists[k]` holds
      that record's connection ids. */
  ghost predicate Mirrors(objs: seq<MapNode>, lists: seq<seq<Id>>, recs: seq<NodeJson>)
    reads objs
  {
    && |objs| == |recs| && |lists| == |recs|
    && forall k :: 0 <= k < |recs| ==>
      && objs[k].ToJson() == recs[k].(connections := [])
      && objs[k].entrances == DefaultEntrances
      && lists[k] == recs[k].connections
  }

  /** One step of the first loop of `fromJSON`: read record `d` into a fresh
      room and store it under its id. */
  method Store(keys0: seq<Id>, objs0: seq<MapNode>, lists0: seq<seq<Id>>, ghost recs0: seq<NodeJson>, d: NodeJson)
    returns (keys: seq<Id>, objs: seq<MapNode>, lists: seq<seq<Id>>, ghost recs: seq<NodeJson>)
    requires |keys0| == |recs0| && Mirrors(objs0, lists0, recs0)
    ensures var at := IndexOf(keys0, d.id);
      && keys == (if at >= 0 then keys0 else keys0 + [d.id])
      && recs == (if at >= 0 then recs0[at := d] else recs0 + [d])
    ensures Mirrors(objs, lists, recs)
    ensures forall k :: 0 <= k < |objs| ==> objs[k] in objs0 || fresh(objs[k])
  {
    var node := new MapNode.FromJson(d);
    var at := IndexOf(keys0, d.id);
    if at >= 0 {
      keys, objs, lists, recs := keys0, objs0[at := node], lists0[at := d.connections], recs0[at := d];
    } else {
      keys, objs, lists, recs := keys0 + [d.id], objs0 + [node], lists0 + [d.connections], recs0 + [d];
    }
  }

  /** The first loop of `fromJSON`: a fresh room per record, stored under its
      id; `keys` lists the ids in insertion order and `lists` the connection
      ids of the record stored last under each. */
  method Collect(data: seq<NodeJson>) returns (keys: seq<Id>, objs: seq<MapNode>, lists: seq<seq<Id>>)
    ensures keys == FirstIds(data) && |objs| == |keys| && |lists| == |keys|
    ensures forall k :: 0 <= k < |keys| ==> fresh(objs[k])
    ensures forall k :: 0 <= k < |keys| ==>
      && objs[k].id == keys[k] && objs[k].connections == []
      && objs[k].ToJson() == LastWith(data, keys[k]).(connections := [])
      && objs[k].entrances == DefaultEntrances
      && lists[k] == LastWith(data, keys[k]).connections
  {
    keys, objs, lists := [], [], [];
    ghost var recs: seq<NodeJson> := [];
    var i := 0;
    while i < |data|
      invariant 0 <= i <= |data|
      invariant keys == FirstIds(data[..i]) && recs == Stored(data[..i])
      invariant Mirrors(objs, lists, recs)
      invariant forall k :: 0 <= k < |objs| ==> fresh(objs[k])
    {
      StoreStep(data, i);
      keys, objs, lists, recs := Store(keys, objs, lists, recs, data[i]);
      i := i + 1;
    }
    assert data[..i] == data;
    StoredIsLast(data);
  }

  /** The second loop of `fromJSON` for one room: push the room stored under
      each known id of `cs`, in order. */
  method LinkOne(node: MapNode, cs: seq<Id>, keys: seq<Id>, objs: seq<MapNode>)
    requires |objs| == |keys| && Distinct(keys)
    modifies node`connections
    ensures node.connections == old(node.connections) + Resolve(cs, keys, objs)
  {
    var j := 0;
    while j < |cs|
      invariant 0 <= j <= |cs|
      invariant node.connections == old(node.connections) + Resolve(cs[..j], keys, objs)
    {
      var c := cs[j];
      assert cs[..j + 1][..j] == cs[..j];
      if c != "" {
        var at := IndexOf(keys, c);
        if at >= 0 {
          node.connections := node.connections + [objs[at]];
        }
      }
      j := j + 1;
    }
    assert cs[..j] == cs;
  }

  /** The second loop of `fromJSON` over every stored room. */
  method LinkAll(keys: seq<Id>, objs: seq<MapNode>, lists: seq<seq<Id>>)
    requires |objs| == |keys| && |lists| == |keys| && Distinct(keys)
    requires forall k :: 0 <= k < |keys| ==> objs[k].id == keys[k] && objs[k].connections == []
    modifies objs`connections
    ensures forall k :: 0 <= k < |keys| ==> objs[k].connections == Resolve(lists[k], keys, objs)
  {
    var k := 0;
    while k < |keys|
      invariant 0 <= k <= |keys|
      invariant forall m :: 0 <= m < k ==> objs[m].connections == Resolve(lists[m], keys, objs)
      invariant forall m :: k <= m < |keys| ==> objs[m].connections == []
    {
      LinkOne(objs[k], lists[k], keys, objs);
      k := k + 1;
    }
  }

  /** Rooms `ns` are what `fromJSON` reads from records `data`: one room per
      distinct id in first-occurrence order, each with the geometry and flags
      of the last record carrying its id and the known ids of that record's
      connections. */
  ghost predicate ReadBack(data: seq<NodeJson>, ns: seq<MapNode>)
    reads ns
  {
    var keys := FirstIds(data);
    && |ns| == |keys|
    && forall i :: 0 <= i < |ns| ==>
      && ns[i].id == keys[i]
      && var d := LastWith(data, keys[i]);
         ns[i].ToJson() == d.(connections := Known(d.connections, keys))
  }

  /** Reading back clean records gives rooms whose records are exactly those. */
  lemma ReadBackClean(data: seq<NodeJson>, ns: seq<MapNode>)
    requires ReadBack(data, ns) && Clean(data)
    ensures NodesJson(ns) == data
  {
    CleanReadsBack(data);
    var js := NodesJson(ns);
    forall i | 0 <= i < |data| ensures js[i] == data[i] {
      assert FirstIds(data)[i] == data[i].id;
    }
  }

  /** The second loop of `fromJSON`, stated on the records read by the first. */
  method Link(keys: seq<Id>, objs: seq<MapNode>, lists: seq<seq<Id>>, ghost data: seq<NodeJson>)
    requires keys == FirstIds(data) && |objs| == |keys| && |lists| == |keys|
    requires forall k :: 0 <= k < |keys| ==>
      && objs[k].id == keys[k] && objs[k].connections == []
      && objs[k].ToJson() == LastWith(data, keys[k]).(connections := [])
      && lists[k] == LastWith(data, keys[k]).connections
    modifies objs`connections
    ensures ReadBack(data, objs) && DistinctIds(objs) && Inside(objs, ConnsOf(objs))
  {
    LinkAll(keys, objs, lists);
    forall k | 0 <= k < |keys|
      ensures var d := LastWith(data, keys[k]); objs[k].ToJson() == d.(connections := Known(d.connections, keys))
    {
      ResolveIds(lists[k], keys, objs);
    }
  }

  /** `MapGraph.fromJSON(json)`. */
  method FromJson(json: GraphData) returns (g: MapGraph)
    ensures fresh(g) && g.Valid() && g.startNode == None && g.endNode == None
    ensures ReadBack(json.nodes, g.nodes)
    ensures Clean(json.nodes) ==> NodesJson(g.nodes) == json.nodes
  {
    var keys, objs, lists := Collect(json.nodes);
    Link(keys, objs, lists, json.nodes);
    ghost var cs := ConnsOf(objs);
    g := new MapGraph(objs);
    assert g.Conns() == ConnsOf(objs) == cs;
    assert ReadBack(json.nodes, g.nodes);
    if Clean(json.nodes) {
      ReadBackClean(json.nodes, g.nodes);
    }
  }
}
