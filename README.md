# Dungeon generator model

A Dafny model of the procedural dungeon generator under `src/Map`. The
generator works on the following entities:

- **Rooms** ("nodes", `node.ts`). These are integer rectangles: an origin
  `(x, y)` plus the offsets `x0, y0, x1, y1`, four entrance indices, start and
  end flags, and a connection list.
- **The room graph** (`graph.ts`). Its rooms' connection lists form a
  symmetric adjacency. Connections are only dropped after a connectivity check.
- **Two rasterisers.** Both paint a `width` by `height` grid of tiles and
  derive a `(width + 1)` by `(height + 1)` grid of corner ("dual") tiles:
  - the newer `GameTiles` (`GameTiles.ts`), which also computes each tile's
    distance to the nearest room interior;
  - the older `GameMap` (`map.ts`), which also owns the layout loop `step`.
    `step` nudges and grows every room while the room stays inside the margins
    and clear of the others, drops one random connection, counts stalled
    steps and marks the farthest pair of rooms as start and end.
- **Tiles and corner tiles** (`MapTile.ts`, `MapDualTile.ts`). Tile types,
  glyphs, the marching-squares bits and their JSON forms.
- **Room templates** (`NodeFactory.ts`). Seven templates and a jittered
  constructor.

## Modules

Each module is one file:

- `Common`: points, options, `filter`, `indexOf`.
- `Random`: the random source.
- `Node`: room geometry, and the `MapNode` class with its in-place moves.
- `Reach`: reachability over an index adjacency.
- `Graph`: the `MapGraph` class, `getEdges`, the farthest-pair scan and
  crossed connections.
- `Paths`: `getPath`, as written and as intended.
- `GraphJson`: the graph's JSON round trip.
- `Lines`: `makeLine`, and both versions of `manhattanLine`.
- `Tile` and `DualTile`: the two tile kinds.
- `Grid`: the tile layout `i * height + j`, `getTile`, and painting.
- `Raster`: the painting order shared by both `setTiles`.
- `Distances`: `setDistances`.
- `DualGrid`: `setDualTiles`.
- `GameTilesModel`: the `GameTiles` class.
- `GameMapModel`: the `GameMap` class and its layout moves.
- `Factory`: the room templates.

## Modelling choices

**Objects and values.**
- Rooms, the graph, the two tile grids and the random source are classes
  whose methods update their fields in place.
- Tiles, corner tiles, geometry records and JSON records are values.
- A tile grid is a `seq<MapTile>` field that the painting methods reassign.

**Randomness.** Every draw of `random()` comes from a `RandomSource`. This is
a caller-supplied stream of reals in `[0, 1)` with a cursor, and `randomInt`
applies the generator's own formula to it (`src/seed.ts:13-15`).

**Distances.** Distances between rooms are compared squared, which keeps the
same order as `Math.sqrt`.

## Model

| member | source | states |
|---|---|---|
| `Common.Filter` | src/Map/graph.ts:55-58 | `filter` keeps exactly the entries satisfying the test, each one from the input, and never grows the list |
| `Common.FilterHas` | src/Map/graph.ts:55-58 | a value is in the filtered list iff it is in the list and passes the test |
| `Common.FilterConcat` | src/Map/graph.ts:55-58 | filtering a concatenation filters each part, in order |
| `Common.FilterTwice` | src/Map/graph.ts:55-58 | filtering twice with the same test is filtering once |
| `Common.IndexOf` | src/Map/graph.ts:60-62 | `indexOf` gives the first position of a present value, -1 for an absent one |
| `Common.IndexOfDistinct` | src/Map/graph.ts:60-62 | in a list without repeats the position of entry `i` is `i` |
| `Random.RandomIntOfRange` | src/seed.ts:13-15 | `randomInt(min, max)` lies in `[min, max]`; when `max < min` it lies in `[max + 1, min]` |
| `Random.DrawIndex` | src/Map/graph.ts:222-224 | `Math.floor(random() * len)` is an index below `len`, or 0 for an empty list |
| `Random.ScaledFloorBounds` | src/seed.ts:13-15 | the floor of a draw scaled by `k > 0` lies in `[0, k)` |
| `Random.RandomSource.constructor` | src/seed.ts:5-7 | a seeded source starts at its first draw |
| `Random.RandomSource.Next` | src/seed.ts:9-11 | `random()` returns the next draw, in `[0, 1)`, and consumes one draw |
| `Random.RandomSource.RandomInt` | src/seed.ts:13-15 | `randomInt` consumes one draw and applies the floor formula to it |
| `Node.Area` | src/Map/node.ts:47-57 | `getArea(b)` has exactly `(w + 2b) * (h + 2b)` points, all distinct; they fill the box that starts at the footprint's own top-left corner `(x + x0, y + y0)` and extends `w + 2b` columns right and `h + 2b` rows down, so the buffer grows the box to the right and down only |
| `Node.AreaPointInBox` | src/Map/node.ts:47-57 | point `i` of the row-major walk lies in the buffered box |
| `Node.AreaPointInjective` | src/Map/node.ts:47-57 | two different positions of the walk give different points |
| `Node.WallsAreBorder` | src/Map/node.ts:59-73 | `getWalls()` is inside `getArea()`, and a point is a wall iff it is on the first or last row or column of the footprint |
| `Node.NeighbourOutIffBorder` | src/Map/node.ts:59-73 | inside the footprint, some 4-neighbour lies outside it exactly on the border |
| `Node.OverlapsGrowsWithBuffer` | src/Map/node.ts:179-183 | `getArea(b)` is inside `getArea(b + 1)`, so `overlaps(o, b)` implies `overlaps(o, b + 1)` |
| `Node.OverlapsIff` | src/Map/node.ts:170-183 | `overlaps` holds iff the buffered column range meets the other room's inclusive `hasPoint` column range, and likewise for rows |
| `Node.TranslateRoundTrip` | src/Map/node.ts:38-41 | translating by `(dx, dy)` and back restores the geometry, and translation never changes the area size or properness |
| `Node.ResizeFacts` | src/Map/node.ts:79-168 | an `add*`/`remove*` never moves the origin, moves only its own offset by one or nothing at all, keeps area at least 1, and on a proper room reverts exactly when it would shrink a side of length one |
| `Node.PositiveFactor` | src/Map/node.ts:75-81 | with the other side at least 1, the area is at least 1 iff this side is |
| `Node.EntranceCoordinates` | src/Map/node.ts:202-232 | the top, bottom, left and right entrances lie on row `y + y0`, row `y + y1`, column `x + x0` and column `x + x1`, so bottom and right entrances lie one past the footprint; for an index within range only the coordinate along the wall stays within the footprint |
| `Node.DivAtMost` | src/Map/node.ts:202-232 | `floor(i / d)` for `0 <= i` and `d >= 1` is at most `i` |
| `Node.EntranceDirectionClosestTo` | src/Map/node.ts:191-200 | left or right iff the horizontal distance strictly dominates (ties go vertical), and the side faces the other room |
| `Node.RandomEntrancesInRange` | src/Map/node.ts:93-98 | re-randomised entrance indices of a proper room lie in `[1, len - 1]`, or are 1 on a side of length one |
| `Node.Ids` | src/Map/node.ts:234-247 | `connections.map(c => c.id)` has one id per connection, in order |
| `Node.MapNode.constructor` | src/Map/node.ts:25-36 | a new room is 1 by 1 at its origin, unflagged, with default entrances and the given connections |
| `Node.MapNode.FromJson` | src/Map/node.ts:249-261 | reading a record restores id, geometry and flags, with no connections and default entrances |
| `Node.MapNode.ToJson` | src/Map/node.ts:234-247 | the record holds the id, geometry, flags and connection ids in order |
| `Node.MapNode.Translate` | src/Map/node.ts:38-41 | `translate` moves the origin and nothing else |
| `Node.MapNode.RandomizeEntrances` | src/Map/node.ts:93-98 | four draws set left, right, top and bottom in that order |
| `Node.MapNode.AddTop` | src/Map/node.ts:83-91 | the geometry becomes `y0 - 1`, or stays when that would leave an area below 1; a kept change redraws the entrances with four draws, a reverted one keeps them and draws nothing |
| `Node.MapNode.AddBottom` | src/Map/node.ts:100-108 | as `AddTop`, for `y1 + 1` |
| `Node.MapNode.AddLeft` | src/Map/node.ts:110-118 | as `AddTop`, for `x0 - 1` |
| `Node.MapNode.AddRight` | src/Map/node.ts:120-128 | as `AddTop`, for `x1 + 1` |
| `Node.MapNode.RemoveTop` | src/Map/node.ts:130-138 | as `AddTop`, for `y0 + 1` |
| `Node.MapNode.RemoveBottom` | src/Map/node.ts:140-148 | as `AddTop`, for `y1 - 1` |
| `Node.MapNode.RemoveLeft` | src/Map/node.ts:150-158 | as `AddTop`, for `x0 + 1` |
| `Node.MapNode.RemoveRight` | src/Map/node.ts:160-168 | as `AddTop`, for `x1 - 1` |
| `Reach.ReachableRefl` | src/Map/graph.ts:142-164 | every room reaches itself |
| `Reach.EdgeWalk` | src/Map/graph.ts:142-164 | a single link is a walk of two rooms |
| `Reach.ReachableStep` | src/Map/graph.ts:142-164 | a reachable room's neighbour is reachable |
| `Reach.ClosedHoldsReachable` | src/Map/graph.ts:142-164 | a set holding the start and closed under links holds every reachable room |
| `Reach.WalkStaysIn` | src/Map/graph.ts:142-164 | a walk from inside a closed set stays inside it |
| `Reach.WalkPrefixReachable` | src/Map/graph.ts:142-164 | every entry of a walk is reachable from its first entry |
| `Reach.ReachableMono` | src/Map/graph.ts:142-164 | adding links never loses reachability |
| `Reach.Unlink` | src/Map/graph.ts:55-58 | removing a link drops exactly that link, in both directions |
| `Reach.Link` | src/Map/graph.ts:50-53 | adding a link adds exactly that link, in both directions |
| `Reach.RelinkRestores` | src/Map/graph.ts:166-172 | unlink then relink gives back the graph iff the two rooms were linked both ways |
| `Reach.UnlinkKeepsReachable` | src/Map/graph.ts:222-234 | removing a link whose ends stay connected keeps every reachable pair reachable |
| `Reach.ReachableTrans` | src/Map/graph.ts:142-164 | reachability is transitive |
| `Reach.RelinkUndirected` | src/Map/graph.ts:50-58 | adding or removing a link both ways keeps the adjacency undirected |
| `Reach.UnlinkRelinked` | src/Map/graph.ts:166-172 | unlinking after the test's relink gives the graph without the link |
| `Reach.ConnectedMono` | src/Map/graph.ts:236-248 | adding links keeps a connected graph connected |
| `Reach.SimpleWalkOf` | src/Map/graph.ts:386-410 | every walk can be shortened to a simple walk with the same ends |
| `Reach.RelinkCovers` | src/Map/graph.ts:166-172 | unlink-then-relink never loses a link |
| `Reach.GuardedRemoval` | src/Map/graph.ts:222-234 | the guarded removal keeps a connected graph connected, and keeps an undirected graph undirected with links only removed |
| `Reach.GuardedLinkFacts` | src/Map/graph.ts:236-248 | `addRandomConnection`'s guarded link only adds links, adds no self-link, and keeps a connected graph connected and an undirected one undirected |
| `Graph.FilterDrops` | src/Map/graph.ts:55-58 | filtering out a room's id removes that room from the list |
| `Graph.LinksOf` | src/Map/graph.ts:70-72 | the adjacency by index lists exactly the rooms each list names |
| `Graph.UnlinkListsLinks` | src/Map/graph.ts:55-58 | the lists after `removeConnection` give the adjacency without the link |
| `Graph.LinkListsLinks` | src/Map/graph.ts:50-53 | the lists after `addConnection` give the adjacency with the link |
| `Graph.RelinkListsFacts` | src/Map/graph.ts:166-172 | after the remove-then-add of two different rooms, each room is last in the other's list and nowhere else in it, the rest of that list keeps its order, and every other room's list is as it was |
| `Graph.UnlinkAfterRelink` | src/Map/graph.ts:225-233 | `removeConnection` after the relink leaves the same lists as one `removeConnection` on the lists before it |
| `Graph.UnlinkAfterRelinkSelf` | src/Map/graph.ts:225-233 | the same for a room linked to itself, whose list is filtered twice and pushed twice |
| `Graph.UnlinkAfterRelinkPair` | src/Map/graph.ts:225-233 | the same for two different rooms: each list ends as the filter of the list before |
| `Graph.GuardedUnlinkListsFacts` | src/Map/graph.ts:222-234 | the lists of the guarded removal give exactly the links of `Reach.GuardedUnlink`, stay among the rooms, and when the link is dropped equal the lists of a single `removeConnection` |
| `Graph.DistinctIdsDistinct` | src/Map/graph.ts:44 | rooms with distinct ids are distinct rooms |
| `Graph.LinkSetPush` | src/Map/graph.ts:50-53 | pushing a room adds exactly its index |
| `Graph.LinkSetFilter` | src/Map/graph.ts:55-58 | filtering out a room's id removes exactly its index |
| `Graph.EdgesFrom` | src/Map/graph.ts:78-93 | one edge per entry of a room's list, in order, each starting at that room |
| `Graph.EdgesOfFacts` | src/Map/graph.ts:78-93 | `getEdges()` has one pair per list entry, as many as the list lengths add up to; `a -> b` is listed iff `a` is a room listing `b` |
| `Graph.EdgeListed` | src/Map/graph.ts:78-93 | each edge starts at a room and ends at a room that room lists |
| `Graph.TotalAreaAtLeast` | src/Map/graph.ts:337-347 | rooms of area at least 1 total at least one per room |
| `Graph.SpliceIndex` | src/Map/graph.ts:60-62 | entry `j` of a list spliced at `k` comes from position `j` or `j + 1` |
| `Graph.SpliceFacts` | src/Map/graph.ts:60-62 | splicing out one room keeps the ids distinct and removes exactly that room |
| `Graph.DetachFrom` | src/Map/graph.ts:63-67 | the loop of `removeNode` drops the removed room from every other list and keeps the rest in order |
| `Graph.SplicePairs` | src/Map/graph.ts:60-62 | splicing two aligned lists at the same place keeps them aligned |
| `Graph.ConnsOf` | src/Map/graph.ts:70-72 | one connection list per room, in order |
| `Graph.IndexList` | src/Map/graph.ts:386-410 | the positions of a list's rooms, in order |
| `Graph.AdjOf` | src/Map/graph.ts:386-410 | the index lists are position-for-position the connection lists |
| `Graph.AdjOfLinks` | src/Map/graph.ts:386-410 | the index lists are in range and, as sets, are the adjacency |
| `Graph.NodePath` | src/Map/graph.ts:386-410 | the corrected path search over rooms (see Findings) answers with a simple walk along connections from start to end, and finds one whenever the end is reachable |
| `Graph.ConnsOfListed` | src/Map/graph.ts:386-410 | the list at a room's position is its connection list |
| `Graph.PathIndicesToNodes` | src/Map/graph.ts:386-410 | a simple walk over positions maps to a simple walk over rooms |
| `Graph.FindById` | src/Map/graph.ts:411-413 | the first room with the id, or none exactly when no room carries it |
| `Graph.Count` | src/Map/graph.ts:278-310 | the number of times a point occurs in a list, at most its length |
| `Graph.SharedPairs` | src/Map/graph.ts:278-310 | the number of equal pairs across two areas, at most the product of their lengths |
| `Graph.CountPositive` | src/Map/graph.ts:278-310 | a count is positive iff the point occurs |
| `Graph.SharedPairsPositive` | src/Map/graph.ts:278-310 | an edge is pushed at all iff the two areas share a tile |
| `Graph.Repeat` | src/Map/graph.ts:278-310 | `n` copies of one edge |
| `Graph.Ends` | src/Map/graph.ts:78-93 | holds both rooms of every edge |
| `Graph.EndsWithin` | src/Map/graph.ts:78-93 | edges among the rooms have their ends among the rooms |
| `Graph.EdgeRects` | src/Map/graph.ts:278-310 | one geometry pair per edge, in order |
| `Graph.EdgeRectsProper` | src/Map/graph.ts:278-310 | edges between proper rooms give proper geometry pairs |
| `Graph.CrossedListHas` | src/Map/graph.ts:278-310 | an edge is in `getCrossedConnections()` iff it is an edge whose two rooms share a floor tile |
| `Graph.CrossedOf` | src/Map/graph.ts:278-310 | the loop over the edges produces the crossed list |
| `Graph.PushShared` | src/Map/graph.ts:286-308 | the two inner loops push the edge once per shared pair of tiles |
| `Graph.PositionsOf` | src/Map/graph.ts:95-99 | one origin per room, in order |
| `Graph.DistRow` | src/Map/graph.ts:349-384 | a row of squared distances from one origin, of the requested length |
| `Graph.DistRows` | src/Map/graph.ts:349-384 | the first `k` rows of the distance table, each one entry per room |
| `Graph.DistTable` | src/Map/graph.ts:349-384 | a square table of squared distances |
| `Graph.DistAt` | src/Map/graph.ts:349-384 | entry `(p, q)` is the squared distance of origins `p` and `q` |
| `Graph.RowAt` | src/Map/graph.ts:349-384 | one entry of a row |
| `Graph.RowsAt` | src/Map/graph.ts:349-384 | one row of the table |
| `Graph.Scan` | src/Map/graph.ts:357-378 | the `i < j` scan answers with a pair of rooms; `Graph.ScanFarthest` states which |
| `Graph.ScanFarthest` | src/Map/graph.ts:357-378 | the scan ends on a pair that is no nearer than any other, with ties going to the first pair in scan order |
| `Graph.ScanFindsFarthest` | src/Map/graph.ts:357-378 | the scan from the first pair finds the farthest pair |
| `Graph.ScanEnds` | src/Map/graph.ts:357-378 | a scan past the last row holds the farthest pair |
| `Graph.FarthestUnique` | src/Map/graph.ts:357-378 | the farthest pair is unique |
| `Graph.MapGraph.constructor` | src/Map/graph.ts:44 | `new MapGraph(nodes)` holds the rooms, with no start or end |
| `Graph.MapGraph.Conns` | src/Map/graph.ts:70-76 | the connection list of every room, in order |
| `Graph.MapGraph.ReachableFrom` | src/Map/graph.ts:142-164 | the rooms reachable from a room are rooms of the graph |
| `Graph.MapGraph.ReachableFromHas` | src/Map/graph.ts:142-164 | a room is in the reachable set iff it is reachable by index |
| `Graph.MapGraph.ReachableFromIsClosed` | src/Map/graph.ts:142-164 | the reachable set holds the start and is closed under connections |
| `Graph.MapGraph.ReachableFromClosed` | src/Map/graph.ts:142-164 | every closed set holding the start contains the reachable set |
| `Graph.MapGraph.ConnectedIff` | src/Map/graph.ts:142-164 | connected iff room 0 reaches every room |
| `Graph.MapGraph.CountReached` | src/Map/graph.ts:160-163 | `visited.size === nodes.length` iff the graph is connected |
| `Graph.MapGraph.AddConnection` | src/Map/graph.ts:50-53 | each room lists the other at the end of its list (a self-link is pushed twice), every other list is unchanged, and the adjacency gains exactly that link |
| `Graph.MapGraph.RemoveConnection` | src/Map/graph.ts:55-58 | neither room lists the other, the rest of each list keeps its order, every other list is unchanged, and the adjacency loses exactly that link |
| `Graph.MapGraph.DepthFirst` | src/Map/graph.ts:142-198 | the stack search visits only rooms reachable from the start, and either meets the stop room or visits a closed set without it |
| `Graph.MapGraph.IsTraversable` | src/Map/graph.ts:142-164 | true iff every room is reachable from room 0 (true with no rooms) |
| `Graph.MapGraph.NodesAreConnected` | src/Map/graph.ts:173-198 | true iff the second room is reachable from the first, and always true for a room with itself |
| `Graph.MapGraph.IsTraversableWithoutConnection` | src/Map/graph.ts:166-172 | answers whether the graph without the link is connected, then leaves each of the two rooms last in the other's list, once, with the rest of that list in its old order and every other list unchanged; the links come back unchanged iff the rooms were linked both ways before |
| `Graph.MapGraph.IndexOfNode` | src/Map/graph.ts:60-62 | a room is found at its own position |
| `Graph.MapGraph.ListedIsLinked` | src/Map/graph.ts:70-72 | a listed room is linked by index |
| `Graph.MapGraph.GetEdges` | src/Map/graph.ts:78-93 | one edge per list entry, room by room, each ending at a room its start lists |
| `Graph.MapGraph.RemoveNode` | src/Map/graph.ts:60-68 | the room is spliced out of the list and no remaining room lists it |
| `Graph.MapGraph.DetachAll` | src/Map/graph.ts:63-67 | every remaining room drops the removed one from its list |
| `Graph.MapGraph.RemovedValid` | src/Map/graph.ts:60-68 | what `removeNode` leaves is a valid graph again |
| `Graph.MapGraph.RemoveRandomConnection` | src/Map/graph.ts:222-234 | one draw picks an edge, and the link is dropped only when the graph stays traversable without it; every room's connection list afterwards is that of the guarded removal (`Graph.GuardedUnlinkListsFacts`), so a kept link ends the two lists |
| `Graph.MapGraph.RemoveIfTraversable` | src/Map/graph.ts:225-233 | drops the link exactly when the graph without it is connected; otherwise the two rooms end each other's lists; all lists are stated |
| `Graph.MapGraph.AddRandomConnection` | src/Map/graph.ts:236-248 | two draws pick two rooms, which are linked only when no path joins them, each then last in the other's list; otherwise no list changes |
| `Graph.MapGraph.GetNodeById` | src/Map/graph.ts:411-413 | a room carrying the id, or none iff no room carries it |
| `Graph.MapGraph.GetClosestNode` | src/Map/graph.ts:101-122 | none iff there are no rooms; otherwise the first candidate of least squared distance, where the candidates are room 0 and every room other than the node itself |
| `Graph.MapGraph.ClosestAtUnique` | src/Map/graph.ts:101-122 | the answer is unique |
| `Graph.MapGraph.ClosestOfFirst` | src/Map/graph.ts:101-122 | for room 0 itself the answer is room 0 |
| `Graph.MapGraph.ClosestIsOther` | src/Map/graph.ts:101-122 | for any other room the answer is a different room |
| `Graph.MapGraph.AnyNodeOverlaps` | src/Map/graph.ts:250-264 | true iff some other room's buffered area overlaps the room |
| `Graph.MapGraph.AnyOverlapGrows` | src/Map/graph.ts:250-264 | a larger buffer only adds overlaps |
| `Graph.MapGraph.GetTotalArea` | src/Map/graph.ts:337-347 | the sum of the area sizes, at least one per proper room |
| `Graph.MapGraph.ShapedArea` | src/Map/graph.ts:337-347 | proper rooms total at least one per room |
| `Graph.MapGraph.ScanRow` | src/Map/graph.ts:366-377 | the inner loop advances the scan by one row |
| `Graph.MapGraph.MarkEnds` | src/Map/graph.ts:379-383 | exactly the chosen rooms carry the start and end flags |
| `Graph.MapGraph.FindMostDistancedNodes` | src/Map/graph.ts:349-384 | with fewer than two rooms nothing changes (the source throws); otherwise exactly one room is start, a different one is end, and they are the first farthest pair |
| `Graph.MapGraph.ClearAndScan` | src/Map/graph.ts:350-378 | clears every flag and finds the farthest pair |
| `Graph.MapGraph.GetPath` | src/Map/graph.ts:386-410 | a non-empty answer starts at `start`, ends at `end`, repeats no room and follows connections; it is empty when `start == end` or `end` is absent, and non-empty whenever `end` is reachable |
| `Graph.MapGraph.EdgesAmongNodes` | src/Map/graph.ts:78-93 | both ends of every edge are rooms |
| `Graph.MapGraph.EdgeEndsAmongNodes` | src/Map/graph.ts:78-93 | both ends of every edge `getEdges()` lists are rooms of the graph |
| `Graph.MapGraph.GetCrossedConnections` | src/Map/graph.ts:278-310 | the crossed list of the edges, which by `Graph.CrossedListHas` holds an edge iff its two rooms share a floor tile |
| `Paths.Sets` | src/Map/graph.ts:386-410 | the index adjacency as sets |
| `Paths.UnvisitedShrinks` | src/Map/graph.ts:390 | each recursive call visits one more room |
| `Paths.ContinuesStep` | src/Map/graph.ts:390-403 | extending the visited list by a neighbour keeps a continuation a continuation |
| `Paths.PathFromSound` | src/Map/graph.ts:386-410 | a non-empty answer of the written search is a simple walk to the end |
| `Paths.PathViaSound` | src/Map/graph.ts:393-408 | the same for the loop over the connections |
| `Paths.PathFromFixedSound` | src/Map/graph.ts:386-410 | the corrected search is sound |
| `Paths.PathViaFixedSound` | src/Map/graph.ts:393-408 | the corrected loop is sound |
| `Paths.PathFromFixedComplete` | src/Map/graph.ts:386-410 | the corrected search finds a path whenever a simple walk avoids the visited rooms |
| `Paths.ViaFixedComplete` | src/Map/graph.ts:393-408 | the corrected loop reaches every later entry unless an earlier one answered |
| `Paths.PathFixedIff` | src/Map/graph.ts:386-410 | the corrected search answers non-empty iff the end is reachable from a different start, with a simple walk |
| `Paths.PathFixedShape` | src/Map/graph.ts:386-410 | from the start, a non-empty answer of the corrected search is a simple walk from start to end over rooms of the list |
| `Paths.PathFixedFound` | src/Map/graph.ts:386-410 | from the start, the corrected search answers non-empty whenever the end is reachable from a different start |
| `Paths.PathAsWrittenMissesNeighbour` | src/Map/graph.ts:403-405 | the written search misses a direct neighbour after an empty recursive answer |
| `Paths.PathFixedFindsNeighbour` | src/Map/graph.ts:403-405 | the corrected search finds it |
| `GraphJson.NodesJson` | src/Map/graph.ts:415-428 | one record per room, in order |
| `GraphJson.JsonIds` | src/Map/graph.ts:439-447 | the ids of the records |
| `GraphJson.FirstIds` | src/Map/graph.ts:439-447 | the keys after storing the records: each id once, in order of first appearance |
| `GraphJson.LastWith` | src/Map/graph.ts:439-447 | the record kept under an id is the last one carrying it |
| `GraphJson.Resolve` | src/Map/graph.ts:455-462 | every resolved connection is one of the rooms read |
| `GraphJson.ResolveIds` | src/Map/graph.ts:455-462 | the resolved rooms carry exactly the known ids |
| `GraphJson.KnownAll` | src/Map/graph.ts:455-462 | a list of known ids is kept whole |
| `GraphJson.FirstIdsDistinct` | src/Map/graph.ts:439-447 | with distinct ids the keys are the ids in order |
| `GraphJson.CleanReadsBack` | src/Map/graph.ts:430-476 | clean records are read back as themselves |
| `GraphJson.WrittenIsClean` | src/Map/graph.ts:415-428 | the records of a valid graph are clean |
| `GraphJson.WrittenIds` | src/Map/graph.ts:415-428 | the ids written are the rooms' ids |
| `GraphJson.WrittenConnections` | src/Map/graph.ts:415-428 | every connection written is a room's id |
| `GraphJson.WrittenConnection` | src/Map/graph.ts:415-428 | each connection id written names a room |
| `GraphJson.ToJson` | src/Map/graph.ts:415-428 | `toJSON` writes one record per room, in order; `GraphJson.WrittenIsClean` says the records of a valid graph are clean |
| `GraphJson.Stored` | src/Map/graph.ts:439-447 | one stored record per distinct id |
| `GraphJson.StoredIsLast` | src/Map/graph.ts:439-447 | each stored record is the last one with its key |
| `GraphJson.StoreStep` | src/Map/graph.ts:441-446 | storing one more record extends the keys when its id is new and replaces the record otherwise |
| `GraphJson.Store` | src/Map/graph.ts:441-446 | one step of the first loop |
| `GraphJson.Collect` | src/Map/graph.ts:439-447 | the first loop reads a fresh room per stored record |
| `GraphJson.LinkOne` | src/Map/graph.ts:455-462 | the second loop pushes the rooms of known ids in order |
| `GraphJson.LinkAll` | src/Map/graph.ts:448-464 | the second loop links every stored room |
| `GraphJson.ReadBackClean` | src/Map/graph.ts:430-476 | reading clean records gives rooms whose records are exactly those |
| `GraphJson.Link` | src/Map/graph.ts:448-464 | the second loop links each room to the rooms its last record names, leaving distinct ids and every connection inside the graph |
| `GraphJson.FromJson` | src/Map/graph.ts:430-476 | `fromJSON` builds a fresh valid graph with no start or end, whose rooms are read back from the records; for clean records `toJSON` gives back exactly the records |
| `Lines.RoundDiv` | src/Map/GameTiles.ts:18-38 | `Math.round(n / d)` is the nearest integer, with halves rounded up |
| `Lines.RoundDivExact` | src/Map/GameTiles.ts:18-38 | an exact quotient rounds to itself |
| `Lines.RoundDivBounds` | src/Map/GameTiles.ts:18-38 | rounding stays within the bounds of the quotient |
| `Lines.MakeLine` | src/Map/GameTiles.ts:18-38 | the push loop builds the line whose length, ends and bounds `Lines.LineFacts` states |
| `Lines.StepBetween` | src/Map/GameTiles.ts:18-38 | each coordinate of a line point stays between the endpoints' coordinates |
| `Lines.StepExact` | src/Map/GameTiles.ts:18-38 | along the longer axis each step moves one unit |
| `Lines.LineFacts` | src/Map/GameTiles.ts:18-38 | `makeLine` returns `max(abs dx, abs dy)` points, the first is `p1`, `p2` is excluded, and all lie in the bounding box |
| `Lines.LineAxis` | src/Map/GameTiles.ts:18-38 | on an axis-aligned line point `i` is `p1 + i * dir` |
| `Lines.AxisWalk` | src/Map/GameTiles.ts:18-38 | an axis-aligned line is a 4-walk towards `p2` |
| `Lines.WalkConcat` | src/Map/GameTiles.ts:40-73 | walks chain |
| `Lines.MidSplits` | src/Map/GameTiles.ts:40-73 | the midpoint splits the distance |
| `Lines.ThreeLegs` | src/Map/GameTiles.ts:40-73 | a three-leg route with axis-aligned legs is a 4-walk of Manhattan length |
| `Lines.ColumnSplitWalk` | src/Map/map.ts:147-170 | the column split is a 4-walk of `abs dx + abs dy` points starting at `p1` |
| `Lines.RowSplitWalk` | src/Map/GameTiles.ts:40-73 | the row split is a 4-walk of `abs dx + abs dy` points |
| `Lines.ManhattanTilesWalk` | src/Map/GameTiles.ts:40-73 | `manhattanLine` returns `abs dx + abs dy` points from `p1`, each 4-adjacent to the next, the last 4-adjacent to `p2` |
| `Lines.ManhattanLine` | src/Map/GameTiles.ts:40-73 | the loop builds the route that `Lines.ManhattanTilesWalk` proves a 4-walk of Manhattan length |
| `Lines.ManhattanLineMap` | src/Map/map.ts:147-170 | the older loop builds the column-split route that `Lines.ColumnSplitWalk` proves a 4-walk of Manhattan length |
| `Tile.Lower` | src/Map/GameTiles.ts:111-116 | `Math.min` of two distances: one of the two, and neither is below it (infinity is the largest) |
| `Tile.NewTile` | src/Map/MapTile.ts:6-10 | a new tile has its type and position, no parent and an infinite distance |
| `Tile.SetType` | src/Map/MapTile.ts:11-13 | `setType` changes only the type |
| `Tile.SetTypeLastWins` | src/Map/MapTile.ts:11-13 | the second of two `setType` calls wins, and setting the current type changes nothing |
| `Tile.ToJson` | src/Map/MapTile.ts:15-21 | type and position |
| `Tile.FromJson` | src/Map/MapTile.ts:23-25 | a new tile with the record's type and position |
| `Tile.JsonRoundTrip` | src/Map/MapTile.ts:15-25 | `fromJSON(toJSON(t))` keeps type and position, with a fresh id, no parent and an infinite distance; `toJSON(fromJSON(j))` is `j` |
| `Tile.GlyphDecodes` | src/Map/MapTile.ts:27-45 | wall is `' '`, outside `'■'`, path `'.'`, door `'_'`; an inside tile is `'S'` for a start room, else `'E'` for an end room, else `' '` |
| `DualTile.Types` | src/Map/MapDualTile.ts:25-32 | `[topLeft, topRight, bottomLeft, bottomRight]`, a missing tile counted as outside |
| `DualTile.CountPositive` | src/Map/MapDualTile.ts:34-48 | a count is positive iff the type occurs |
| `DualTile.CountTwo` | src/Map/MapDualTile.ts:49-63 | a count above one iff two positions hold the type |
| `DualTile.HasOneTwo` | src/Map/MapDualTile.ts:34-63 | `hasOneX` iff some corner is X, `hasTwoX` iff two are, so `hasTwoX` implies `hasOneX` |
| `DualTile.CountsSum` | src/Map/MapDualTile.ts:25-32 | the five type counts add up to the length |
| `DualTile.TypesCountFour` | src/Map/MapDualTile.ts:25-32 | the five counts of a corner sum to 4 |
| `DualTile.MarchingSquares` | src/Map/MapDualTile.ts:65-76 | entry `k` is 0 iff corner `k` is outside, 1 otherwise |
| `DualTile.NoOutsideIffAllSet` | src/Map/MapDualTile.ts:46-76 | `hasOneOutsides()` is false iff every marching-squares bit is 1 |
| `DualTile.ToJson` | src/Map/MapDualTile.ts:78-87 | each corner by its tile's id, null for a missing one |
| `DualTile.FindTile` | src/Map/MapDualTile.ts:89-98 | the first tile with the id, none for a null or unknown id |
| `DualTile.FindUnique` | src/Map/MapDualTile.ts:89-98 | with unique ids the lookup finds the very tile |
| `DualTile.FromJson` | src/Map/MapDualTile.ts:89-98 | each corner looked up by id |
| `DualTile.JsonRoundTrip` | src/Map/MapDualTile.ts:78-98 | `fromJSON(toJSON(d), tiles)` references the same tiles when their ids occur once in `tiles` |
| `DualTile.UnknownIdIsMissing` | src/Map/MapDualTile.ts:89-98 | unknown ids read back as missing corners, not as errors |
| `DualTile.ToString` | src/Map/MapDualTile.ts:100-107 | four glyphs in `types()` order, `'x'` for a missing corner |
| `Grid.IndexOfPoint` | src/Map/GameTiles.ts:9-16 | on the laid grid tile `(i, j)` is at index `i * height + j` |
| `Grid.OnlyTileAt` | src/Map/GameTiles.ts:95-97 | that tile is the only one at its position |
| `Grid.FindAtFacts` | src/Map/GameTiles.ts:95-97 | the search finds the first tile at the position, none when there is none |
| `Grid.TileAt` | src/Map/GameTiles.ts:95-97 | the closed form of `getTile` on the laid grid |
| `Grid.GetTileIsFind` | src/Map/GameTiles.ts:95-97 | `find` on the laid grid agrees with the closed form |
| `Grid.GetTileFacts` | src/Map/GameTiles.ts:95-97 | a tile is found iff one lies at the position, and it is one of the tiles |
| `Grid.GetTileLaid` | src/Map/GameTiles.ts:95-97 | `getTile(x, y)` is non-null iff `0 <= x < width` and `0 <= y < height` |
| `Grid.Apply` | src/Map/GameTiles.ts:118-135 | a brush never changes a tile's id or position |
| `Grid.ApplyIdempotent` | src/Map/GameTiles.ts:118-135 | painting twice with one brush is painting once |
| `Grid.PaintedLaid` | src/Map/GameTiles.ts:118-135 | painting keeps the layout |
| `Grid.PaintStep` | src/Map/GameTiles.ts:169-177 | painting one more point changes at most the tile there |
| `Grid.PaintPoints` | src/Map/GameTiles.ts:169-177 | the loop paints every on-grid point and skips off-grid ones |
| `Grid.Rects` | src/Map/map.ts:459-468 | the geometry of each room, in order |
| `Grid.PassLists` | src/Map/GameTiles.ts:118-135 | one point list per room |
| `Grid.PaintRooms` | src/Map/GameTiles.ts:118-135 | painting room after room keeps the number of tiles |
| `Grid.InAnySnoc` | src/Map/GameTiles.ts:118-135 | a point is in the longer list of lists iff it is in one of the parts |
| `Grid.EffectStep` | src/Map/GameTiles.ts:118-135 | painting one more room keeps a pass's effect on a tile |
| `Grid.PaintRoomsTile` | src/Map/GameTiles.ts:118-135 | a pass leaves tiles outside its rooms alone and gives every painted tile its effect |
| `Grid.PaintRoomsLaid` | src/Map/GameTiles.ts:118-135 | a pass keeps the layout |
| `Grid.PaintRoomsSnoc` | src/Map/GameTiles.ts:118-135 | one more room extends a pass |
| `Grid.PaintRoomsOf` | src/Map/GameTiles.ts:118-135 | the loop over the rooms performs the pass |
| `Grid.PaintedConcat` | src/Map/GameTiles.ts:137-186 | painting two lists in turn is painting their concatenation |
| `Grid.Flatten` | src/Map/GameTiles.ts:137-186 | every list, one after the other |
| `Grid.PaintLists` | src/Map/GameTiles.ts:137-186 | the loop over the edges paints every list in turn |
| `Grid.Cleared` | src/Map/GameTiles.ts:281-284 | the reset makes every tile outside without a parent and changes nothing else |
| `Grid.ClearedLaid` | src/Map/GameTiles.ts:281-284 | the reset keeps the layout |
| `Grid.ClearAll` | src/Map/GameTiles.ts:281-284 | the reset loop |
| `Grid.BlankLaid` | src/Map/GameTiles.ts:9-16 | the constructor's grid has `width * height` outside tiles, laid out column by column |
| `Grid.BlankAt` | src/Map/GameTiles.ts:9-16 | the tile for column `i`, row `j` is at index `i * height + j` |
| `Grid.MakeTiles` | src/Map/GameTiles.ts:9-16 | the nested loops lay the constructor's grid |
| `Raster.WallsInAreas` | src/Map/GameTiles.ts:206-223 | a point on some room's wall lies in some room's area |
| `Raster.Rasterised` | src/Map/GameTiles.ts:277-292 | reset, then walls, paths and interiors, keeping the number of tiles |
| `Raster.RasterTile` | src/Map/GameTiles.ts:277-292 | what the four passes leave on one tile |
| `Raster.RasterFacts` | src/Map/GameTiles.ts:277-292 | on every tile: a wall where some room's wall lies and no path crosses; an interior tile with a parent room elsewhere in a room's area (a path through a wall opens it); outside the areas a path or outside tile without a parent; only type and parent change, and no tile is a door |
| `Raster.RasterLaid` | src/Map/GameTiles.ts:277-292 | `setTiles` keeps the layout |
| `Raster.RasterisedIs` | src/Map/GameTiles.ts:277-292 | the three passes compose to the rasterised grid |
| `Raster.Rasterise` | src/Map/GameTiles.ts:277-292 | the reset and three painting loops compute the rasterised grid |
| `Distances.NeighbourPoints` | src/Map/GameTiles.ts:99-109 | up, right, down and left, each 4-adjacent |
| `Distances.TileNeighbours` | src/Map/GameTiles.ts:99-109 | the tiles at `(x, y-1)`, `(x+1, y)`, `(x, y+1)`, `(x-1, y)`, null where there is none |
| `Distances.NeighboursFacts` | src/Map/GameTiles.ts:99-109 | each neighbour found is a tile at its 4-adjacent position |
| `Distances.NeighboursOnGrid` | src/Map/GameTiles.ts:99-109 | on the laid grid a neighbour is null iff it is off-grid |
| `Distances.AtMostTrans` | src/Map/GameTiles.ts:111-116 | `<=` on distances is transitive |
| `Distances.LowestIsMin` | src/Map/GameTiles.ts:111-116 | the lowest distance is one of the four, null counting as infinity, and no neighbour is closer |
| `Distances.LowestNonNeg` | src/Map/GameTiles.ts:111-116 | the lowest distance of non-negative tiles is non-negative |
| `Distances.DistanceOnlyLaid` | src/Map/GameTiles.ts:242-275 | changing only distances keeps the layout |
| `Distances.RelaxTile` | src/Map/GameTiles.ts:261-269 | one step keeps type and position |
| `Distances.RelaxTileFacts` | src/Map/GameTiles.ts:261-269 | a step skips inside tiles and never raises a distance |
| `Distances.RelaxTileNeighbour` | src/Map/GameTiles.ts:261-269 | a changed distance is one more than a neighbour's lower one |
| `Distances.RelaxUpTo` | src/Map/GameTiles.ts:260-270 | the pass after visiting the first `n` tiles keeps the number of tiles |
| `Distances.RelaxPass` | src/Map/GameTiles.ts:260-270 | the pass loop, in place, over the current tiles |
| `Distances.RelaxFacts` | src/Map/GameTiles.ts:260-270 | a pass changes distances only, leaves inside tiles alone and never raises a distance |
| `Distances.RelaxNonNeg` | src/Map/GameTiles.ts:260-270 | a pass never makes a distance negative |
| `Distances.Relaxed` | src/Map/GameTiles.ts:272-274 | `passes` passes keep the number of tiles |
| `Distances.RelaxPasses` | src/Map/GameTiles.ts:272-274 | the loop runs `passes` passes |
| `Distances.RelaxedFacts` | src/Map/GameTiles.ts:272-274 | any number of passes keeps the facts of one |
| `Distances.SeedFacts` | src/Map/GameTiles.ts:243-258 | room-area tiles get 0, or infinity when outside; other tiles keep their distance |
| `Distances.SetDistancesFacts` | src/Map/GameTiles.ts:242-275 | only distances change, inside tiles in a room's area are 0, and no distance becomes negative |
| `Distances.SetDistances` | src/Map/GameTiles.ts:242-275 | seed the areas, then relax `passes` times |
| `DualGrid.CornerFacts` | src/Map/GameTiles.ts:294-311 | each tile of a corner is null iff off-grid, and otherwise the tile at that position |
| `DualGrid.Column` | src/Map/GameTiles.ts:298-309 | the corners of one column, rows `0` to `height` |
| `DualGrid.Columns` | src/Map/GameTiles.ts:297-310 | the corners of the first `n` columns, in order |
| `DualGrid.ColumnsAt` | src/Map/GameTiles.ts:297-310 | corner `(i, j)` is at index `i * (height + 1) + j` |
| `DualGrid.SetDualTiles` | src/Map/GameTiles.ts:294-311 | the nested loops build the corner grid |
| `DualGrid.DualGridFacts` | src/Map/GameTiles.ts:294-311 | `(width + 1) * (height + 1)` corners, corner `(i, j)` referencing tiles `(i-1, j-1)`, `(i, j-1)`, `(i-1, j)`, `(i, j)` |
| `GameTilesModel.OffsetEntrance` | src/Map/GameTiles.ts:188-203 | the point moves by `o` along one axis, chosen by the first matching test, or stays put |
| `GameTilesModel.OffsetOrder` | src/Map/GameTiles.ts:193-201 | the tests are tried in order: the left column wins over the right column, which wins over the rows |
| `GameTilesModel.UnitOffset` | src/Map/GameTiles.ts:188-203 | a unit offset keeps the point or moves it to a 4-neighbour |
| `GameTilesModel.LegsAvoidEnd` | src/Map/GameTiles.ts:40-73 | a three-leg route avoids the point it heads for |
| `GameTilesModel.RouteAvoidsEnd` | src/Map/GameTiles.ts:40-73 | `manhattanLine` never reaches `p2` |
| `GameTilesModel.WalkLinked` | src/Map/GameTiles.ts:40-73 | a walk with both ends added is a chain |
| `GameTilesModel.LinkedJoin` | src/Map/GameTiles.ts:137-186 | two chains meeting at equal or adjacent points join |
| `GameTilesModel.CorridorLinked` | src/Map/GameTiles.ts:137-186 | the corrected corridor is a chain of 4-adjacent points from one entrance to the other |
| `GameTilesModel.CorridorCovers` | src/Map/GameTiles.ts:137-186 | the chain visits exactly the points the corrected corridor paints |
| `GameTilesModel.AsWrittenDiffers` | src/Map/GameTiles.ts:178-185 | the written list differs from the corrected one only in the twice-offset second entrance |
| `GameTilesModel.LinkedStaysOnSegment` | src/Map/GameTiles.ts:178-185 | a chain of painted points that starts on a row segment no other painted point touches stays on it |
| `GameTilesModel.RowRouteOnSegment` | src/Map/GameTiles.ts:40-73 | a route along one row stays on that row and stops one column short of its end |
| `GameTilesModel.AsWrittenSplits` | src/Map/GameTiles.ts:178-185 | when the first entrance stays put on the row above the second and the second is offset left then up, the twice-offset second entrance lies on the corrected corridor but not on the written list, and no chain of painted 4-neighbours joins the two entrances |
| `GameTilesModel.AsWrittenLeavesHole` | src/Map/GameTiles.ts:178-185 | the entrances `(-5, -1)` of room `Rect(10, 10, 0, 0, 1, 1)` and `(0, 0)` of room `Rect(0, 0, 1, 1, 4, 4)` meet the conditions of `GameTilesModel.AsWrittenSplits` |
| `GameTilesModel.PathLists` | src/Map/GameTiles.ts:137-186 | one point list per edge: the corrected corridor for an edge with entrances, none otherwise |
| `GameTilesModel.PathListsLinked` | src/Map/GameTiles.ts:137-186 | every edge with entrances gets a connected corridor from the first entrance to the second |
| `Grid.PaintNext` | src/Map/GameTiles.ts:138-186 | painting list `i` after the ones before paints the lists up to `i`; `setPaths` in both `GameTiles.ts` and `map.ts` (src/Map/map.ts:206-228) paints edge by edge this way |
| `GameTilesModel.CorridorPoints` | src/Map/GameTiles.ts:144-185 | one edge's corrected corridor points, in painting order |
| `GameTilesModel.SetPathsOf` | src/Map/GameTiles.ts:137-186 | `setPaths` paints every corrected corridor in order |
| `GameTilesModel.SetTilesFacts` | src/Map/GameTiles.ts:277-292 | room-area tiles are walls or inside tiles, every other tile is outside or path, a path through a wall opens it into the interior, inside tiles have distance 0, and no tile is a door |
| `GameTilesModel.GameTiles.constructor` | src/Map/GameTiles.ts:9-16 | `width * height` outside tiles, tile `(i, j)` at index `i * height + j`, and no corners |
| `GameTilesModel.GameTiles.ClearTiles` | src/Map/GameTiles.ts:281-284 | the reset |
| `GameTilesModel.GameTiles.SetWalls` | src/Map/GameTiles.ts:206-223 | each room's walls become its walls, room by room |
| `GameTilesModel.GameTiles.SetPaths` | src/Map/GameTiles.ts:137-186 | every edge's corrected corridor is painted as a path |
| `GameTilesModel.GameTiles.SetInsides` | src/Map/GameTiles.ts:118-135 | each room's non-wall area becomes its interior |
| `GameTilesModel.GameTiles.SetDistances` | src/Map/GameTiles.ts:242-275 | the seeded and relaxed distances |
| `GameTilesModel.GameTiles.SetDualTiles` | src/Map/GameTiles.ts:294-311 | the corner grid of the current tiles |
| `GameTilesModel.GameTiles.SetTiles` | src/Map/GameTiles.ts:277-292 | reset, walls, corrected paths, interiors, one distance pass, then the corner grid |
| `GameMapModel.IsInBoundsOf` | src/Map/map.ts:276-296 | the area scan is true iff every area point keeps the margin |
| `GameMapModel.FitsIff` | src/Map/map.ts:276-296 | every area point keeps the margin iff the footprint's first and last columns and rows do |
| `GameMapModel.MapEdgeFacts` | src/Map/map.ts:205-229 | the older corridor starts at the entrance facing the other room, walks in 4-steps of Manhattan length and stops next to the other entrance |
| `GameMapModel.EdgeEntrances` | src/Map/map.ts:211-214 | both rooms' entrances per edge |
| `GameMapModel.MapPathLists` | src/Map/map.ts:205-229 | one corridor per edge |
| `GameMapModel.MapPathsOf` | src/Map/map.ts:205-229 | `setPaths` paints every corridor |
| `GameMapModel.MapTilesFacts` | src/Map/map.ts:172-247 | room-area tiles are walls or inside tiles and all others outside or path; a parent iff inside; a corridor through a wall opens it |
| `GameMapModel.GrowThenUndo` | src/Map/map.ts:316-361 | on a proper room growth never reverts, and the matching shrink undoes it |
| `GameMapModel.StalledAsWrittenResets` | src/Map/map.ts:444-448 | comparing two promises always resets the counter |
| `GameMapModel.NextStalled` | src/Map/map.ts:444-448 | the counter grows by one or resets |
| `GameMapModel.StalledCounts` | src/Map/map.ts:444-448 | an unchanged layout grows the counter; any change resets it |
| `GameMapModel.NearestInFacts` | src/Map/graph.ts:101-122 | the nearest room is unique; room 0 is its own nearest room, and any other room's nearest room is a different room |
| `GameMapModel.NearestAtTurnsNext` | src/Map/map.ts:433-440 | moving the next room away from its nearest room extends the record that every room so far moved away from the nearest room at its turn |
| `GameMapModel.PrunedFacts` | src/Map/graph.ts:222-234 | pruning a drawn edge that is a link keeps a connected graph connected and an undirected graph undirected, only losing links |
| `GameMapModel.ApartIfClear` | src/Map/map.ts:298-300 | a room no other buffered area reaches shares no floor tile with it |
| `GameMapModel.Adjusted` | src/Map/map.ts:414-416 | the three moves of `iterate` keep the number of rooms |
| `GameMapModel.BlockedOthers` | src/Map/map.ts:418-421 | the blocking test looks only at the other rooms |
| `GameMapModel.NudgedFacts` | src/Map/map.ts:362-397 | a nudge leaves the room or moves it by exactly the step into a position that is in bounds and clear |
| `GameMapModel.GrownFacts` | src/Map/map.ts:316-361 | growth tries top, right, bottom, left and keeps the first that is in bounds and clear |
| `GameMapModel.LastDraw` | src/Map/map.ts:348-360 | the geometry of the last entrance re-draw of `increaseSize` and the cursor after it: four draws per kept growth, eight per growth shrunk back, so four to `8 * (4 - i)` draws from direction `i` on |
| `GameMapModel.GrowDrawsLast` | src/Map/map.ts:348-360 | every try replaces the entrances, so those `increaseSize` leaves are the last ones drawn |
| `GameMapModel.LastDrawGrown` | src/Map/map.ts:348-360 | the last re-draw is for the geometry `increaseSize` leaves |
| `GameMapModel.GrowDrawsFacts` | src/Map/map.ts:316-361 | `increaseSize` leaves entrances drawn for the grown room from the last four of the four to thirty-two draws it uses |
| `GameMapModel.Moved` | src/Map/map.ts:415-416 | the two translations keep the number of rooms |
| `GameMapModel.IterateDrawsFacts` | src/Map/map.ts:399-430 | after `iterate` the room's entrances are drawn for the geometry it ends with, from the last four of the four to thirty-two draws it uses; the restore puts back the geometry, never the entrances |
| `GameMapModel.IteratedRoom` | src/Map/map.ts:419-429 | the restore never changes anything: the room ends as the grown room after the two translations |
| `GameMapModel.IteratedFacts` | src/Map/map.ts:399-430 | `iterate` changes only its room and keeps it proper; the room is unchanged or in bounds and clear, so the restore, which runs when the three moves left a room that was already blocked as it was, never changes anything: the result is the three moves |
| `GameMapModel.IteratedSettled` | src/Map/map.ts:399-430 | `iterate` keeps a settled layout settled |
| `GameMapModel.Relaid` | src/Map/map.ts:436-440 | the loop over the rooms keeps their number |
| `GameMapModel.RelaidFacts` | src/Map/map.ts:436-440 | the loop keeps every room proper and a settled layout settled |
| `GameMapModel.RelaidNext` | src/Map/map.ts:436-440 | one more room extends the loop by one `iterate` |
| `GameMapModel.RelaidDraws` | src/Map/map.ts:436-440 | the entrances and cursor after the loop: one entrance set per room |
| `GameMapModel.RelaidDrawsNext` | src/Map/map.ts:436-440 | one more room changes only that room's entrances and advances the cursor by what its `iterate` draws |
| `GameMapModel.RelaidDrawsFacts` | src/Map/map.ts:436-440 | after the loop every iterated room's entrances are drawn for its final geometry, the others keep theirs, and the loop uses four to thirty-two draws per room |
| `GameMapModel.DrawnInRange` | src/Map/node.ts:93-98 | entrances drawn for a proper room lie within its sides |
| `GameMapModel.Resize` | src/Map/map.ts:320-346 | the room's geometry becomes the resized rectangle for the named direction; a kept change redraws the entrances for the new geometry from the next four draws, a reverted one keeps them and draws nothing |
| `GameMapModel.GameMap.constructor` | src/Map/map.ts:91-120 | `width * height` outside tiles at `i * height + j`, no corners, counter 0 |
| `GameMapModel.GameMap.IsInBounds` | src/Map/map.ts:276-296 | `isInBounds` iff the footprint keeps the margin |
| `GameMapModel.GameMap.Overlapping` | src/Map/map.ts:298-300 | `overlaps` iff another room's buffered area reaches the room |
| `GameMapModel.GameMap.SetTiles` | src/Map/map.ts:172-184 | reset, walls, corridors and interiors, from the current rooms |
| `GameMapModel.GameMap.SetDualTiles` | src/Map/map.ts:249-266 | the corner grid of the current tiles |
| `GameMapModel.GameMap.Shift` | src/Map/map.ts:362-397 | a translation moves only room `k` |
| `GameMapModel.GameMap.TryMove` | src/Map/map.ts:362-397 | translate, then translate back when blocked |
| `GameMapModel.GameMap.Blocked` | src/Map/map.ts:418-421 | `overlaps(node) or not isInBounds(node)` with the default buffers |
| `GameMapModel.GameMap.MoveAwayFromNearestNode` | src/Map/map.ts:362-380 | a step of `(plus or minus 1, plus or minus 1)` away from the nearest room, kept only when in bounds and clear |
| `GameMapModel.GameMap.MoveAwayFromNearestEdge` | src/Map/map.ts:382-397 | a step of `(plus or minus 1, plus or minus 1)` chosen by the sign against the map's centre, kept only when in bounds and clear |
| `GameMapModel.GameMap.Reshape` | src/Map/map.ts:320-346 | `add*`/`remove*` change only room `k`, whose geometry becomes the resized rectangle; a kept change redraws its entrances from the next four draws, a reverted one draws nothing |
| `GameMapModel.GameMap.TryGrow` | src/Map/map.ts:348-360 | one direction grows the room and keeps the growth iff in bounds and clear; a kept growth draws four times, for the grown room; a blocked one draws eight times and leaves entrances drawn for the restored room |
| `GameMapModel.GameMap.IncreaseSize` | src/Map/map.ts:316-361 | growth in the fixed order top, right, bottom, left, stopping at the first kept one; the entrances and the number of draws are those of every try in turn (`GameMapModel.GrowDrawsFacts`) |
| `GameMapModel.GameMap.Restore` | src/Map/map.ts:423-429 | the snapshot restore puts room `k` back |
| `GameMapModel.GameMap.Adjust` | src/Map/map.ts:413-417 | the three moves of `iterate` away from the nearest room, with the entrances and draws of its `increaseSize` |
| `GameMapModel.GameMap.Iterate` | src/Map/map.ts:399-430 | `iterate`, with restore on a blocked result; the entrances and the number of draws are those of its `increaseSize` (`GameMapModel.IterateDrawsFacts`) |
| `GameMapModel.GameMap.IterateRoom` | src/Map/map.ts:436-440 | `iterate` on room `k` moves it away from `j`, the nearest room in the layout as it stands (earliest on ties, `GameMapModel.NearestIn`), and changes only that room's entrances among all the rooms |
| `GameMapModel.GameMap.ClosestIsNearest` | src/Map/graph.ts:101-122 | over distinct rooms, `getClosestNode` on room `k` answers room `j` exactly when `j` is the nearest room to `k` in the layout |
| `GameMapModel.GameMap.ShuffleNodes` | src/Map/map.ts:470-482 | the list comes back unchanged |
| `GameMapModel.GameMap.Relayout` | src/Map/map.ts:433-440 | the loop iterates every room in list order; the entrances of all rooms and the draws used are those of every `iterate` in turn (`GameMapModel.RelaidDrawsFacts`); each room `i` moves away from `js[i]`, the nearest room in the layout as it stood at room `i`'s turn |
| `GameMapModel.GameMap.Prune` | src/Map/map.ts:442 | `removeRandomConnection` keeps the rooms and their entrances, uses one draw, and leaves exactly the links and the connection lists of the guarded removal of the drawn edge (`Reach.GuardedRemoval`, `Graph.GuardedUnlinkListsFacts`): a traversable graph stays traversable and links are only removed |
| `GameMapModel.GameMap.TilesReady` | src/Map/map.ts:172-184 | the graph's edges have proper rooms among the graph's rooms |
| `GameMapModel.GameMap.MarkEnds` | src/Map/map.ts:452 | `findMostDistancedNodes` as seen from the map: with two or more rooms the farthest pair becomes the graph's start and end, and exactly those two rooms carry the start and end flags; with fewer nothing is marked (the source throws); rooms, entrances and links stay |
| `GameMapModel.GameMap.Repaint` | src/Map/map.ts:453-454 | redrawing after the marking keeps the marks, rooms, links and entrances, and redraws both grids |
| `GameMapModel.GameMap.Paint` | src/Map/map.ts:453-454 | `setTiles` then `setDualTiles`; rooms, positions and links are unchanged |
| `GameMapModel.GameMap.Relay` | src/Map/map.ts:433-440 | the layout loop keeps the links and the edges, keeps rooms proper and a settled layout settled, and leaves the entrances and draws of every `iterate` in turn; each room moves away from the nearest room at its turn |
| `GameMapModel.GameMap.Rearrange` | src/Map/map.ts:433-442 | the layout loop then the pruning: geometry (each room moving away from the nearest room at its turn), entrances, draws, links and connection lists as `Relay` and `Prune` state, the pruning using the draw after those of the layout loop |
| `GameMapModel.GameMap.Move` | src/Map/map.ts:432-450 | the layout loop, each room moving away from the nearest room at its turn, then the guarded removal of the drawn edge with the draw after the loop's, on the links and on every connection list, then the stalled-step counter as intended; the entrances and draws are those of every `iterate` in turn, and the grids are untouched |
| `GameMapModel.GameMap.Count` | src/Map/map.ts:444-450 | the counter as intended; nothing else changes |
| `GameMapModel.GameMap.Step` | src/Map/map.ts:431-455 | `step` relays every room (geometry, each room moving away from the nearest room at its turn, entrances and draws of each `iterate`), prunes by the guarded removal (links and connection lists, whose order the next step's draw indexes), updates the counter, then with two or more rooms marks the farthest pair `bi`, `bj` as the only start and end rooms and redraws both grids; with fewer nothing is redrawn |
| `GameMapModel.GameMap.Finish` | src/Map/map.ts:452-454 | with two or more rooms, the farthest pair `bi`, `bj` becomes the graph's start and end node and the only rooms flagged start and end, and the tiles become the drawing of the current rooms and corridors with the corner grid built from them; with fewer, nothing is redrawn; rooms, links and entrances stay |
| `Factory.TemplatesWellFormed` | src/Map/NodeFactory.ts:25-152 | every template's type is its key; its entrance list is non-empty with indices in `[1, len - 2]`; width plus x jitter and height plus y jitter are 8 |
| `Factory.TemplateWellFormed` | src/Map/NodeFactory.ts:25-152 | the same for one key |
| `Factory.KeysListed` | src/Map/NodeFactory.ts:165-171 | the seven keys in literal order, each once, are exactly the template keys |
| `Factory.Jittered` | src/Map/NodeFactory.ts:154-163 | type and entrances copied, the template's size, origin within the jitter |
| `Factory.JitteredInCell` | src/Map/NodeFactory.ts:154-163 | a jittered room stays inside its 8 by 8 cell |
| `Factory.CreateNode` | src/Map/NodeFactory.ts:154-163 | two draws jitter the origin by `0..maxXOffset` and `0..maxYOffset` |
| `Factory.CreateRandomNode` | src/Map/NodeFactory.ts:165-171 | the key at index `randomInt(0, 6)` in literal order, then `createNode` |

## Left out

- **Hashing.** `createHash` and every `hash()` are treated as a foreign
  digest: the stalled-step counter compares the room geometry itself,
  assuming the digest is collision-free. The node digest covers the six
  geometry fields, which is what the map digest evidently means to combine
  (see Findings).
- **Floating point.**
  - `getDistance` takes a square root; the model compares squared distances,
    which keeps the same order.
  - `getCenter`, the `covered` ratio, the constructor's centring translation
    and the `graphCenter`/`mapCenter`/`center` values computed at the head of
    `iterate` (which nothing reads) are left out.
  - The real draws of `random()` are kept, but only their range and the floor
    formula matter.
- **The random source.**
  - `seed-random` and `setSeed` become a supplied stream of draws.
  - The unseeded `Math.random` of `shuffleNodes` and `increaseSize` is an
    arbitrary index; its swap writes only to locals, so it changes nothing.
- **Ids and constructors.**
  - `uuid` ids are supplied values.
  - `MapGraph.createDefaultMapGraph` is not part of this model, so
    `GameMap.fromJSON` and `setSeed` are left out too. The `GameMap`
    constructor takes its graph and tile ids as arguments and does not centre
    the graph.
  - The eight-argument `MapNode` constructor and the `NodeData`/`EntranceI`
    types are not part of this model: `createNode` returns a `Room` record,
    and `data` is left out (it is empty in every template).
- **Missing methods.** `getEntraceClosestToNode` and `getEntrances` are called
  on rooms but are not part of this model. The entrances `GameTiles.setPaths`
  uses come in as a parameter, one optional pair per edge. `setDoors`, which
  needs them, is commented out of `setTiles` and left out.
- **Unused or duplicate code.**
  - `inflateNode` is never called.
  - `getClosestNeighbor`, `translate`, `getCenter`,
    `removeRandomCrossedConnection`, `getNode`, `placeOccupied`,
    `areaOccupied`, `addNode`, `getConnections` and `getNodes` of `MapGraph`
    are outside the modelled operations.
  - `GameMap.toJSON`/`fromJSON`, `GameTiles.getDualTile`, `toString` dumps,
    `MapTileOptional` and the tile field `connectedNodes` (never read) are
    left out.
  - The copies of `MapTile` and `MapDualTile` in `map.ts` behave like the
    standalone files and are modelled once.
  - `makeLine` in `map.ts` (src/Map/map.ts:125-145) is the same function as
    `makeLine` in `GameTiles.ts` (src/Map/GameTiles.ts:18-38); both are
    modelled once, by `Lines.Line` and `Lines.MakeLine`.
- **Aliasing.** Tiles are values held in a sequence, so the corner grid holds
  copies of tiles rather than references. The copies are taken after the last
  repaint, so they agree with the live tiles when built, but later updates of
  a tile do not show in the corners.
- `GameTilesModel.GameTiles.SetTiles`: the entrances of each edge are an input
  rather than computed from the rooms (see Missing methods). The corridors it
  paints are the corrected ones (see Findings): where the source paints the
  once-offset first entrance a second time, the model paints the twice-offset
  second entrance.
- `GameTilesModel.CorridorPoints`: collects the corrected list `EdgePoints`,
  not the list the source paints, `EdgePointsAsWritten`, which leaves out the
  twice-offset second entrance. `GameTilesModel.AsWrittenDiffers` states the
  difference.
- `GameTilesModel.PathLists`: the corrected corridor per edge, as for
  `CorridorPoints`.
- `GameTilesModel.PathListsLinked`: is proved for the corrected corridors. For
  the source's own list `GameTilesModel.AsWrittenSplits` shows that it can
  fail.
- `GameTilesModel.SetPathsOf`: paints the corrected corridors, as for
  `CorridorPoints`.
- `GameTilesModel.GameTiles.SetPaths`: paints the corrected corridors, as for
  `CorridorPoints`.
- `GameMapModel.GameMap.Step`: with fewer than two rooms the source's
  `findMostDistancedNodes` throws out of `step`, after the layout loop, the
  pruning and the counter have taken effect, and the grids are not redrawn.
  The model ends `step` in the same state but returns normally; an exception
  is not modelled.
- `GameMapModel.GameMap.Finish`: the same throw with fewer than two rooms is
  a normal return that redraws nothing.
- `GameMapModel.GameMap.MarkEnds`: the same throw is a `false` answer that
  marks nothing.
- `GameMapModel.GameMap.Count`: updates the counter with `NextStalled`, which
  compares the rooms' geometry, not with `NextStalledAsWritten`, the source's
  comparison of two promises, which always resets it (src/Map/map.ts:444-448,
  see Findings).
- `GameMapModel.GameMap.Move`: its counter update is `NextStalled`, as for
  `Count`, not the always-resetting `NextStalledAsWritten`.
- `GameMapModel.GameMap.Step`: its counter update is `NextStalled`, as for
  `Count`, not the always-resetting `NextStalledAsWritten`.
- `Graph.NodePath`: is the corrected search `Paths.PathFromFixed`, which tries
  the next connection after an empty recursive answer; the source returns
  that empty answer (src/Map/graph.ts:403-405, see Findings).
- `Graph.MapGraph.GetPath`: states the corrected search (see Findings). The
  written search is `Paths.PathFrom`, for which only soundness is proved.
- `Graph.MapGraph.RemoveNode`: requires the room to be present. For an absent
  room `splice(-1, 1)` would drop the last room.
- `Graph.MapGraph.FindMostDistancedNodes`: the throw on fewer than two rooms
  is a `None` answer that changes nothing.
- `GraphJson.FromJson`: the keys of the id-to-record object are taken in
  order of first appearance. JavaScript's `Object.keys` lists integer-like
  keys first, in ascending order, and the other keys after them in insertion
  order. The two orders agree when no id is an integer-like string, as with
  `uuid` ids. With integer-like ids the source would create and link the
  rooms in a different order.

## Findings

| source | as written | input that shows it | evidently intended | confidence | as-written member | corrected member |
|---|---|---|---|---|---|---|
| src/Map/graph.ts:403-405 | `if (path) return path` returns the recursive answer even when it is an empty array, which is truthy, so later connections are never tried | connection lists `0: [1, 2]`, `1: [0]`, `2: []`; `getPath(0, 2)` recurses into 1, gets `[]` back and returns `[]`, although 2 is a direct neighbour of 0 | return only a non-empty recursive answer and otherwise try the next connection, so a path is found whenever one exists | not executed | `Paths.PathAsWrittenMissesNeighbour` | `Paths.PathFixedIff` |
| src/Map/GameTiles.ts:180-181 | after fetching tile `e` at the twice-offset second entrance, the code paints `en1` again instead of `e` | first entrance `(-5, -1)` of room `Rect(10, 10, 0, 0, 1, 1)`, second entrance `(0, 0)` of room `Rect(0, 0, 1, 1, 4, 4)` (origin, then `x0, y0, x1, y1`; `GameTilesModel.AsWrittenLeavesHole`). The painted points are `(-5, -1)` to `(-2, -1)`, `(-1, 0)` and `(0, 0)`. The twice-offset second entrance `(-1, -1)` is never painted, so no chain of painted 4-neighbours joins the two entrances | paint `e`, so the corridor is a connected chain of path tiles from entrance to entrance | not executed | `GameTilesModel.AsWrittenSplits` | `GameTilesModel.CorridorLinked` |
| src/Map/map.ts:444-448 | `hash()` is async, so `newHash === hash` compares two distinct Promise objects and is always false; even awaited, the map digest joins the rooms' `hash()` Promises as text, so it would not reflect the geometry | any step in which no room moves: the counter is reset to 0 instead of incremented | compare digests of the room geometry, so the counter counts consecutive steps that change nothing | not executed | `GameMapModel.StalledAsWrittenResets` | `GameMapModel.StalledCounts` |
