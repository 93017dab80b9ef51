# willson-pathfinding grid reachability engine, in Dafny

This project models the core of a grid pathfinder for entities moving on a
room grid. The core has five parts:

- **Coordinate codec.** A grid position (x, y) with both coordinates in
  [-2, 29] is packed into a single integer key, the *flat key*, with row
  stride 32. Shape bounds decide which positions lie inside a room of a
  given shape.
- **Cell snapshot.** Each cell's content is recorded as a
  (type, variant, state) triple. An absent entity is the sentinel
  (-1, -1, -1).
- **Containers.** The code uses two thin map and set wrappers, and a
  binary min-heap with a membership table.
- **Connectivity map (`RoomData`).** There is one map per collision class,
  from flat key to area label; -1 means impassable. The maps are built by
  flood fill with an explicit stack. They are repaired tile by tile when a
  cell's passability flips. They answer "can X reach Y at all" by comparing
  labels.
- **Search.** Weighted A* runs over flat keys. A `Pathfinder` per entity
  runs the connectivity pre-check, then A* with Manhattan distance. It
  stores the path goal first, and its neighbour filter always admits the
  goal.

The live room is a function parameter `LiveRoom = FlatKey -> Option<GridEntity>`
in the model. Likewise, the room data the pathfinder consults is passed to
each call. The source instead uses the host's room query and a static
singleton.

What is proved:

- The codec is a bijection on its domain, and shifting a key is linear.
- Every valid position lies inside the codec domain.
- The heap's operations keep the heap property and the multiset of entries.
  Pop returns a minimum.
- A flood fill labels only passable cells reachable from its start. It writes
  only the start and in-bounds neighbours of cells it filled. Every in-bounds
  neighbour of a cell it fills ends up filled too, or blocked.
- After a rebuild, every cached tile is labelled in all four maps, and a
  label is -1 exactly when the tile is impassable. Two open tiles share a
  label exactly when one reaches the other, so `isPathPossible` between an
  open tile and another tile is exactly reachability.
- Adding a tile floods its first labelled neighbour's area over it, or gives
  it a fresh label.
- Removing a tile floods, from each labelled neighbour whose label was not
  handed out earlier in the same call, a fresh label. Every key that ends with
  fresh label l is reached from the neighbour l was flooded from. Every
  in-bounds neighbour of such a key carries l too, or is blocked at -1. Every
  key the refill sets to -1 is a seed or a neighbour of a freshly labelled
  key. Seeds are distinct labelled neighbours, so the counter grows by at most
  the number of labelled neighbours.
- An incremental update leaves the cache equal to the live room. It records
  the labelling before and after each tile. Each step adds or removes the tile
  in exactly the classes whose verdict on it flipped.
- During A*, no recorded g score ever rises, and every f score is g plus
  epsilon times the heuristic to the goal. The open set holds each key at
  most once, and its membership table is exactly the queued keys.
- A path found by A* starts at the goal and ends at the start. Its positions
  are distinct, and each step is one the neighbour function offered.
- A* expands at most `fuel` keys and reports running out of fuel only after
  exactly `fuel` expansions. The expanded keys start with the start, never
  include the goal, and each is the start or was offered as a neighbour of an
  earlier one.
- When A* reports no path, the keys it expanded form a closed region that
  contains the start and not the goal. No walk of neighbour steps from the
  start can then reach the goal.
- A path stored by the pathfinder is walkable: each step is a cardinal step,
  and each position on it other than the start is the goal or passable.

Positions are integers throughout. The source's `Math.round` is the
identity on the integer positions it is given.

`addPassableTile` (`src/pathfinding/roomData.ts:228-259`) floods from the new
tile with its first labelled neighbour's label. The flood pushes every open
neighbour whose label differs from that label. So a second neighbouring area
that becomes connected through the new tile is relabelled too: the areas
merge. The model follows the code (`Rooms.AddJoinsOpenNeighbors`), even though
the neighbour loop reads as if only the first neighbour were joined.

`roomData.ts:200` calls `cachedEntity.equals(actualEntity)`, but
`GridEntityData` defines no `equals`. The model compares with `sameAs`, the
field-wise comparison the class does define.

`roomData.ts` imports `isValidFlatGridPosition` from the codec file, but that
file does not define it. The model defines it as `isValidGridPosition` of the
expanded key (`Utils.IsValidFlatGridPosition`). It uses the repository's own
`isValidGridPosition` from `src/utils/utils.ts`.

## Model

| member | source | states |
|---|---|---|
| FlatGridVector.FlattenVector | src/utils/flatGridVector.ts:7-11 | a position inside [-2, 29]² gets a key in [0, 1024) |
| FlatGridVector.ExpandVector | src/utils/flatGridVector.ts:13-18 | flattening the expanded position gives the key back, for every key; keys in [0, 1024) expand into the domain |
| FlatGridVector.ShiftFlat | src/utils/flatGridVector.ts:20-26 | the shifted key is the key of the position moved by (dx, dy) |
| FlatGridVector.ShiftIsDomainWidth | src/utils/flatGridVector.ts:1-3 | the row stride is 32, the width of [-2, 29] |
| FlatGridVector.ExpandFlatten | src/utils/flatGridVector.ts:7-18 | expand after flatten is the identity on the domain |
| FlatGridVector.FlattenExpand | src/utils/flatGridVector.ts:7-18 | flatten after expand is the identity on every key |
| FlatGridVector.FlattenBijective | src/utils/flatGridVector.ts:7-18 | flattening is injective on the domain, and onto [0, 1024) |
| FlatGridVector.ExpandInjective | src/utils/flatGridVector.ts:13-18 | distinct keys expand to distinct positions |
| FlatGridVector.ShiftFlattenLinear | src/utils/flatGridVector.ts:20-26 | shifting a position's key by (dx, dy) gives the key of the shifted position |
| FlatGridVector.ShiftIdentityAndCompose | src/utils/flatGridVector.ts:20-26 | a zero shift is the identity, and two shifts compose by adding their offsets |
| FlatGridVector.ShiftWrapsAtEdge | src/utils/flatGridVector.ts:20-26 | one step +x from column 29 lands on column -2 of the next row |
| Utils.IsValidGridPosition | src/utils/utils.ts:2-87 | a valid position lies in [0, 25] × [0, 13] |
| Utils.NegativeIsInvalid | src/utils/utils.ts:6-8 | a negative coordinate is invalid for every shape |
| Utils.OneByOneAndDefault | src/utils/utils.ts:11-16 | the 1x1 shape and every unlisted shape accept exactly [0, 12] × [0, 6] |
| Utils.Corridors | src/utils/utils.ts:17-46 | the exact cells of the IH, IIH, IV and IIV corridors |
| Utils.LShapes | src/utils/utils.ts:47-83 | each L shape is the 26×14 rectangle less one 13×7 quadrant; 2x2 is the whole rectangle |
| Utils.ValidIsInsideLargestRoom | src/utils/utils.ts:2-87 | a position valid for any shape is valid for 2x2, lies in the codec domain, and has a key in [0, 1024) |
| Utils.ValidFlatKeyInRange | src/pathfinding/roomData.ts:20 | a key valid for some shape lies in [0, 1024) |
| GridEntities.FromEntity | src/utils/gridEntityData.ts:6-16 | an absent entity gives (-1, -1, -1); a present one copies its type, variant and state |
| GridEntities.AbsentIsUndefined | src/utils/gridEntityData.ts:6-20 | an absent entity is undefined; a snapshot is undefined iff its triple is the sentinel |
| GridEntities.IsUndefined | src/utils/gridEntityData.ts:18-20 | true iff the snapshot is the absent sentinel (-1, -1, -1) |
| GridEntities.AreIdentical | src/utils/gridEntityData.ts:26-28 | true iff the two snapshots are equal as values |
| GridEntities.SameAs | src/utils/gridEntityData.ts:30-32 | true iff the two snapshots are equal, so it agrees with areIdentical |
| Wrappers.Get | src/utils/fastMap.ts:16-18 | a lookup is present iff the key is stored, and then holds the stored value |
| FastMaps.FastMap.constructor | src/utils/fastMap.ts:8-10 | a new map holds no key |
| FastMaps.FastMap.Set | src/utils/fastMap.ts:12-14 | the key now maps to the value; every other key is unchanged |
| FastMaps.FastMap.Get | src/utils/fastMap.ts:16-18 | present iff the key is stored, with the stored value |
| FastMaps.FastMap.Has | src/utils/fastMap.ts:20-22 | true iff the key is stored |
| FastMaps.FastMap.Delete | src/utils/fastMap.ts:24-26 | the key is gone; every other key is unchanged |
| FastSets.FastSet.constructor | src/utils/fastSet.ts:7-9 | a new set is empty |
| FastSets.FastSet.Add | src/utils/fastSet.ts:11-13 | the element joins the set; membership of every other element is unchanged |
| FastSets.FastSet.Has | src/utils/fastSet.ts:15-17 | true for a member, undefined (None) for a non-member, never false |
| FastSets.FastSet.Delete | src/utils/fastSet.ts:19-21 | the element leaves the set; membership of every other element is unchanged |
| PriorityQueue.ParentOfChildren | src/utils/priorityQueue.ts:17-27 | left and right of i have parent i, and a non-root's parent comes before it |
| PriorityQueue.ValueSeq | src/utils/priorityQueue.ts:1-4 | the values of the heap entries, position by position |
| PriorityQueue.HeapRootIsMin | src/utils/priorityQueue.ts:51-53 | in a min-heap, the root's priority is at most that of every entry |
| PriorityQueue.SwapPreserves | src/utils/priorityQueue.ts:37-41 | a swap keeps the multiset of entries and of values |
| PriorityQueue.SiftUpStep | src/utils/priorityQueue.ts:68-76 | one swap with a larger parent moves the single heap violation up to the parent |
| PriorityQueue.SiftUpDone | src/utils/priorityQueue.ts:68-72 | once the parent is not larger (or the root is reached), the heap property holds |
| PriorityQueue.PopSplit | src/utils/priorityQueue.ts:80-85 | swapping the root to the end and dropping it removes a minimum and leaves a heap with one violation at the root |
| PriorityQueue.SmallerChild | src/utils/priorityQueue.ts:89-96 | the left child, or the right one when it exists and is strictly smaller; its priority is at most that of each child |
| PriorityQueue.SiftDownStep | src/utils/priorityQueue.ts:88-103 | one swap with the smaller child that is not larger moves the violation down to that child |
| PriorityQueue.SiftDownDone | src/utils/priorityQueue.ts:88-100 | once there is no left child, or the smaller child is larger, the heap property holds |
| PriorityQueue.MinPriorityQueue.constructor | src/utils/priorityQueue.ts:10-11 | a new queue is an empty valid heap |
| PriorityQueue.MinPriorityQueue.Swap | src/utils/priorityQueue.ts:37-41 | the two entries trade places; entries and membership are kept |
| PriorityQueue.MinPriorityQueue.IsEmpty | src/utils/priorityQueue.ts:47-49 | true iff the size is 0 |
| PriorityQueue.MinPriorityQueue.Peek | src/utils/priorityQueue.ts:51-53 | undefined iff empty; otherwise the root value, whose priority is minimal |
| PriorityQueue.MinPriorityQueue.SizeCountsValues | src/utils/priorityQueue.ts:55-57 | the size is the number of values in the heap, repeats included; it is 0 iff there are none |
| PriorityQueue.MinPriorityQueue.HasIsQueued | src/utils/priorityQueue.ts:59-61 | in a valid queue, an item the membership table holds is the value of some entry |
| PriorityQueue.MinPriorityQueue.Insert | src/utils/priorityQueue.ts:63-77 | the heap gains exactly the new entry and stays a heap; the item is a member |
| PriorityQueue.MinPriorityQueue.SiftUp | src/utils/priorityQueue.ts:67-76 | from a heap with one violation at curIndex, restores the heap property without changing the entries |
| PriorityQueue.MinPriorityQueue.Pop | src/utils/priorityQueue.ts:79-107 | empty: undefined and no change; otherwise the old root's value is returned and removed, its priority is at most every remaining one, and the rest is a heap of the remaining entries |
| PriorityQueue.MinPriorityQueue.SiftDown | src/utils/priorityQueue.ts:87-104 | from a heap with one violation at the root, restores the heap property without changing the entries |
| Passability.IsGridDataPassable | src/pathfinding/roomData.ts:354-411 | an absent cell is passable for every class except PITS_ONLY |
| Passability.AbsentAndPitsOnly | src/pathfinding/roomData.ts:358-359 | an undefined snapshot passes every class but PITS_ONLY; under PITS_ONLY exactly an intact pit (state 0) passes |
| Passability.WallsBlockOnlyWalls | src/pathfinding/roomData.ts:364-375 | under WALLS and every unlisted class, a cell is blocked iff it is a wall, pillar or door |
| Passability.GroundPassesOnlyListed | src/pathfinding/roomData.ts:381-405 | under GROUND and BULLET only the listed types and broken or exploded states pass; walls and unbroken rocks block |
| Passability.NoPitsAddsPits | src/pathfinding/roomData.ts:376-380 | NO_PITS passes exactly what GROUND passes plus pits; GROUND ⊆ NO_PITS ⊆ WALLS |
| Passability.CardinalNeighbors | src/pathfinding/roomData.ts:443-452 | four keys, none equal to the position |
| Passability.CardinalNeighborsAreAdjacent | src/pathfinding/roomData.ts:443-452 | away from the codec's x edges, the four keys are the positions one step −x, +x, −y, +y |
| Passability.NeighborSymmetric | src/pathfinding/roomData.ts:443-452 | the neighbour relation is symmetric |
| Connectivity.ReachesSelf | src/pathfinding/roomData.ts:126-171 | an open cell reaches itself |
| Connectivity.ReachesTransitive | src/pathfinding/roomData.ts:126-171 | reachability through open in-bounds cells is transitive |
| Connectivity.ReachesSymmetric | src/pathfinding/roomData.ts:126-171 | reachability from an in-bounds cell is symmetric |
| Connectivity.ClosedLabelSpreads | src/pathfinding/roomData.ts:126-171 | a walk that starts on a closed label keeps that label at every cell |
| Connectivity.ReachedKeepsLabel | src/pathfinding/roomData.ts:126-171 | whatever a key with a closed label reaches carries the same label |
| Connectivity.FilledAreReached | src/pathfinding/roomData.ts:139-166 | every key the fill labels is reached from the start |
| Connectivity.Pushed | src/pathfinding/roomData.ts:153-166 | the neighbours pushed are exactly the in-bounds ones neither queued nor already labelled with the fill, each once |
| Connectivity.ScanNeighbors | src/pathfinding/roomData.ts:153-166 | the stack and the queued set grow by exactly the pushed neighbours |
| Connectivity.OriginStep | src/pathfinding/roomData.ts:143-166 | one pop keeps every stacked and every changed key the start or an in-bounds neighbour of a key already filled |
| Connectivity.OriginDone | src/pathfinding/roomData.ts:126-171 | when the stack is empty, every changed key is the start or an in-bounds neighbour of a reached key labelled with the fill |
| Connectivity.FloodFillArea | src/pathfinding/roomData.ts:126-171 | every key it changes is an open cell reachable from the start, now labelled `indexToFill`, or a blocked cell, now -1; every changed key is the start or an in-bounds cardinal neighbour of a reached key now labelled `indexToFill`; new keys are in bounds; the start gets one of the two labels; every in-bounds neighbour of a newly filled cell ends labelled `indexToFill` or blocked and -1 |
| Rooms.FloodFillPhase | src/pathfinding/roomData.ts:104-123 | every tile gets a label; a label is -1 iff the tile is impassable; every other label was handed out by the counter during the phase; two tiles with the same label reach each other, and every key an open tile reaches carries its label |
| Rooms.PhaseInvComplete | src/pathfinding/roomData.ts:104-123 | the closure of the rebuild's labels makes them complete: every key an open labelled key reaches carries its label |
| Rooms.RebuildIsPartition | src/pathfinding/roomData.ts:104-123 | after the rebuild, two open keys share a label exactly when one reaches the other |
| Rooms.FreshFillKeeps | src/pathfinding/roomData.ts:115-121 | a fill with a fresh label from an unlabelled open tile keeps the rebuild invariant and changes no earlier label |
| Rooms.BlockedTileKeeps | src/pathfinding/roomData.ts:115-121 | labelling an unlabelled blocked tile -1 keeps the rebuild invariant |
| Rooms.FirstLabelled | src/pathfinding/roomData.ts:236-256 | none iff no neighbour is labelled in bounds; otherwise the label of the first such neighbour |
| Rooms.LabelledNeighbors | src/pathfinding/roomData.ts:269-281 | exactly the in-bounds neighbours with a label other than -1 |
| Rooms.CollectLabelledNeighbors | src/pathfinding/roomData.ts:269-281 | the scan keeps exactly the in-bounds neighbours with a real label, in order |
| Rooms.FirstLabelledAt | src/pathfinding/roomData.ts:236-256 | the first labelled neighbour's label is what is taken |
| Rooms.AreaMapIndex | src/pathfinding/roomData.ts:419-436 | the map consulted for a listed class is the one built for that class |
| Rooms.AddJoinsOpenNeighbors | src/pathfinding/roomData.ts:247-254 | after the add, every open in-bounds neighbour of the tile carries the tile's label |
| Rooms.AddKeepsLabels | src/pathfinding/roomData.ts:247-254 | the flood of an add introduces no label at or above the counter |
| Rooms.Dedup | src/pathfinding/roomData.ts:78-86 | the distinct keys of the input, each once |
| Rooms.DedupOfDistinct | src/pathfinding/roomData.ts:78-86 | a tile list without repeats is its own first-occurrence order |
| Rooms.CacheTiles | src/pathfinding/roomData.ts:78-86 | the cache holds exactly the given tiles' snapshots of the live room; the order is the tiles in first-occurrence order (Dedup), without repeats, over exactly the cached keys |
| Rooms.RoomData.constructor | src/pathfinding/roomData.ts:58-63 | caches every tile's snapshot, with the tile order the tiles in first-occurrence order (Dedup), and labels all four maps as the rebuild does: labels are exactly the reachability areas, -1 exactly on blocked tiles |
| Rooms.RoomData.FullUpdateAreas | src/pathfinding/roomData.ts:65-124 | fresh maps and cache; the tile order becomes the tiles in first-occurrence order (Dedup), the order later incremental updates visit them in; every map labelled as FloodFillPhase states, with labels taken from that class's counter |
| Rooms.RoomData.AddPassableTile | src/pathfinding/roomData.ts:228-259 | AddResult on the class's map and counter: no-op unless the label is -1; otherwise the first labelled neighbour's label floods the live room from the tile and the tile takes it, or the tile takes a fresh label and the counter increases by one; the flood writes only the tile and in-bounds neighbours of keys it labelled and reached (FloodFillArea's result); other classes and the cache unchanged |
| Rooms.RoomData.RemovePassableTile | src/pathfinding/roomData.ts:261-305 | RemoveResult on the class's map and counter: no-op if already -1; with at most one labelled neighbour only the tile changes, to -1; with two or more the refill of RefillAreas runs over the labelled neighbours, then the tile ends -1, and the counter grows by at most the number of labelled neighbours; other classes and the cache unchanged |
| Rooms.RoomData.AddToClass | src/pathfinding/roomData.ts:228-259 | AddResult on one map and counter (a no-op unless the tile is -1; otherwise a flood from the tile with the first labelled neighbour's label, or a fresh label and the counter plus one), the flood confined to the tile and neighbours of keys it labelled; labels stay below the counter, which never falls |
| Rooms.RoomData.RemoveFromClass | src/pathfinding/roomData.ts:261-305 | RemoveResult on one map and counter: the refill runs over the distinct labelled neighbours, so every write is accounted for by RefillResult; the tile ends -1; labels stay below the counter, which never falls |
| Rooms.RoomData.StoreClass | src/pathfinding/roomData.ts:229-230 | the class's map and counter are replaced; the other classes and the cache are unchanged |
| Rooms.RoomData.RefillAreas | src/pathfinding/roomData.ts:283-302 | RefillResult: labels change only to fresh ones on open keys or to -1 on blocked ones; each fresh label l was flooded from an adjacent key seeds[l], which ends labelled l or blocked at -1, and every key labelled l is reached from it; every in-bounds neighbour of a key with a fresh label carries the same label or is blocked at -1; every adjacent key ends with a fresh label or blocked at -1; new keys are in bounds, and every key set to -1 is a seed or an in-bounds neighbour of a key with a fresh label; seeds are distinct adjacent keys, so next − next0 ≤ the number of adjacent keys |
| Rooms.RoomData.RefillAdjacent | src/pathfinding/roomData.ts:285-299 | one pass of the refill loop: the refill state extends to one more adjacent key, and the filled-area set stays exactly the labels handed out in this call |
| Rooms.RoomData.FillFromAdjacent | src/pathfinding/roomData.ts:291-299 | the next label is handed out and flooded from the adjacent key, which is recorded as its seed; the refill state extends by one key |
| Rooms.RefillFillKeeps | src/pathfinding/roomData.ts:291-299 | a flood with the next fresh label from an adjacent key without a fresh label keeps the refill state, one key further |
| Rooms.RefillSkip | src/pathfinding/roomData.ts:286-289 | an adjacent key that already carries a fresh label is skipped without breaking the refill state |
| Rooms.ClosedKept | src/pathfinding/roomData.ts:291-297 | after one more fill, every in-bounds neighbour of a key with a fresh label still carries that label or is blocked at -1 |
| Rooms.SeedsGrow | src/pathfinding/roomData.ts:291-298 | seeding the next adjacent key with a label not yet handed out keeps the seeds distinct adjacent keys, one per label |
| Rooms.RefillOriginsKept | src/pathfinding/roomData.ts:291-297 | after one more fill from a seed, every key the refill set to -1 is still a seed or an in-bounds neighbour of a key with a fresh label, and new keys are in bounds |
| Rooms.LabelledNeighborsDistinct | src/pathfinding/roomData.ts:269-281 | the labelled neighbours collected from distinct candidates are distinct |
| Rooms.FreshFillSound | src/pathfinding/roomData.ts:115-121 | after a fresh fill during the rebuild, keys that share a label still reach each other |
| Rooms.HandedOutGrows | src/pathfinding/roomData.ts:291-298 | recording the label just handed out keeps the filled-area set exactly the labels handed out |
| Rooms.RefreshedCache | src/pathfinding/roomData.ts:191-225 | a cache with the old keys whose every entry is the live snapshot is the refreshed cache |
| Rooms.RoomData.IncrementalUpdateAreas | src/pathfinding/roomData.ts:191-226 | the cache becomes the live room over the same keys and order; a trace of labellings runs from the old maps and counters to the new ones, and each tile's step is AllRepaired: for each class, an add where the verdict turned passable, a remove where it turned blocked, nothing otherwise; a class with no flip keeps its map and counter |
| Rooms.RoomData.RefreshTile | src/pathfinding/roomData.ts:192-224 | the cache entry becomes the live snapshot; each class's map and counter change by AllRepaired for the cached and live snapshots, so an unchanged snapshot changes nothing |
| Rooms.RoomData.UpdateTile | src/pathfinding/roomData.ts:203-222 | each class changes by TileRepaired: AddResult where the verdict turned passable, RemoveResult where it turned blocked, unchanged otherwise, each with the writes confined as AddToClass and RemoveFromClass state; the cache is untouched |
| Rooms.PathPossibleAfterRebuild | src/pathfinding/roomData.ts:413-441 | right after the rebuild, for a listed class, isPathPossible from an open tile to a tile is true exactly when the first reaches the second |
| Rooms.RoomData.IsPathPossible | src/pathfinding/roomData.ts:413-441 | true iff both stored labels agree and are not -1; two unmapped keys give true; exactly one mapped key gives false |
| Rooms.RoomData.IsPositionPassable | src/pathfinding/roomData.ts:326-342 | true for class NONE; false out of bounds; otherwise the live cell's passability |
| AStar.ManhattanDist | src/pathfinding/aStar.ts:107-109 | non-negative |
| AStar.ChebyshevDist | src/pathfinding/aStar.ts:110-112 | non-negative |
| AStar.DistancesAreMetrics | src/pathfinding/aStar.ts:107-112 | both distances are symmetric, zero iff the points are equal, and satisfy the triangle inequality |
| AStar.ChebyshevBoundsManhattan | src/pathfinding/aStar.ts:107-112 | Chebyshev ≤ Manhattan ≤ 2 × Chebyshev |
| AStar.ManhattanIsStepCost | src/pathfinding/aStar.ts:84-85 | Manhattan distance is a valid step cost: ≥ 0, and ≥ 1 between distinct points |
| AStar.ReconstructPath | src/pathfinding/aStar.ts:10-21 | starts at the given key; each next position is the predecessor recorded for the previous one; ends at a key with none; positions distinct |
| AStar.RelaxOne | src/pathfinding/aStar.ts:81-97 | keeps the search invariant, f = g + ε·h and a duplicate-free open set; no g score rises; the neighbour ends with g at most the route through the current key, whose g is unchanged |
| AStar.RelaxKeepsCore | src/pathfinding/aStar.ts:86-89 | recording a strictly better route keeps the search invariant |
| AStar.RelaxKeepsScores | src/pathfinding/aStar.ts:84-93 | recording a strictly better route keeps f = g + ε·h for every key, raises no g score, and relaxes the neighbour |
| AStar.InsertKeepsQueuedOnce | src/pathfinding/aStar.ts:94-96 | queuing a key the table does not hold keeps every key queued once, with the table exactly the queued keys |
| AStar.PopKeepsQueuedOnce | src/pathfinding/aStar.ts:68 | popping the one copy of a key keeps every other key queued once |
| AStar.NoWorseTrans | src/pathfinding/aStar.ts:84-89 | scores that rise in neither of two steps rise in neither across both |
| AStar.RelaxedKept | src/pathfinding/aStar.ts:76-98 | lowering g scores keeps the neighbours relaxed so far relaxed |
| AStar.RelaxNeighbors | src/pathfinding/aStar.ts:76-98 | keeps the search invariant, f = g + ε·h and a duplicate-free open set; no g score rises; every neighbour ends with g at most the route through the current key; the current key counts as expanded |
| AStar.ClosedRegionTraps | src/pathfinding/aStar.ts:66-103 | a walk of neighbour steps starting inside a closed region never leaves it |
| AStar.NoPathMeansUnreachable | src/pathfinding/aStar.ts:101-103 | given such a region around the start without the goal, no neighbour walk from the start ends at the goal |
| AStar.ReachGoal | src/pathfinding/aStar.ts:69-72 | the path read back when the goal is popped is a found path; with no predecessor recorded it is the goal alone |
| AStar.ExpandNode | src/pathfinding/aStar.ts:73-98 | expanding a popped key that is not the goal keeps the invariant, f = g + ε·h and a duplicate-free open set; no g score rises; the key joins the expanded ones, and every recorded predecessor stays an expanded key |
| AStar.SearchStep | src/pathfinding/aStar.ts:68-98 | the popped key was queued; popping the goal returns a found path; otherwise the popped key is not the goal and joins the expanded keys, every recorded predecessor is an expanded key, the invariant, f = g + ε·h and a duplicate-free open set are kept and no g score rises |
| AStar.FindAStarPath | src/pathfinding/aStar.ts:32-104 | a found path runs goal to start through offered steps with no repeat; no path only when the expanded keys are a closed region with the start and without the goal; start = goal gives the one-position path; at most `fuel` keys are expanded, and out of fuel only after exactly `fuel`; the expanded keys begin with the start, exclude the goal, and each is offered by an earlier one; the loop keeps f = g + ε·h and a duplicate-free open set |
| AStar.ExpansionsGrow | src/pathfinding/aStar.ts:66-73 | a queued key popped after earlier expansions is the start, or was offered as a neighbour of a key expanded before it |
| AStar.ParentsExpanded | src/pathfinding/aStar.ts:73-98 | once the current key counts as expanded, every recorded predecessor is an expanded key |
| AStar.ExhaustedIsClosed | src/pathfinding/aStar.ts:99-103 | when the open set is empty, the expanded keys are closed under the neighbour function and hold the start but not the goal |
| AStar.FoundPathShape | src/pathfinding/aStar.ts:69-72 | a path read back from the recorded predecessors ends at the start and takes offered steps |
| GridIndex.GridIndexToGridPosition | src/test.ts:19-26 | x lies in [-1, w - 2], and (y + 1)·w + (x + 1) gives the index back |
| GridIndex.GridPositionToGridIndex | src/test.ts:19-26 | a reference numbering with no function of its own in the source, the inverse of gridIndexToGridPosition: a position inside the width lands in row y + 1, column x + 1 |
| GridIndex.GridIndexRoundTrip | src/test.ts:19-26 | converting an index to a position and back is the identity, and so is position to index to position within the width |
| GridIndex.UniqueRowColumn | src/test.ts:23-24 | a row-major index has a unique row and column |
| GridIndex.DocumentedExample | src/test.ts:14-18 | index 16 in a room of width 15 is (0, 0); index 0 is (-1, -1) |
| Pathfinding.PossibleNeighbors | src/pathfinding/pathfinder.ts:118-123 | four keys, none equal to the current one |
| Pathfinding.PossibleNeighborsAreCardinal | src/pathfinding/pathfinder.ts:118-123 | the same four keys the connectivity map joins |
| Pathfinding.Admitted | src/pathfinding/pathfinder.ts:125-137 | holds exactly the candidates that are the goal or passable, and no more elements than the candidates |
| Pathfinding.AdmittedKeepsOrder | src/pathfinding/pathfinder.ts:125-137 | the admitted candidates keep their relative order: they sit at strictly increasing candidate positions |
| Pathfinding.FoundPathIsWalkable | src/pathfinding/pathfinder.ts:66-75 | every path found with these neighbours takes cardinal steps through the goal or passable positions |
| Pathfinding.NeighborsIgnoreTrail | src/pathfinding/pathfinder.ts:113-117 | the neighbours do not depend on the path so far |
| Pathfinding.Pathfinder.constructor | src/pathfinding/pathfinder.ts:17-24 | stores the collision class; no path |
| Pathfinding.Pathfinder.GetNeighbors | src/pathfinding/pathfinder.ts:113-139 | in +x, +y, −x, −y order, exactly the candidates that are the goal (passable or not) or passable |
| Pathfinding.Pathfinder.GridPathfind | src/pathfinding/pathfinder.ts:52-78 | false without search when isPathPossible fails; a failure keeps the stored path; a success stores a found, walkable path; at most `fuel` expansions; a failure after the pre-check means `fuel` expansions were spent or the start lies in a closed region without the goal |
| Pathfinding.Pathfinder.HasPath | src/pathfinding/pathfinder.ts:80-82 | true iff a path is stored |
| Pathfinding.Pathfinder.PeekPath | src/pathfinding/pathfinder.ts:84-89 | undefined iff there is no path; otherwise the first stored position |
| Pathfinding.Pathfinder.PollPath | src/pathfinding/pathfinder.ts:91-96 | undefined iff there is no path (as written) |
| Pathfinding.Pathfinder.PollPathAndRemove | src/pathfinding/pathfinder.ts:91-93 | returns what peek returns and drops that position from the path |
| Pathfinding.Pathfinder.GetPath | src/pathfinding/pathfinder.ts:102-111 | same length as the stored path, converted, in reverse order (start first) |
| Pathfinding.PeekAfterSearchIsGoal | src/pathfinding/pathfinder.ts:84-89 | right after a successful search, peek gives the goal |
| Pathfinding.PollPathNeverAdvances | src/pathfinding/pathfinder.ts:91-96 | poll as written equals peek and removes nothing, so successive polls return the same position |

## Left out

- Host input and output are not modelled: `GetGridEntityFromPos`, the room shape's corner positions, `copyVector`, and the grid↔world scale and offset. The live room is the `LiveRoom` parameter. `getPath`'s world conversion is the `toWorld` parameter.
- Rooms.RoomData.FullUpdateAreas: the raster-scan cursor loop (`roomData.ts:79-101`) is replaced by a given sequence of valid tile keys. The model does not check that the sequence covers the shape.
- Rooms.RoomData.constructor: requires every given tile key to be valid for the shape, which the raster scan guarantees in the source.
- `getGridEntity` and `isGridEntityPassable` (`roomData.ts:307-315, 344-352`) are folded into `Rooms.RoomData.IsPositionPassable`, which reads the live room directly.
- `renderDebugDisplayGrid` (`roomData.ts:173-189`): debug text rendering only.
- `getChessboardNeighbors` (`roomData.ts:454-467`): nothing calls it.
- `euclideanDistSq` and `euclideanDist` (`aStar.ts:113-118`) are left out: they are floating-point host vector methods.
- AStar.FindAStarPath: the search stops after `fuel` expansions and then reports `OutOfFuel`. The source loops until the open set is empty. The ghost `expansions` result records the expanded keys; it proves `OutOfFuel` only after exactly `fuel` of them.
- AStar.FindAStarPath: it requires the heuristic to be a step cost: non-negative, and at least 1 between distinct points. Manhattan distance, the one the pathfinder passes, meets this. Priorities and costs are integers rather than Lua numbers.
- AStar.FindAStarPath: it proves where a found path goes and what "no path" means. It does not prove that a found path is shortest. Weighted A* does not promise that for epsilon > 1 anyway.
- AStar.FindAStarPath: epsilon is left unconstrained. The source's doc comment asks for more than 1, but its default is 1, and the contract holds either way.
- `Pathfinder.pathfind` (`pathfinder.ts:46-50`) is not modelled: it only converts world positions to grid positions before calling `gridPathfind`.
- The static callbacks `postUpdate`, `postRender` and `postNewRoom` are not modelled. Neither are the static `currentRoom` singleton and the `id` counter (`pathfinder.ts:12-15, 21, 26-44`). The room is passed to each call instead.
- `getRawPath` (`pathfinder.ts:98-100`) returns the `currentPath` field, which the model exposes directly.
- `GridEntityData.toString` (`gridEntityData.ts:22-24`): text formatting only.
- An undefined collision class (`roomData.ts:331`) has no counterpart: classes are integers.
- `hasLeft` and `hasRight` (`priorityQueue.ts:29-35`) are inlined as `Left(c) < |heap|` and `Right(c) < |heap|`.
- FastSets.FastSet.Has: for a non-member the Lua lookup gives `nil`, modelled as `None`. It is not `false`.
- Rooms.RoomData.IncrementalUpdateAreas: each tile's step is proved to be the add or remove its flipped classes call for. The model does not prove that the maps still partition the room into reachability areas afterwards, and the source does not keep that in every case. Suppose two adjacent tiles A and B both turn blocked in one update, and A comes first. A's refill hands B a fresh label and floods it from B, which is now blocked, so the fill only sets B to -1. B's own removal then returns early at `roomData.ts:265`. Open keys on either side of B keep one label even when B was their only link.
- Rooms.RoomData.RemovePassableTile: the model proves where the refill may write (fresh labels on keys reached from their seed, -1 on blocked keys that are seeds or neighbours of freshly labelled keys), that seeds are distinct, and that the counter grows by at most the number of labelled neighbours. It does not prove that the labels after a removal are exactly the reachability areas.
- Utils.IsValidFlatGridPosition: a plain definition; its range fact is stated by `Utils.ValidFlatKeyInRange`.
- GridIndex.GridIndexToGridPosition: the width is a parameter rather than the host room's `GetGridWidth`.

## Findings

| source | as written | input that shows it | evidently intended | confidence | as-written member | corrected member |
|---|---|---|---|---|---|---|
| src/pathfinding/pathfinder.ts:91-96 | `pollPath` returns the first stored position but never removes it; its body is the same as `peekPath` | any non-empty stored path: two calls to `pollPath` return the same position | "returns and removes the next position along the path": drop the first position after returning it | not executed | Pathfinding.Pathfinder.PollPath, Pathfinding.PollPathNeverAdvances | Pathfinding.Pathfinder.PollPathAndRemove |
