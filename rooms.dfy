/**
 * The connectivity map of one room (`RoomData`): for each of four collision
 * classes a map from flat key to area label, rebuilt by flood fill and
 * repaired cell by cell when the room changes.
 */
module Rooms {
  import opened Wrappers
  import opened FlatGridVector
  import opened HostEnums
  import opened GridEntities
  import opened Utils
  import opened Passability
  import opened Connectivity

  /** What the host room reports at a flat key, read at the time of the call. */
  type LiveRoom = FlatKey -> Option<GridEntity>

  /** Reading the live room: every key has a snapshot, the sentinel where nothing stands. */
  function Live(room: LiveRoom): Snapshot {
    k => Some(FromEntity(room(k)))
  }

  /** Reading the tile cache: keys outside it have no snapshot. */
  function Cached(tiles: map<FlatKey, GridEntityData>): Snapshot {
    k => Get(tiles, k)
  }

  /** Every label is -1 or an index the counter has already handed out. */
  ghost predicate LabelsBelow(m: AreaMap, next: int) {
    forall k | k in m :: m[k] == -1 || 1 <= m[k] < next
  }

  /** Two keys with the same real label are connected. */
  ghost predicate SoundLabels(m: AreaMap, cell: Snapshot, cls: int, shape: int) {
    forall a, b | a in m && b in m && m[a] == m[b] && m[a] != -1 :: Reaches(cell, cls, shape, a, b)
  }

  /** The invariant of one class's map during and after the rebuild. */
  ghost predicate PhaseInv(m: AreaMap, cell: Snapshot, cls: int, shape: int, next0: int, next: int) {
    && (forall k | k in m :: IsValidFlatGridPosition(k, shape))
    && (forall k | k in m :: m[k] == -1 <==> !Open(cell, cls, k))
    && (forall k | k in m :: m[k] == -1 || next0 <= m[k] < next)
    && SoundLabels(m, cell, cls, shape)
    && Closed(m, cell, cls, shape, next0, next)
  }

  /** Open keys carry the label of every key they reach. */
  ghost predicate CompleteLabels(m: AreaMap, cell: Snapshot, cls: int, shape: int) {
    forall a, b | a in m && Open(cell, cls, a) && Reaches(cell, cls, shape, a, b) :: b in m && m[b] == m[a]
  }

  /** The closure part of the rebuild invariant makes the labelling complete. */
  lemma PhaseInvComplete(m: AreaMap, cell: Snapshot, cls: int, shape: int, next0: int, next: int)
    requires PhaseInv(m, cell, cls, shape, next0, next)
    ensures CompleteLabels(m, cell, cls, shape)
  {
    forall a, b | a in m && Open(cell, cls, a) && Reaches(cell, cls, shape, a, b) ensures b in m && m[b] == m[a] {
      ReachedKeepsLabel(m, cell, cls, shape, next0, next, a, b);
    }
  }

  /** Labelling an unlabelled blocked tile -1 keeps the rebuild invariant. */
  lemma BlockedTileKeeps(m: AreaMap, tile: FlatKey, cell: Snapshot, cls: int, shape: int, next0: int, next: int)
    requires 1 <= next0 && PhaseInv(m, cell, cls, shape, next0, next)
    requires tile !in m && IsValidFlatGridPosition(tile, shape) && !Open(cell, cls, tile)
    ensures PhaseInv(m[tile := -1], cell, cls, shape, next0, next)
  {
    var m' := m[tile := -1];
    forall k | k in m' ensures IsValidFlatGridPosition(k, shape) && (m'[k] == -1 <==> !Open(cell, cls, k)) &&
                               (m'[k] == -1 || next0 <= m'[k] < next) {
      if k != tile {
        assert k in m && m'[k] == m[k];
      }
    }
    BlockedKeepsSound(m, tile, cell, cls, shape);
    BlockedKeepsClosed(m, tile, cell, cls, shape, next0, next);
  }

  /** A new key labelled -1 joins no area. */
  lemma BlockedKeepsSound(m: AreaMap, tile: FlatKey, cell: Snapshot, cls: int, shape: int)
    requires SoundLabels(m, cell, cls, shape) && tile !in m
    ensures SoundLabels(m[tile := -1], cell, cls, shape)
  {
    var m' := m[tile := -1];
    forall a, b | a in m' && b in m' && m'[a] == m'[b] && m'[a] != -1 ensures Reaches(cell, cls, shape, a, b) {
      assert a in m && b in m && m[a] == m[b] && m[a] != -1;
    }
  }

  /** A new blocked key labelled -1 keeps the fresh labels closed. */
  lemma BlockedKeepsClosed(m: AreaMap, tile: FlatKey, cell: Snapshot, cls: int, shape: int, next0: int, next: int)
    requires 1 <= next0 && Closed(m, cell, cls, shape, next0, next) && tile !in m && !Open(cell, cls, tile)
    ensures Closed(m[tile := -1], cell, cls, shape, next0, next)
  {
    var m' := m[tile := -1];
    forall c, n | c in m' && next0 <= m'[c] < next && n in CardinalNeighbors(c) && IsValidFlatGridPosition(n, shape)
      ensures n in m' && (m'[n] == m'[c] || (m'[n] == -1 && !Open(cell, cls, n)))
    {
      assert c in m && m[c] == m'[c];
      assert n in m;
    }
  }

  /**
   * A fill from an unlabelled key changes no labelled key: a relabelled open
   * key would carry its closed label back to the start, which has none.
   */
  lemma FreshFillKeepsOld(m: AreaMap, s: FlatKey, cell: Snapshot, cls: int, shape: int, next0: int, fill: int, r: AreaMap)
    requires 1 <= next0 <= fill && PhaseInv(m, cell, cls, shape, next0, fill)
    requires s !in m && IsValidFlatGridPosition(s, shape)
    requires FillResult(m, s, cls, fill, shape, cell, r)
    ensures forall k | k in m :: k in r && r[k] == m[k]
  {
    forall k | k in m ensures k in r && r[k] == m[k] {
      if r[k] != m[k] && Open(cell, cls, k) {
        ReachesSymmetric(cell, cls, shape, s, k);
        ReachedKeepsLabel(m, cell, cls, shape, next0, fill, k, s);
      }
    }
  }

  /** A fill from an unlabelled open key with a fresh label keeps the rebuild invariant. */
  lemma FreshFillKeeps(m: AreaMap, s: FlatKey, cell: Snapshot, cls: int, shape: int, next0: int, fill: int, r: AreaMap)
    requires 1 <= next0 <= fill && PhaseInv(m, cell, cls, shape, next0, fill)
    requires s !in m && IsValidFlatGridPosition(s, shape) && Open(cell, cls, s)
    requires FillResult(m, s, cls, fill, shape, cell, r)
    ensures PhaseInv(r, cell, cls, shape, next0, fill + 1)
  {
    FreshFillKeepsOld(m, s, cell, cls, shape, next0, fill, r);
    FreshFillSound(m, s, cell, cls, shape, next0, fill, r);
    assert KeepsFresh(m, r, cell, cls, next0, fill);
    ClosedKept(m, r, s, cell, cls, shape, next0, fill, fill + 1);
  }

  /** After a fresh fill, keys sharing a label are still connected. */
  lemma FreshFillSound(m: AreaMap, s: FlatKey, cell: Snapshot, cls: int, shape: int, next0: int, fill: int, r: AreaMap)
    requires 1 <= next0 <= fill && SoundLabels(m, cell, cls, shape)
    requires forall k | k in m :: m[k] == -1 || next0 <= m[k] < fill
    requires IsValidFlatGridPosition(s, shape)
    requires FillResult(m, s, cls, fill, shape, cell, r)
    requires forall k | k in m :: k in r && r[k] == m[k]
    ensures SoundLabels(r, cell, cls, shape)
  {
    forall a, b | a in r && b in r && r[a] == r[b] && r[a] != -1 ensures Reaches(cell, cls, shape, a, b) {
      if r[a] == fill {
        assert a !in m && b !in m;
        ReachesSymmetric(cell, cls, shape, s, a);
        ReachesTransitive(cell, cls, shape, a, s, b);
      } else {
        assert a in m && m[a] == r[a];
        assert b in m && m[b] == r[b];
      }
    }
  }

  /**
   * The flood-fill phase of `fullUpdateAreas` for one collision class: every
   * tile, in order, that is not yet labelled is labelled -1 if blocked and
   * otherwise flooded with the next fresh label.
   */
  method FloodFillPhase(tiles: seq<FlatKey>, cell: Snapshot, cls: int, shape: int, nextIndex: int)
    returns (m: AreaMap, next: int)
    requires nextIndex >= 1
    requires forall k | k in tiles :: IsValidFlatGridPosition(k, shape)
    ensures ClassLabelled(m, tiles, cell, cls, shape, nextIndex, next)
  {
    m, next := map[], nextIndex;
    for t := 0 to |tiles|
      invariant next >= nextIndex
      invariant forall j | 0 <= j < t :: tiles[j] in m
      invariant PhaseInv(m, cell, cls, shape, nextIndex, next)
    {
      var tile := tiles[t];
      if tile in m {
        continue;
      }
      if !IsGridDataPassable(cell(tile), cls) {
        BlockedTileKeeps(m, tile, cell, cls, shape, nextIndex, next);
        m := m[tile := -1];
        continue;
      }
      var areaIndex := next;
      next := next + 1;
      var r := FloodFillArea(m, tile, cls, areaIndex, shape, cell);
      FreshFillKeeps(m, tile, cell, cls, shape, nextIndex, areaIndex, r);
      m := r;
    }
    PhaseInvComplete(m, cell, cls, shape, nextIndex, next);
  }

  /**
   * The state the rebuild leaves one class's map in: every tile labelled, every
   * key in bounds, -1 exactly on blocked keys, every other label handed out by
   * the counter during the rebuild, the same label only on connected keys, and
   * every key an open key reaches labelled like it.
   */
  ghost predicate ClassLabelled(m: AreaMap, tiles: seq<FlatKey>, cell: Snapshot, cls: int, shape: int,
                                next0: int, next: int)
  {
    && next >= next0
    && (forall k | k in tiles :: k in m)
    && PhaseInv(m, cell, cls, shape, next0, next)
    && CompleteLabels(m, cell, cls, shape)
  }

  /** After the rebuild two open keys share a label exactly when one reaches the other. */
  lemma RebuildIsPartition(m: AreaMap, tiles: seq<FlatKey>, cell: Snapshot, cls: int, shape: int,
                           next0: int, next: int, a: FlatKey, b: FlatKey)
    requires ClassLabelled(m, tiles, cell, cls, shape, next0, next)
    requires a in m && b in m && Open(cell, cls, a)
    ensures m[a] == m[b] <==> Reaches(cell, cls, shape, a, b)
  {
    assert m[a] != -1;
  }

  /** `tile` is in bounds and carries a real label (neither missing nor -1). */
  predicate IsLabelledAt(m: AreaMap, shape: int, tile: FlatKey) {
    IsValidFlatGridPosition(tile, shape) && tile in m && m[tile] != -1
  }

  /** The label of the first candidate, in list order, that is in bounds and labelled. */
  function FirstLabelled(m: AreaMap, shape: int, cands: seq<FlatKey>): (r: Option<int>)
    ensures r.None? <==> forall j | 0 <= j < |cands| :: !IsLabelledAt(m, shape, cands[j])
    ensures r.Some? ==> exists j | 0 <= j < |cands| :: IsLabelledAt(m, shape, cands[j]) && m[cands[j]] == r.value &&
                          forall i | 0 <= i < j :: !IsLabelledAt(m, shape, cands[i])
  {
    if cands == [] then None
    else if IsLabelledAt(m, shape, cands[0]) then Some(m[cands[0]])
    else
      var r := FirstLabelled(m, shape, cands[1..]);
      assert forall j | 1 <= j < |cands| :: cands[j] == cands[1..][j - 1];
      r
  }

  /** The candidates, in list order, that are in bounds and labelled. */
  function LabelledNeighbors(m: AreaMap, shape: int, cands: seq<FlatKey>): (r: seq<FlatKey>)
    ensures |r| <= |cands|
    ensures forall n | n in r :: n in cands && IsLabelledAt(m, shape, n)
    ensures forall n | n in cands && IsLabelledAt(m, shape, n) :: n in r
  {
    if cands == [] then []
    else
      var prev := LabelledNeighbors(m, shape, cands[..|cands| - 1]);
      var n := cands[|cands| - 1];
      if IsLabelledAt(m, shape, n) then prev + [n] else prev
  }

  /** The four neighbours are four different keys. */
  lemma CardinalNeighborsDistinct(position: FlatKey)
    ensures Distinct(CardinalNeighbors(position))
  {
  }

  /** No key occurs twice. */
  ghost predicate Distinct(s: seq<FlatKey>) {
    forall i, j | 0 <= i < j < |s| :: s[i] != s[j]
  }

  /** Keeping some of a list without repeats keeps it without repeats. */
  lemma {:induction false} LabelledNeighborsDistinct(m: AreaMap, shape: int, cands: seq<FlatKey>)
    requires Distinct(cands)
    ensures Distinct(LabelledNeighbors(m, shape, cands))
    decreases |cands|
  {
    if cands != [] {
      var u := cands[..|cands| - 1];
      assert Distinct(u) by {
        forall i, j | 0 <= i < j < |u| ensures u[i] != u[j] { assert u[i] == cands[i] && u[j] == cands[j]; }
      }
      LabelledNeighborsDistinct(m, shape, u);
      var n := cands[|cands| - 1];
      assert n !in u by {
        forall i | 0 <= i < |u| ensures u[i] != n { assert cands[i] != cands[|cands| - 1]; }
      }
      var prev := LabelledNeighbors(m, shape, u);
      assert n !in prev;
      if IsLabelledAt(m, shape, n) {
        var r := prev + [n];
        forall i, j | 0 <= i < j < |r| ensures r[i] != r[j] {
          assert r[i] == prev[i] && prev[i] in prev;
          if j < |r| - 1 { assert r[j] == prev[j]; } else { assert r[j] == n; }
        }
        assert LabelledNeighbors(m, shape, cands) == r;
      } else {
        assert LabelledNeighbors(m, shape, cands) == prev;
      }
    }
  }

  /** The neighbour scan of `removePassableTile`: keeps the in-bounds neighbours with a real label. */
  method CollectLabelledNeighbors(areaMap: AreaMap, shape: int, neighbors: seq<FlatKey>)
    returns (adjacentAreas: seq<FlatKey>)
    ensures adjacentAreas == LabelledNeighbors(areaMap, shape, neighbors)
  {
    adjacentAreas := [];
    for j := 0 to |neighbors|
      invariant adjacentAreas == LabelledNeighbors(areaMap, shape, neighbors[..j])
    {
      var adjacentPosition := neighbors[j];
      assert neighbors[..j + 1][..j] == neighbors[..j];
      if !IsValidFlatGridPosition(adjacentPosition, shape) {
        continue;
      }
      var areaAtPosition := Get(areaMap, adjacentPosition);
      if areaAtPosition == None || areaAtPosition == Some(-1) {
        continue;
      }
      adjacentAreas := adjacentAreas + [adjacentPosition];
    }
    assert neighbors[..|neighbors|] == neighbors;
  }

  /** The first labelled candidate determines FirstLabelled. */
  lemma FirstLabelledAt(m: AreaMap, shape: int, cands: seq<FlatKey>, j: int)
    requires 0 <= j < |cands| && IsLabelledAt(m, shape, cands[j])
    requires forall i | 0 <= i < j :: !IsLabelledAt(m, shape, cands[i])
    ensures FirstLabelled(m, shape, cands) == Some(m[cands[j]])
  {
    var r := FirstLabelled(m, shape, cands);
    var j' :| 0 <= j' < |cands| && IsLabelledAt(m, shape, cands[j']) && m[cands[j']] == r.value &&
              forall i | 0 <= i < j' :: !IsLabelledAt(m, shape, cands[i]);
    assert j' == j;
  }

  /** Which area map serves a collision class: the switch of `isPathPossible`. */
  function AreaMapIndex(collisionClass: int): (i: int)
    ensures 0 <= i < 4
    ensures collisionClass in CollisionTypes ==> CollisionTypes[i] == collisionClass
  {
    if collisionClass == GRIDCOLL_NO_PITS then 1
    else if collisionClass == GRIDCOLL_BULLET || collisionClass == GRIDCOLL_GROUND then 2
    else if collisionClass == GRIDCOLL_PITS_ONLY then 3
    else 0
  }

  /** The distinct elements of `s`, each at the place it first occurs. */
  function Dedup(s: seq<FlatKey>): (r: seq<FlatKey>)
    ensures forall k :: k in r <==> k in s
    ensures forall i, j | 0 <= i < j < |r| :: r[i] != r[j]
    ensures |r| <= |s|
  {
    if s == [] then []
    else
      var prev := Dedup(s[..|s| - 1]);
      var k := s[|s| - 1];
      if k in prev then prev else prev + [k]
  }

  /** A sequence without repeats is its own deduplication: a raster scan keeps its order. */
  lemma {:induction false} DedupOfDistinct(s: seq<FlatKey>)
    requires forall i, j | 0 <= i < j < |s| :: s[i] != s[j]
    ensures Dedup(s) == s
  {
    if s != [] {
      var u := s[..|s| - 1];
      DedupOfDistinct(u);
      assert s[|s| - 1] !in u;
      assert u + [s[|s| - 1]] == s;
    }
  }

  /**
   * The scan phase of `fullUpdateAreas`: a snapshot of every tile of the room,
   * and the tiles in first-insertion order (the iteration order of the table).
   */
  method CacheTiles(tiles: seq<FlatKey>, room: LiveRoom)
    returns (roomTiles: map<FlatKey, GridEntityData>, tileOrder: seq<FlatKey>)
    ensures roomTiles == map k | k in tiles :: FromEntity(room(k))
    ensures tileOrder == Dedup(tiles)
    ensures forall i, j | 0 <= i < j < |tileOrder| :: tileOrder[i] != tileOrder[j]
    ensures forall k :: k in roomTiles <==> k in tileOrder
  {
    roomTiles, tileOrder := map[], [];
    for t := 0 to |tiles|
      invariant roomTiles == map k | k in tiles[..t] :: FromEntity(room(k))
      invariant tileOrder == Dedup(tiles[..t])
    {
      var flatCursor := tiles[t];
      assert tiles[..t + 1] == tiles[..t] + [flatCursor];
      assert tiles[..t + 1][..t] == tiles[..t];
      if flatCursor !in roomTiles {
        tileOrder := tileOrder + [flatCursor];
      }
      roomTiles := roomTiles[flatCursor := FromEntity(room(flatCursor))];
    }
    assert tiles[..|tiles|] == tiles;
  }

  /**
   * What the repairs of `removePassableTile` may do to a map `m0`: add keys, and
   * change a label only to one from [next0, next) on an open key or to -1 on a
   * blocked one.
   */
  ghost predicate Refilled(m0: AreaMap, m: AreaMap, cell: Snapshot, cls: int, next0: int, next: int) {
    && m0.Keys <= m.Keys
    && forall k | k in m && (k !in m0 || m[k] != m0[k]) ::
         (next0 <= m[k] < next && Open(cell, cls, k)) || (m[k] == -1 && !Open(cell, cls, k))
  }

  /** One more fill with the fresh label `fill` keeps the repair within bounds. */
  lemma RefillStep(m0: AreaMap, m: AreaMap, r: AreaMap, start: FlatKey, cell: Snapshot, cls: int, shape: int,
                   next0: int, fill: int, next: int)
    requires next0 <= fill && next == fill + 1
    requires Refilled(m0, m, cell, cls, next0, fill)
    requires FillResult(m, start, cls, fill, shape, cell, r)
    ensures Refilled(m0, r, cell, cls, next0, next)
  {
    forall k | k in r && (k !in m0 || r[k] != m0[k])
      ensures (next0 <= r[k] < next && Open(cell, cls, k)) || (r[k] == -1 && !Open(cell, cls, k))
    {
      if k !in m || r[k] != m[k] {
      } else {
        assert k in m && (k !in m0 || m[k] != m0[k]);
      }
    }
  }

  /**
   * The refill loop of `removePassableTile` after `done` adjacent keys: labels
   * change only as `Refilled` allows; each fresh label l in [next0, next) was
   * flooded from `seeds[l]`, one of the adjacent keys, which ends labelled l
   * (or -1 when blocked), and every key carrying l is reached from it; the
   * fresh labels are closed; the refill writes only where its floods reach
   * (RefillOrigins); and the loop's progress is as RefillProgress says.
   */
  ghost predicate RefillState(m0: AreaMap, adjacent: seq<FlatKey>, done: int, m: AreaMap, seeds: map<int, FlatKey>,
                              cell: Snapshot, cls: int, shape: int, next0: int, next: int)
  {
    && 1 <= next0 <= next
    && Refilled(m0, m, cell, cls, next0, next)
    && (forall l :: l in seeds <==> next0 <= l < next)
    && (forall l | l in seeds :: seeds[l] in adjacent && seeds[l] in m &&
                                (m[seeds[l]] == l || (m[seeds[l]] == -1 && !Open(cell, cls, seeds[l]))))
    && (forall k | k in m && next0 <= m[k] < next :: m[k] in seeds && Reaches(cell, cls, shape, seeds[m[k]], k))
    && Closed(m, cell, cls, shape, next0, next)
    && RefillOrigins(m0, m, seeds, shape, next0, next)
    && RefillProgress(adjacent, done, m, seeds, cell, cls, next0, next)
  }

  /**
   * How far the refill loop has got after `done` adjacent keys: each ends with
   * a fresh label or blocked at -1, at most one label was handed out per key,
   * and the seeds are among those keys.
   */
  ghost predicate RefillProgress(adjacent: seq<FlatKey>, done: int, m: AreaMap, seeds: map<int, FlatKey>,
                                 cell: Snapshot, cls: int, next0: int, next: int)
  {
    && (forall p | 0 <= p < done && p < |adjacent| ::
          adjacent[p] in m && (next0 <= m[adjacent[p]] < next || (m[adjacent[p]] == -1 && !Open(cell, cls, adjacent[p]))))
    && next - next0 <= done
    && SeedsInOrder(adjacent, done, seeds)
  }

  /**
   * The seeds are distinct adjacent keys among the first `done`: one fresh
   * label per adjacent key flooded, never two for the same key.
   */
  ghost predicate SeedsInOrder(adjacent: seq<FlatKey>, done: int, seeds: map<int, FlatKey>) {
    && 0 <= done <= |adjacent|
    && Distinct(adjacent)
    && (forall l | l in seeds :: seeds[l] in adjacent[..done])
    && (forall l1, l2 | l1 in seeds && l2 in seeds && l1 != l2 :: seeds[l1] != seeds[l2])
  }

  /** `k` is in bounds and next to a key carrying a label from [next0, next). */
  ghost predicate NextToFresh(m: AreaMap, shape: int, next0: int, next: int, k: FlatKey) {
    && IsValidFlatGridPosition(k, shape)
    && exists c | c in m && next0 <= m[c] < next :: k in CardinalNeighbors(c)
  }

  /**
   * Where the refill writes: every key it added is in bounds, and every key it
   * set to -1 is a seed or next to a key with a fresh label, so was reached by
   * one of the refill's floods.
   */
  ghost predicate RefillOrigins(m0: AreaMap, m: AreaMap, seeds: map<int, FlatKey>, shape: int, next0: int, next: int) {
    && (forall k | k in m && k !in m0 :: IsValidFlatGridPosition(k, shape))
    && (forall k | k in m && (k !in m0 || m[k] != m0[k]) && m[k] == -1 ::
          IsSeed(seeds, k) || NextToFresh(m, shape, next0, next, k))
  }

  /** `k` is the seed of some fresh label. */
  ghost predicate IsSeed(seeds: map<int, FlatKey>, k: FlatKey) {
    exists l | l in seeds :: seeds[l] == k
  }

  /** What the whole refill loop leaves: every adjacent key processed. */
  ghost predicate RefillResult(m0: AreaMap, adjacent: seq<FlatKey>, m: AreaMap, seeds: map<int, FlatKey>,
                               cell: Snapshot, cls: int, shape: int, next0: int, next: int)
  {
    RefillState(m0, adjacent, |adjacent|, m, seeds, cell, cls, shape, next0, next)
  }

  /** The refill starts from the map as it is, with no fresh label handed out. */
  lemma RefillStarts(m0: AreaMap, adjacent: seq<FlatKey>, cell: Snapshot, cls: int, shape: int, next0: int)
    requires 1 <= next0 && Distinct(adjacent)
    ensures RefillState(m0, adjacent, 0, m0, map[], cell, cls, shape, next0, next0)
  {
  }

  /** Seeding the `q`-th adjacent key with a label not yet handed out keeps the seeds distinct and in order. */
  lemma SeedsGrow(adjacent: seq<FlatKey>, q: int, seeds: map<int, FlatKey>, f: int)
    requires SeedsInOrder(adjacent, q, seeds) && q < |adjacent| && f !in seeds
    ensures SeedsInOrder(adjacent, q + 1, seeds[f := adjacent[q]])
  {
    var seeds' := seeds[f := adjacent[q]];
    assert adjacent[..q + 1] == adjacent[..q] + [adjacent[q]];
    forall l | l in seeds ensures seeds[l] != adjacent[q] {
      var i :| 0 <= i < q && adjacent[..q][i] == seeds[l];
      assert adjacent[i] != adjacent[q];
    }
  }

  /** Skipping the `q`-th adjacent key keeps the seeds in order. */
  lemma SeedsSkip(adjacent: seq<FlatKey>, q: int, seeds: map<int, FlatKey>)
    requires SeedsInOrder(adjacent, q, seeds) && q < |adjacent|
    ensures SeedsInOrder(adjacent, q + 1, seeds)
  {
    assert adjacent[..q + 1] == adjacent[..q] + [adjacent[q]];
  }

  /**
   * One more fill from the seed `p` with label `f`, which leaves the fresh
   * labels and the blocked keys alone, keeps every refill write accounted for.
   */
  lemma RefillOriginsKept(m0: AreaMap, m: AreaMap, seeds: map<int, FlatKey>, r: AreaMap, p: FlatKey,
                          cell: Snapshot, cls: int, shape: int, next0: int, f: int)
    requires next0 <= f && RefillOrigins(m0, m, seeds, shape, next0, f) && m0.Keys <= m.Keys
    requires p in m && f !in seeds
    requires KeepsFresh(m, r, cell, cls, next0, f)
    requires FillResult(m, p, cls, f, shape, cell, r)
    ensures RefillOrigins(m0, r, seeds[f := p], shape, next0, f + 1)
  {
    var seeds' := seeds[f := p];
    assert IsSeed(seeds', p) by { assert seeds'[f] == p; }
    forall k | k in r && (k !in m0 || r[k] != m0[k]) && r[k] == -1
      ensures IsSeed(seeds', k) || NextToFresh(r, shape, next0, f + 1, k)
    {
      if k in m && r[k] == m[k] {
        if IsSeed(seeds, k) {
          var l :| l in seeds && seeds[l] == k;
          assert seeds'[l] == k;
        } else {
          var c :| c in m && next0 <= m[c] < f && k in CardinalNeighbors(c);
          assert c in r && r[c] == m[c];
        }
      } else if k != p {
        assert NextToFill(r, p, cls, f, shape, cell, k);
        var c :| c in r && r[c] == f && Open(cell, cls, c) && Reaches(cell, cls, shape, p, c) && k in CardinalNeighbors(c);
      }
    }
  }

  /** Keys of `m` with a label in [lo, hi), or blocked at -1, have the same label in `r`. */
  ghost predicate KeepsFresh(m: AreaMap, r: AreaMap, cell: Snapshot, cls: int, lo: int, hi: int) {
    forall k | k in m && (lo <= m[k] < hi || (m[k] == -1 && !Open(cell, cls, k))) :: k in r && r[k] == m[k]
  }

  /**
   * During the refill, a fill from an adjacent key whose label is not fresh
   * leaves alone every key with a fresh label and every blocked key at -1: a
   * relabelled fresh key would carry its closed label back to the start.
   */
  lemma RefillKeepsFresh(m0: AreaMap, adjacent: seq<FlatKey>, q: int, m: AreaMap, seeds: map<int, FlatKey>,
                         r: AreaMap, cell: Snapshot, cls: int, shape: int, next0: int, f: int)
    requires RefillState(m0, adjacent, q, m, seeds, cell, cls, shape, next0, f) && LabelsBelow(m0, next0)
    requires 0 <= q < |adjacent| && adjacent[q] in m && !(next0 <= m[adjacent[q]] < f)
    requires IsValidFlatGridPosition(adjacent[q], shape)
    requires FillResult(m, adjacent[q], cls, f, shape, cell, r)
    ensures forall k | k in m :: m[k] != f
    ensures KeepsFresh(m, r, cell, cls, next0, f)
  {
    var p := adjacent[q];
    assert Refilled(m0, m, cell, cls, next0, f);
    assert Closed(m, cell, cls, shape, next0, f);
    forall k | k in m ensures m[k] != f {
      if k in m0 && m[k] == m0[k] {
        assert m0[k] == -1 || 1 <= m0[k] < next0;
      }
    }
    forall k | k in m && (next0 <= m[k] < f || (m[k] == -1 && !Open(cell, cls, k))) ensures k in r && r[k] == m[k] {
      if next0 <= m[k] < f {
        assert !(k in m0 && m[k] == m0[k]);
        if r[k] != m[k] {
          ReachesSymmetric(cell, cls, shape, p, k);
          ReachedKeepsLabel(m, cell, cls, shape, next0, f, k, p);
        }
      }
    }
  }

  /** After the fill from `p` with `f`, every fresh label has its seed, labelled by its own fill. */
  lemma RefillSeedsKept(m0: AreaMap, adjacent: seq<FlatKey>, q: int, m: AreaMap, seeds: map<int, FlatKey>,
                        r: AreaMap, p: FlatKey, cell: Snapshot, cls: int, shape: int, next0: int, f: int,
                        seeds': map<int, FlatKey>)
    requires RefillState(m0, adjacent, q, m, seeds, cell, cls, shape, next0, f)
    requires KeepsFresh(m, r, cell, cls, next0, f) && 0 <= q < |adjacent| && p == adjacent[q]
    requires FillResult(m, p, cls, f, shape, cell, r)
    requires seeds' == seeds[f := p]
    ensures forall l | l in seeds' :: seeds'[l] in adjacent && seeds'[l] in r &&
                                      (r[seeds'[l]] == l || (r[seeds'[l]] == -1 && !Open(cell, cls, seeds'[l])))
  {
    forall l | l in seeds'
      ensures seeds'[l] in adjacent && seeds'[l] in r &&
              (r[seeds'[l]] == l || (r[seeds'[l]] == -1 && !Open(cell, cls, seeds'[l])))
    {
      if l != f {
        assert seeds'[l] == seeds[l] && seeds[l] in m;
      }
    }
  }

  /** After the fill from `p` with `f`, every key with a fresh label is reached from that label's seed. */
  lemma RefillReachKept(m0: AreaMap, adjacent: seq<FlatKey>, q: int, m: AreaMap, seeds: map<int, FlatKey>,
                        r: AreaMap, p: FlatKey, cell: Snapshot, cls: int, shape: int, next0: int, f: int,
                        seeds': map<int, FlatKey>, next: int)
    requires RefillState(m0, adjacent, q, m, seeds, cell, cls, shape, next0, f)
    requires forall k | k in m :: m[k] != f
    requires KeepsFresh(m, r, cell, cls, next0, f)
    requires FillResult(m, p, cls, f, shape, cell, r)
    requires seeds' == seeds[f := p] && next == f + 1
    ensures forall k | k in r && next0 <= r[k] < next :: r[k] in seeds' && Reaches(cell, cls, shape, seeds'[r[k]], k)
  {
    forall k | k in r && next0 <= r[k] < next ensures r[k] in seeds' && Reaches(cell, cls, shape, seeds'[r[k]], k) {
      if r[k] != f {
        assert k in m && r[k] == m[k];
      }
    }
  }

  /**
   * A fill from `p` with a label `f` no key carries yet, which leaves the
   * labels in [next0, f) and the blocked keys alone, makes [next0, f + 1) closed.
   */
  lemma ClosedKept(m: AreaMap, r: AreaMap, p: FlatKey, cell: Snapshot, cls: int, shape: int, next0: int, f: int,
                   next: int)
    requires 1 <= next0 <= f && next == f + 1 && Closed(m, cell, cls, shape, next0, f)
    requires forall k | k in m :: m[k] != f
    requires KeepsFresh(m, r, cell, cls, next0, f)
    requires FillResult(m, p, cls, f, shape, cell, r)
    ensures Closed(r, cell, cls, shape, next0, next)
  {
    forall c | c in r && next0 <= r[c] < next ensures NeighborsJoined(r, cell, cls, shape, c) {
      forall n | n in CardinalNeighbors(c) && IsValidFlatGridPosition(n, shape)
        ensures n in r && (r[n] == r[c] || (r[n] == -1 && !Open(cell, cls, n)))
      {
        RefillClosedAt(m, r, p, cell, cls, shape, next0, f, c, n);
      }
    }
  }

  /** One neighbour pair of the closure above. */
  lemma RefillClosedAt(m: AreaMap, r: AreaMap, p: FlatKey, cell: Snapshot, cls: int, shape: int, next0: int, f: int,
                       c: FlatKey, n: FlatKey)
    requires 1 <= next0 <= f && Closed(m, cell, cls, shape, next0, f)
    requires forall k | k in m :: m[k] != f
    requires KeepsFresh(m, r, cell, cls, next0, f)
    requires FillResult(m, p, cls, f, shape, cell, r)
    requires c in r && next0 <= r[c] < f + 1 && n in CardinalNeighbors(c) && IsValidFlatGridPosition(n, shape)
    ensures n in r && (r[n] == r[c] || (r[n] == -1 && !Open(cell, cls, n)))
  {
    FillChangedAt(m, p, cls, f, shape, cell, r, c);
    if r[c] != f {
      assert c in m && r[c] == m[c];
      assert n in m && (m[n] == m[c] || (m[n] == -1 && !Open(cell, cls, n)));
    } else {
      assert c !in m || m[c] != f;
      assert Open(cell, cls, c);
      FillClosureAt(m, p, cls, f, shape, cell, r, c, n);
    }
  }

  /** Flooding an adjacent key whose label is not fresh with the next label keeps the refill state. */
  lemma RefillFillKeeps(m0: AreaMap, adjacent: seq<FlatKey>, q: int, m: AreaMap, seeds: map<int, FlatKey>,
                        r: AreaMap, cell: Snapshot, cls: int, shape: int, next0: int, f: int,
                        seeds': map<int, FlatKey>, next: int)
    requires RefillState(m0, adjacent, q, m, seeds, cell, cls, shape, next0, f) && LabelsBelow(m0, next0)
    requires 0 <= q < |adjacent| && adjacent[q] in m && !(next0 <= m[adjacent[q]] < f)
    requires IsValidFlatGridPosition(adjacent[q], shape)
    requires FillResult(m, adjacent[q], cls, f, shape, cell, r)
    requires seeds' == seeds[f := adjacent[q]] && next == f + 1
    ensures RefillState(m0, adjacent, q + 1, r, seeds', cell, cls, shape, next0, next)
  {
    var p := adjacent[q];
    RefillKeepsFresh(m0, adjacent, q, m, seeds, r, cell, cls, shape, next0, f);
    RefillStep(m0, m, r, p, cell, cls, shape, next0, f, next);
    RefillSeedsKept(m0, adjacent, q, m, seeds, r, p, cell, cls, shape, next0, f, seeds');
    RefillReachKept(m0, adjacent, q, m, seeds, r, p, cell, cls, shape, next0, f, seeds', next);
    ClosedKept(m, r, p, cell, cls, shape, next0, f, next);
    RefillDoneKept(m0, adjacent, q, m, seeds, r, cell, cls, shape, next0, f, next);
    SeedsGrow(adjacent, q, seeds, f);
    RefillOriginsKept(m0, m, seeds, r, p, cell, cls, shape, next0, f);
    assert forall l :: l in seeds' <==> next0 <= l < next;
  }

  /** Every adjacent key of the old map is still a key while the refill runs. */
  lemma RefillKeyPresent(m0: AreaMap, adjacent: seq<FlatKey>, q: int, m: AreaMap, seeds: map<int, FlatKey>,
                         cell: Snapshot, cls: int, shape: int, next0: int, next: int)
    requires RefillState(m0, adjacent, q, m, seeds, cell, cls, shape, next0, next)
    requires 0 <= q < |adjacent| && adjacent[q] in m0
    ensures adjacent[q] in m
  {
  }

  /** The set `filled` holds exactly the labels handed out so far, those in [next0, next). */
  ghost predicate HandedOut(filled: set<int>, next0: int, next: int) {
    forall l :: l in filled <==> next0 <= l < next
  }

  /** Handing out the label `next` extends the handed-out range by one. */
  lemma HandedOutGrows(filled: set<int>, next0: int, next: int, filled': set<int>, next': int)
    requires next0 <= next && HandedOut(filled, next0, next) && filled' == filled + {next} && next' == next + 1
    ensures HandedOut(filled', next0, next')
  {
  }

  /** An adjacent key that already carries a fresh label is skipped. */
  lemma RefillSkip(m0: AreaMap, adjacent: seq<FlatKey>, q: int, m: AreaMap, seeds: map<int, FlatKey>,
                   cell: Snapshot, cls: int, shape: int, next0: int, next: int)
    requires RefillState(m0, adjacent, q, m, seeds, cell, cls, shape, next0, next)
    requires 0 <= q < |adjacent| && adjacent[q] in m && next0 <= m[adjacent[q]] < next
    ensures RefillState(m0, adjacent, q + 1, m, seeds, cell, cls, shape, next0, next)
  {
    SeedsSkip(adjacent, q, seeds);
    assert RefillProgress(adjacent, q + 1, m, seeds, cell, cls, next0, next);
  }

  /** After the fill from the `q`-th adjacent key, the first `q + 1` have a fresh label or are blocked. */
  lemma RefillDoneKept(m0: AreaMap, adjacent: seq<FlatKey>, q: int, m: AreaMap, seeds: map<int, FlatKey>,
                       r: AreaMap, cell: Snapshot, cls: int, shape: int, next0: int, f: int, next: int)
    requires RefillState(m0, adjacent, q, m, seeds, cell, cls, shape, next0, f)
    requires 0 <= q < |adjacent| && next == f + 1
    requires KeepsFresh(m, r, cell, cls, next0, f)
    requires FillResult(m, adjacent[q], cls, f, shape, cell, r)
    ensures forall j | 0 <= j < q + 1 && j < |adjacent| ::
              adjacent[j] in r && (next0 <= r[adjacent[j]] < next || (r[adjacent[j]] == -1 && !Open(cell, cls, adjacent[j])))
  {
    forall j | 0 <= j < q + 1 && j < |adjacent|
      ensures adjacent[j] in r && (next0 <= r[adjacent[j]] < next || (r[adjacent[j]] == -1 && !Open(cell, cls, adjacent[j])))
    {
      if j < q {
        assert adjacent[j] in m;
      }
    }
  }

  /** The flood fill of `addPassableTile` keeps labels below the counter. */
  lemma AddKeepsLabels(m: AreaMap, r: AreaMap, tile: FlatKey, cls: int, a: int, shape: int, cell: Snapshot, next: int)
    requires LabelsBelow(m, next) && 1 <= a < next
    requires FillResult(m, tile, cls, a, shape, cell, r)
    ensures LabelsBelow(r[tile := a], next)
  {
    forall k | k in r ensures r[k] == -1 || 1 <= r[k] < next {
      if k !in m || r[k] != m[k] {
      }
    }
  }

  /** The passability verdict of class `cls` differs between two snapshots. */
  predicate Flips(before: GridEntityData, after: GridEntityData, cls: int) {
    IsGridDataPassable(Some(before), cls) != IsGridDataPassable(Some(after), cls)
  }

  /** Some cached tile's verdict for `cls` differs from the live room's. */
  ghost predicate AnyFlips(tiles: map<FlatKey, GridEntityData>, room: LiveRoom, cls: int) {
    exists k | k in tiles :: Flips(tiles[k], FromEntity(room(k)), cls)
  }

  /**
   * What `addPassableTile` does to one class's map `m0` and counter `n0`: a
   * tile not labelled -1 is left alone; otherwise the live room is flooded
   * from the tile with the label of its first labelled neighbour, or, with no
   * such neighbour, the tile takes a fresh label.
   */
  ghost predicate AddResult(m0: AreaMap, n0: int, m: AreaMap, n: int, tile: FlatKey, cell: Snapshot, cls: int,
                            shape: int)
  {
    if Get(m0, tile) != Some(-1) then m == m0 && n == n0
    else match FirstLabelled(m0, shape, CardinalNeighbors(tile))
      case Some(a) => n == n0 && exists r :: FillResult(m0, tile, cls, a, shape, cell, r) && m == r[tile := a]
      case None => m == m0[tile := n0] && n == n0 + 1
  }

  /**
   * What `removePassableTile` does to one class's map `m0` and counter `n0`: a
   * tile labelled -1 is left alone; otherwise, with two or more labelled
   * neighbours, the refill floods them with fresh labels, and the tile ends -1.
   */
  ghost predicate RemoveResult(m0: AreaMap, n0: int, m: AreaMap, n: int, tile: FlatKey, cell: Snapshot, cls: int,
                               shape: int)
  {
    if Get(m0, tile) == Some(-1) then m == m0 && n == n0
    else
      var adjacent := LabelledNeighbors(m0, shape, CardinalNeighbors(tile));
      if |adjacent| <= 1 then m == m0[tile := -1] && n == n0
      else exists r, seeds :: RefillResult(m0, adjacent, r, seeds, cell, cls, shape, n0, n) && m == r[tile := -1]
  }

  /**
   * What `incrementalUpdateAreas` does to one class for a tile whose cached
   * snapshot `before` gives way to `after`: nothing when the class's verdict
   * is the same for both, otherwise an add when the tile became passable and
   * a remove when it became blocked.
   */
  ghost predicate TileRepaired(before: GridEntityData, after: GridEntityData, m0: AreaMap, n0: int, m: AreaMap, n: int,
                               tile: FlatKey, cell: Snapshot, cls: int, shape: int)
  {
    if !Flips(before, after, cls) then m == m0 && n == n0
    else if IsGridDataPassable(Some(after), cls) then AddResult(m0, n0, m, n, tile, cell, cls, shape)
    else RemoveResult(m0, n0, m, n, tile, cell, cls, shape)
  }

  /** A cache with the same keys whose every entry is the live snapshot is the refreshed cache. */
  lemma RefreshedCache(before: map<FlatKey, GridEntityData>, after: map<FlatKey, GridEntityData>, room: LiveRoom)
    requires forall k :: k in after <==> k in before
    requires forall k | k in after :: after[k] == FromEntity(room(k))
    ensures after == map k | k in before :: FromEntity(room(k))
  {
    var want := map k | k in before :: FromEntity(room(k));
    forall k ensures k in after <==> k in want {
      assert k in want <==> k in before;
    }
    forall k | k in after ensures after[k] == want[k] {
      assert k in before;
    }
  }

  /** The four class maps and their label counters, as one value. */
  datatype Labelling = Labelling(areaMaps: seq<AreaMap>, nextAreaIndex: seq<int>)

  /** Every class of `l0` is repaired into `l1` for the tile going from `before` to `after`. */
  ghost predicate AllRepaired(before: GridEntityData, after: GridEntityData, l0: Labelling, l1: Labelling,
                              tile: FlatKey, cell: Snapshot, shape: int)
  {
    && |l0.areaMaps| == 4 && |l0.nextAreaIndex| == 4 && |l1.areaMaps| == 4 && |l1.nextAreaIndex| == 4
    && forall i | 0 <= i < 4 ::
         TileRepaired(before, after, l0.areaMaps[i], l0.nextAreaIndex[i], l1.areaMaps[i], l1.nextAreaIndex[i],
                      tile, cell, CollisionTypes[i], shape)
  }

  /**
   * Adding a tile merges areas: when the tile is open, the fill from it ends
   * with every open in-bounds neighbour labelled like the tile, whatever area
   * that neighbour belonged to before.
   */
  lemma AddJoinsOpenNeighbors(m: AreaMap, tile: FlatKey, cls: int, a: int, shape: int, cell: Snapshot, r: AreaMap,
                              n: FlatKey)
    requires FillResult(m, tile, cls, a, shape, cell, r) && Open(cell, cls, tile) && a != -1
    requires n in CardinalNeighbors(tile) && IsValidFlatGridPosition(n, shape) && Open(cell, cls, n)
    ensures n in r && r[tile := a][n] == a && r[tile := a][tile] == a
  {
    assert tile in r && r[tile] == a;
  }

  class RoomData {
    const shape: int
    /** The cached snapshot of every tile, and the tiles in insertion order. */
    var roomTiles: map<FlatKey, GridEntityData>
    var tileOrder: seq<FlatKey>
    /** One label map and one label counter per entry of CollisionTypes. */
    var areaMaps: seq<AreaMap>
    var nextAreaIndex: seq<int>

    ghost predicate Valid()
      reads this
    {
      && |areaMaps| == 4 && |nextAreaIndex| == 4
      && (forall i | 0 <= i < 4 :: nextAreaIndex[i] >= 1 && LabelsBelow(areaMaps[i], nextAreaIndex[i]))
      && (forall i, j | 0 <= i < j < |tileOrder| :: tileOrder[i] != tileOrder[j])
      && (forall k :: k in roomTiles <==> k in tileOrder)
      && (forall k | k in roomTiles :: IsValidFlatGridPosition(k, shape))
    }

    /** The room's tiles (the raster scan of its shape) are given as `tiles`. */
    constructor (sourceShape: int, tiles: seq<FlatKey>, room: LiveRoom)
      requires forall k | k in tiles :: IsValidFlatGridPosition(k, sourceShape)
      ensures Valid() && shape == sourceShape
      ensures roomTiles == map k | k in tiles :: FromEntity(room(k))
      ensures tileOrder == Dedup(tiles)
      ensures forall i | 0 <= i < 4 ::
                ClassLabelled(areaMaps[i], tiles, Cached(roomTiles), CollisionTypes[i], shape, 1, nextAreaIndex[i])
    {
      shape := sourceShape;
      roomTiles, tileOrder := map[], [];
      areaMaps := [map[], map[], map[], map[]];
      nextAreaIndex := [1, 1, 1, 1];
      new;
      FullUpdateAreas(tiles, room);
    }

    /**
     * `fullUpdateAreas`: caches a snapshot of every tile, then labels the
     * tiles of each class from empty maps with labels taken from the counters.
     */
    method FullUpdateAreas(tiles: seq<FlatKey>, room: LiveRoom)
      requires Valid()
      requires forall k | k in tiles :: IsValidFlatGridPosition(k, shape)
      modifies this
      ensures Valid()
      ensures roomTiles == map k | k in tiles :: FromEntity(room(k))
      ensures tileOrder == Dedup(tiles)
      ensures forall i | 0 <= i < 4 ::
                ClassLabelled(areaMaps[i], tiles, Cached(roomTiles), CollisionTypes[i], shape,
                              old(nextAreaIndex[i]), nextAreaIndex[i])
    {
      var cache, order := CacheTiles(tiles, room);
      var maps: seq<AreaMap> := [map[], map[], map[], map[]];
      var counters := nextAreaIndex;
      ghost var next0 := nextAreaIndex;
      assert forall k | k in order :: IsValidFlatGridPosition(k, shape) by {
        forall k | k in order ensures IsValidFlatGridPosition(k, shape) { assert k in cache; }
      }
      for i := 0 to 4
        invariant |maps| == 4 && |counters| == 4
        invariant forall j | i <= j < 4 :: counters[j] == next0[j]
        invariant forall j | 0 <= j < i ::
                    ClassLabelled(maps[j], tiles, Cached(cache), CollisionTypes[j], shape, next0[j], counters[j])
      {
        var m, next := FloodFillPhase(order, Cached(cache), CollisionTypes[i], shape, counters[i]);
        maps := maps[i := m];
        counters := counters[i := next];
      }
      roomTiles, tileOrder, areaMaps, nextAreaIndex := cache, order, maps, counters;
    }

    /**
     * `addPassableTile`: only a tile labelled exactly -1 is touched.  It joins
     * the area of its first labelled in-bounds neighbour (order -x, +x, -y, +y):
     * the live room is flooded from the tile with that label, which also
     * relabels every other area the tile now touches, and the tile takes the
     * label.  With no labelled neighbour the tile takes a fresh label.
     */
    method AddPassableTile(areaMapIndex: int, tilePosition: FlatKey, room: LiveRoom)
      requires Valid() && 0 <= areaMapIndex < 4
      modifies this
      ensures Valid()
      ensures roomTiles == old(roomTiles) && tileOrder == old(tileOrder)
      ensures forall j | 0 <= j < 4 && j != areaMapIndex ::
                areaMaps[j] == old(areaMaps[j]) && nextAreaIndex[j] == old(nextAreaIndex[j])
      ensures AddResult(old(areaMaps[areaMapIndex]), old(nextAreaIndex[areaMapIndex]), areaMaps[areaMapIndex],
                        nextAreaIndex[areaMapIndex], tilePosition, Live(room), CollisionTypes[areaMapIndex], shape)
    {
      var m, next := AddToClass(areaMaps[areaMapIndex], nextAreaIndex[areaMapIndex], tilePosition,
                                CollisionTypes[areaMapIndex], room);
      StoreClass(areaMapIndex, m, next);
    }

    /** The label work of `addPassableTile` on one class's map and counter. */
    method AddToClass(areaMap: AreaMap, next0: int, tilePosition: FlatKey, testCollision: int, room: LiveRoom)
      returns (m: AreaMap, next: int)
      requires 1 <= next0 && LabelsBelow(areaMap, next0)
      ensures AddResult(areaMap, next0, m, next, tilePosition, Live(room), testCollision, shape)
      ensures next0 <= next && LabelsBelow(m, next)
    {
      m, next := areaMap, next0;
      if Get(areaMap, tilePosition) != Some(-1) {
        return;
      }
      var neighbors := CardinalNeighbors(tilePosition);
      for j := 0 to |neighbors|
        invariant forall i | 0 <= i < j :: !IsLabelledAt(areaMap, shape, neighbors[i])
      {
        var adjacentPosition := neighbors[j];
        if !IsValidFlatGridPosition(adjacentPosition, shape) {
          continue;
        }
        var areaAtPosition := Get(areaMap, adjacentPosition);
        if areaAtPosition == None || areaAtPosition == Some(-1) {
          continue;
        }
        FirstLabelledAt(areaMap, shape, neighbors, j);
        var r := FloodFillArea(areaMap, tilePosition, testCollision, areaAtPosition.value, shape, Live(room));
        m := r[tilePosition := areaAtPosition.value];
        AddKeepsLabels(areaMap, r, tilePosition, testCollision, areaAtPosition.value, shape, Live(room), next0);
        return;
      }
      m := areaMap[tilePosition := next0];
      next := next0 + 1;
    }

    /**
     * `removePassableTile`: a tile labelled -1 is left alone.  Otherwise, when
     * two or more in-bounds neighbours are labelled, each of them whose current
     * label is not one handed out earlier in this call is flooded in the live
     * room with a fresh label; the tile always ends labelled -1.
     */
    method RemovePassableTile(areaMapIndex: int, tilePosition: FlatKey, room: LiveRoom)
      requires Valid() && 0 <= areaMapIndex < 4
      modifies this
      ensures Valid()
      ensures roomTiles == old(roomTiles) && tileOrder == old(tileOrder)
      ensures forall j | 0 <= j < 4 && j != areaMapIndex ::
                areaMaps[j] == old(areaMaps[j]) && nextAreaIndex[j] == old(nextAreaIndex[j])
      ensures RemoveResult(old(areaMaps[areaMapIndex]), old(nextAreaIndex[areaMapIndex]), areaMaps[areaMapIndex],
                           nextAreaIndex[areaMapIndex], tilePosition, Live(room), CollisionTypes[areaMapIndex], shape)
      ensures tilePosition in areaMaps[areaMapIndex] && areaMaps[areaMapIndex][tilePosition] == -1
    {
      var m, next := RemoveFromClass(areaMaps[areaMapIndex], nextAreaIndex[areaMapIndex], tilePosition,
                                     CollisionTypes[areaMapIndex], room);
      StoreClass(areaMapIndex, m, next);
    }

    /** The label work of `removePassableTile` on one class's map and counter. */
    method RemoveFromClass(areaMap: AreaMap, next0: int, tilePosition: FlatKey, testCollision: int, room: LiveRoom)
      returns (m: AreaMap, next: int)
      requires 1 <= next0 && LabelsBelow(areaMap, next0)
      ensures RemoveResult(areaMap, next0, m, next, tilePosition, Live(room), testCollision, shape)
      ensures tilePosition in m && m[tilePosition] == -1
      ensures next0 <= next && LabelsBelow(m, next)
    {
      m, next := areaMap, next0;
      if Get(areaMap, tilePosition) == Some(-1) {
        assert areaMap == areaMap[tilePosition := -1];
        assert Refilled(areaMap, areaMap, Live(room), testCollision, next, next);
        return;
      }
      var adjacentAreas := CollectLabelledNeighbors(areaMap, shape, CardinalNeighbors(tilePosition));
      CardinalNeighborsDistinct(tilePosition);
      LabelledNeighborsDistinct(areaMap, shape, CardinalNeighbors(tilePosition));
      if |adjacentAreas| > 1 {
        ghost var seeds;
        m, next, seeds := RefillAreas(areaMap, adjacentAreas, testCollision, next, room);
      }
      assert Refilled(areaMap, m, Live(room), testCollision, next0, next);
      m := m[tilePosition := -1];
    }

    /** Stores a new label map and counter for class `i`, keeping the rest of the room. */
    method StoreClass(i: int, m: AreaMap, next: int)
      requires Valid() && 0 <= i < 4 && 1 <= next && LabelsBelow(m, next)
      modifies this
      ensures Valid()
      ensures roomTiles == old(roomTiles) && tileOrder == old(tileOrder)
      ensures areaMaps == old(areaMaps)[i := m] && nextAreaIndex == old(nextAreaIndex)[i := next]
    {
      areaMaps := areaMaps[i := m];
      nextAreaIndex := nextAreaIndex[i := next];
    }

    /**
     * The refill loop of `removePassableTile`: each adjacent key whose label is
     * not one this loop has handed out is flooded with the next fresh label.
     */
    method RefillAreas(areaMap: AreaMap, adjacentAreas: seq<FlatKey>, testCollision: int, nextIndex: int,
                       room: LiveRoom)
      returns (m: AreaMap, next: int, ghost seeds: map<int, FlatKey>)
      requires 1 <= nextIndex && LabelsBelow(areaMap, nextIndex)
      requires forall p | p in adjacentAreas :: p in areaMap && IsValidFlatGridPosition(p, shape)
      requires Distinct(adjacentAreas)
      ensures nextIndex <= next <= nextIndex + |adjacentAreas|
      ensures Refilled(areaMap, m, Live(room), testCollision, nextIndex, next)
      ensures RefillResult(areaMap, adjacentAreas, m, seeds, Live(room), testCollision, shape, nextIndex, next)
    {
      m, next, seeds := areaMap, nextIndex, map[];
      var filledAreas: set<int> := {};
      RefillStarts(areaMap, adjacentAreas, Live(room), testCollision, shape, nextIndex);
      forall i | 0 <= i < |adjacentAreas| ensures adjacentAreas[i] in areaMap && IsValidFlatGridPosition(adjacentAreas[i], shape) {
        var p := adjacentAreas[i];
        assert p in adjacentAreas;
      }
      for q := 0 to |adjacentAreas|
        invariant HandedOut(filledAreas, nextIndex, next)
        invariant RefillState(areaMap, adjacentAreas, q, m, seeds, Live(room), testCollision, shape, nextIndex, next)
      {
        m, next, seeds, filledAreas :=
          RefillAdjacent(areaMap, adjacentAreas, q, m, next, seeds, filledAreas, testCollision, nextIndex, room);
      }
    }

    /**
     * One pass of the refill loop: the `q`-th adjacent key is skipped when its
     * label was handed out earlier in this call, and otherwise flooded with
     * the next fresh label.
     */
    method RefillAdjacent(areaMap: AreaMap, adjacentAreas: seq<FlatKey>, q: int, m: AreaMap, next: int,
                          ghost seeds: map<int, FlatKey>, filledAreas: set<int>, testCollision: int, nextIndex: int,
                          room: LiveRoom)
      returns (m': AreaMap, next': int, ghost seeds': map<int, FlatKey>, filledAreas': set<int>)
      requires LabelsBelow(areaMap, nextIndex) && HandedOut(filledAreas, nextIndex, next)
      requires RefillState(areaMap, adjacentAreas, q, m, seeds, Live(room), testCollision, shape, nextIndex, next)
      requires 0 <= q < |adjacentAreas| && adjacentAreas[q] in areaMap && IsValidFlatGridPosition(adjacentAreas[q], shape)
      ensures HandedOut(filledAreas', nextIndex, next')
      ensures RefillState(areaMap, adjacentAreas, q + 1, m', seeds', Live(room), testCollision, shape, nextIndex, next')
    {
      var adjacentPosition := adjacentAreas[q];
      RefillKeyPresent(areaMap, adjacentAreas, q, m, seeds, Live(room), testCollision, shape, nextIndex, next);
      var areaAtPosition := Get(m, adjacentPosition);
      if areaAtPosition.Some? && areaAtPosition.value in filledAreas {
        RefillSkip(areaMap, adjacentAreas, q, m, seeds, Live(room), testCollision, shape, nextIndex, next);
        return m, next, seeds, filledAreas;
      }
      m', next', seeds', filledAreas' :=
        FillFromAdjacent(areaMap, adjacentAreas, q, m, next, seeds, filledAreas, testCollision, nextIndex, room);
    }

    /** One step of the refill: floods from the `q`-th adjacent key with the fresh label `fillArea`. */
    method FillFromAdjacent(areaMap: AreaMap, adjacentAreas: seq<FlatKey>, q: int, m: AreaMap, fillArea: int,
                            ghost seeds: map<int, FlatKey>, filledAreas: set<int>, testCollision: int, nextIndex: int,
                            room: LiveRoom)
      returns (r: AreaMap, next': int, ghost seeds': map<int, FlatKey>, filledAreas': set<int>)
      requires LabelsBelow(areaMap, nextIndex) && HandedOut(filledAreas, nextIndex, fillArea)
      requires RefillState(areaMap, adjacentAreas, q, m, seeds, Live(room), testCollision, shape, nextIndex, fillArea)
      requires 0 <= q < |adjacentAreas| && adjacentAreas[q] in m && !(nextIndex <= m[adjacentAreas[q]] < fillArea)
      requires IsValidFlatGridPosition(adjacentAreas[q], shape)
      ensures HandedOut(filledAreas', nextIndex, next')
      ensures RefillState(areaMap, adjacentAreas, q + 1, r, seeds', Live(room), testCollision, shape, nextIndex, next')
    {
      r := FloodFillArea(m, adjacentAreas[q], testCollision, fillArea, shape, Live(room));
      seeds' := seeds[fillArea := adjacentAreas[q]];
      filledAreas' := filledAreas + {fillArea};
      next' := fillArea + 1;
      RefillFillKeeps(areaMap, adjacentAreas, q, m, seeds, r, Live(room), testCollision, shape, nextIndex, fillArea,
                      seeds', next');
      HandedOutGrows(filledAreas, nextIndex, fillArea, filledAreas', next');
    }

    /**
     * `incrementalUpdateAreas`: compares every cached tile with the live room;
     * for a changed tile, each class whose verdict flipped is repaired by
     * adding or removing the tile, and the cache takes the live snapshot.
     */
    method IncrementalUpdateAreas(room: LiveRoom) returns (ghost trace: seq<Labelling>)
      requires Valid()
      modifies this
      ensures Valid()
      ensures tileOrder == old(tileOrder)
      ensures roomTiles == map k | k in old(roomTiles) :: FromEntity(room(k))
      ensures forall t | 0 <= t < |tileOrder| :: tileOrder[t] in old(roomTiles)
      ensures |trace| == |tileOrder| + 1
      ensures trace[0] == Labelling(old(areaMaps), old(nextAreaIndex))
      ensures trace[|tileOrder|] == Labelling(areaMaps, nextAreaIndex)
      ensures forall t | 0 <= t < |tileOrder| ::
                AllRepaired(old(roomTiles)[tileOrder[t]], FromEntity(room(tileOrder[t])), trace[t], trace[t + 1],
                            tileOrder[t], Live(room), shape)
      ensures forall i | 0 <= i < 4 && !AnyFlips(old(roomTiles), room, CollisionTypes[i]) ::
                areaMaps[i] == old(areaMaps[i]) && nextAreaIndex[i] == old(nextAreaIndex[i])
    {
      forall q | 0 <= q < |tileOrder| ensures tileOrder[q] in roomTiles {
        var k := tileOrder[q];
        assert k in tileOrder;
        assert k in roomTiles <==> k in tileOrder;
      }
      trace := [Labelling(areaMaps, nextAreaIndex)];
      for t := 0 to |tileOrder|
        invariant Valid() && tileOrder == old(tileOrder)
        invariant forall k :: k in roomTiles <==> k in old(roomTiles)
        invariant forall q | 0 <= q < |tileOrder| :: tileOrder[q] in roomTiles
        invariant forall q | 0 <= q < t :: roomTiles[tileOrder[q]] == FromEntity(room(tileOrder[q]))
        invariant forall q | t <= q < |tileOrder| :: roomTiles[tileOrder[q]] == old(roomTiles)[tileOrder[q]]
        invariant |trace| == t + 1
        invariant trace[0] == Labelling(old(areaMaps), old(nextAreaIndex))
        invariant trace[t] == Labelling(areaMaps, nextAreaIndex)
        invariant forall q | 0 <= q < t ::
                    AllRepaired(old(roomTiles)[tileOrder[q]], FromEntity(room(tileOrder[q])), trace[q], trace[q + 1],
                                tileOrder[q], Live(room), shape)
        invariant forall i | 0 <= i < 4 &&
                    (forall q | 0 <= q < t :: !Flips(old(roomTiles)[tileOrder[q]], FromEntity(room(tileOrder[q])), CollisionTypes[i])) ::
                    areaMaps[i] == old(areaMaps[i]) && nextAreaIndex[i] == old(nextAreaIndex[i])
      {
        RefreshTile(tileOrder[t], room);
        trace := trace + [Labelling(areaMaps, nextAreaIndex)];
      }
      forall k | k in roomTiles ensures roomTiles[k] == FromEntity(room(k)) {
        var q :| 0 <= q < |tileOrder| && tileOrder[q] == k;
      }
      RefreshedCache(old(roomTiles), roomTiles, room);
      forall i, q | 0 <= i < 4 && !AnyFlips(old(roomTiles), room, CollisionTypes[i]) && 0 <= q < |tileOrder|
        ensures !Flips(old(roomTiles)[tileOrder[q]], FromEntity(room(tileOrder[q])), CollisionTypes[i])
      {
        var k := tileOrder[q];
        assert k in old(roomTiles);
        assert !Flips(old(roomTiles)[k], FromEntity(room(k)), CollisionTypes[i]);
      }
    }

    /**
     * One pass of the tile loop of `incrementalUpdateAreas`: an unchanged
     * snapshot is skipped; otherwise the classes whose verdict flipped are
     * repaired and the cache takes the live snapshot.
     */
    method RefreshTile(testTile: FlatKey, room: LiveRoom)
      requires Valid() && testTile in roomTiles
      modifies this
      ensures Valid() && tileOrder == old(tileOrder)
      ensures roomTiles == old(roomTiles)[testTile := FromEntity(room(testTile))]
      ensures AllRepaired(old(roomTiles)[testTile], FromEntity(room(testTile)),
                          Labelling(old(areaMaps), old(nextAreaIndex)), Labelling(areaMaps, nextAreaIndex),
                          testTile, Live(room), shape)
    {
      var cachedEntity := roomTiles[testTile];
      var actualEntity := FromEntity(room(testTile));
      if SameAs(cachedEntity, actualEntity) {
        assert roomTiles == roomTiles[testTile := actualEntity];
        return;
      }
      UpdateTile(testTile, cachedEntity, actualEntity, room);
      roomTiles := roomTiles[testTile := actualEntity];
    }

    /** The class loop of `incrementalUpdateAreas` for one changed tile. */
    method UpdateTile(testTile: FlatKey, cachedEntity: GridEntityData, actualEntity: GridEntityData, room: LiveRoom)
      requires Valid()
      modifies this
      ensures Valid()
      ensures roomTiles == old(roomTiles) && tileOrder == old(tileOrder)
      ensures AllRepaired(cachedEntity, actualEntity, Labelling(old(areaMaps), old(nextAreaIndex)),
                          Labelling(areaMaps, nextAreaIndex), testTile, Live(room), shape)
    {
      for i := 0 to 4
        invariant Valid()
        invariant roomTiles == old(roomTiles) && tileOrder == old(tileOrder)
        invariant forall j | i <= j < 4 :: areaMaps[j] == old(areaMaps[j]) && nextAreaIndex[j] == old(nextAreaIndex[j])
        invariant forall j | 0 <= j < i ::
                    TileRepaired(cachedEntity, actualEntity, old(areaMaps[j]), old(nextAreaIndex[j]), areaMaps[j],
                                 nextAreaIndex[j], testTile, Live(room), CollisionTypes[j], shape)
      {
        var testCollision := CollisionTypes[i];
        var isNowPassable := IsGridDataPassable(Some(actualEntity), testCollision);
        if IsGridDataPassable(Some(cachedEntity), testCollision) == isNowPassable {
          continue;
        }
        if isNowPassable {
          AddPassableTile(i, testTile, room);
        } else {
          RemovePassableTile(i, testTile, room);
        }
      }
    }

    /**
     * `isPathPossible`: the map of the class's group is consulted at both
     * keys; the answer is yes when the two lookups agree and the start is not
     * -1, so two keys outside the map compare equal.
     */
    function IsPathPossible(startPosition: Vector, endPosition: Vector, collisionClass: int): (r: bool)
      reads this
      requires Valid()
      ensures var m, s, e := areaMaps[AreaMapIndex(collisionClass)], FlattenVector(startPosition), FlattenVector(endPosition);
        && (s in m && e in m ==> (r <==> m[s] == m[e] && m[s] != -1))
        && (s !in m && e !in m ==> r)
        && ((s in m) != (e in m) ==> !r)
    {
      var groupMap := areaMaps[AreaMapIndex(collisionClass)];
      var startGroup := Get(groupMap, FlattenVector(startPosition));
      var endGroup := Get(groupMap, FlattenVector(endPosition));
      startGroup == endGroup && startGroup != Some(-1)
    }

    /**
     * `isPositionPassable`: always true for class NONE, false outside the room,
     * and otherwise the verdict on the live room's cell.
     */
    function IsPositionPassable(position: FlatKey, collisionClass: int, room: LiveRoom): (r: bool)
      ensures collisionClass == GRIDCOLL_NONE ==> r
      ensures collisionClass != GRIDCOLL_NONE && !IsValidFlatGridPosition(position, shape) ==> !r
      ensures collisionClass != GRIDCOLL_NONE && IsValidFlatGridPosition(position, shape) ==>
                (r <==> Open(Live(room), collisionClass, position))
    {
      if collisionClass == GRIDCOLL_NONE then true
      else if !IsValidFlatGridPosition(position, shape) then false
      else IsGridDataPassable(Some(FromEntity(room(position))), collisionClass)
    }
  }

  /**
   * Right after a full rebuild, for a class of CollisionTypes, `isPathPossible`
   * between two tiles, the first open, says yes exactly when the first
   * reaches the second through open cells of the cached snapshot.
   */
  lemma PathPossibleAfterRebuild(room: RoomData, tiles: seq<FlatKey>, cls: int, startPosition: Vector,
                                 endPosition: Vector)
    requires room.Valid() && cls in CollisionTypes
    requires forall i | 0 <= i < 4 ::
               ClassLabelled(room.areaMaps[i], tiles, Cached(room.roomTiles), CollisionTypes[i], room.shape, 1,
                             room.nextAreaIndex[i])
    requires FlattenVector(startPosition) in tiles && FlattenVector(endPosition) in tiles
    requires Open(Cached(room.roomTiles), cls, FlattenVector(startPosition))
    ensures room.IsPathPossible(startPosition, endPosition, cls) <==>
              Reaches(Cached(room.roomTiles), cls, room.shape, FlattenVector(startPosition), FlattenVector(endPosition))
  {
    var i := AreaMapIndex(cls);
    RebuildIsPartition(room.areaMaps[i], tiles, Cached(room.roomTiles), cls, room.shape, 1, room.nextAreaIndex[i],
                       FlattenVector(startPosition), FlattenVector(endPosition));
  }
}
