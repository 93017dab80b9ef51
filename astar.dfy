/**
 * A* search over flat keys.  The open set is a MinPriorityQueue keyed by the
 * f score, `cameFrom`, `gScore` and `fScore` are FastMaps, and the path is
 * read back from the goal by following `cameFrom`.
 *
 * The search loop of the source runs until the open set is empty; here it
 * also stops after `fuel` expansions, since the neighbour function may
 * produce unboundedly many keys.
 */
module AStar {
  import opened Wrappers
  import opened FlatGridVector
  import opened FastMaps
  import opened PriorityQueue

  /** `heuristic(current, goal)`; the search also uses it as the cost of one step. */
  type Heuristic = (Vector, Vector) -> int

  /** `getNeighbors(current, goal, pathSoFar)`. */
  type NeighborFn = (FlatKey, FlatKey, seq<Vector>) -> seq<FlatKey>

  /** `Vector[] | false`, plus the outcome of running out of fuel. */
  datatype SearchResult = Found(path: seq<Vector>) | NoPath | OutOfFuel

  function Abs(n: int): nat {
    if n < 0 then -n else n
  }

  function ManhattanDist(current: Vector, goal: Vector): (r: int)
    ensures r >= 0
  {
    Abs(current.x - goal.x) + Abs(current.y - goal.y)
  }

  function ChebyshevDist(current: Vector, goal: Vector): (r: int)
    ensures r >= 0
  {
    var dx, dy := Abs(current.x - goal.x), Abs(current.y - goal.y);
    if dx < dy then dy else dx
  }

  /** Both distances are metrics on integer positions, zero exactly on equal positions. */
  lemma DistancesAreMetrics(a: Vector, b: Vector, c: Vector)
    ensures ManhattanDist(a, b) == ManhattanDist(b, a) && ChebyshevDist(a, b) == ChebyshevDist(b, a)
    ensures ManhattanDist(a, b) == 0 <==> a == b
    ensures ChebyshevDist(a, b) == 0 <==> a == b
    ensures ManhattanDist(a, c) <= ManhattanDist(a, b) + ManhattanDist(b, c)
    ensures ChebyshevDist(a, c) <= ChebyshevDist(a, b) + ChebyshevDist(b, c)
  {
  }

  /** Chebyshev never exceeds Manhattan, which is at most twice Chebyshev. */
  lemma ChebyshevBoundsManhattan(a: Vector, b: Vector)
    ensures ChebyshevDist(a, b) <= ManhattanDist(a, b) <= 2 * ChebyshevDist(a, b)
  {
  }

  /**
   * A step cost the search can use: never negative, and at least one between
   * distinct positions, so that g strictly grows along every recorded step.
   */
  ghost predicate IsStepCost(h: Heuristic) {
    forall a, b :: 0 <= h(a, b) && (a != b ==> 1 <= h(a, b))
  }

  lemma ManhattanIsStepCost()
    ensures IsStepCost(ManhattanDist)
  {
    forall a, b ensures 0 <= ManhattanDist(a, b) && (a != b ==> 1 <= ManhattanDist(a, b)) {
      DistancesAreMetrics(a, b, b);
    }
  }

  /** Every position after the first is the recorded predecessor of the one before it. */
  predicate FollowsCameFrom(cameFrom: map<FlatKey, FlatKey>, path: seq<Vector>) {
    forall i | 0 <= i < |path| - 1 ::
      FlattenVector(path[i]) in cameFrom && cameFrom[FlattenVector(path[i])] == FlattenVector(path[i + 1])
  }

  /** g is never negative and strictly drops from each recorded key to its predecessor. */
  ghost predicate Descending(cameFrom: map<FlatKey, FlatKey>, g: map<FlatKey, int>) {
    && (forall n | n in g :: 0 <= g[n])
    && (forall n | n in cameFrom :: n in g && cameFrom[n] in g && g[cameFrom[n]] < g[n])
  }

  /**
   * `reconstructPath`: the chain of predecessors from `current` back to a key
   * with none, as positions, `current` first.  The ghost `g` only bounds the
   * walk: it drops at every step, which also makes the positions distinct.
   */
  method ReconstructPath(cameFrom: FastMap<FlatKey, FlatKey>, current: FlatKey, ghost g: map<FlatKey, int>)
    returns (fullPath: seq<Vector>)
    requires current in g && Descending(cameFrom.dataTable, g)
    ensures |fullPath| >= 1 && fullPath[0] == ExpandVector(current)
    ensures FollowsCameFrom(cameFrom.dataTable, fullPath)
    ensures FlattenVector(fullPath[|fullPath| - 1]) !in cameFrom.dataTable
    ensures forall i | 0 <= i < |fullPath| ::
              FlattenVector(fullPath[i]) in g && fullPath[i] == ExpandVector(FlattenVector(fullPath[i]))
    ensures forall i, j | 0 <= i < j < |fullPath| :: fullPath[i] != fullPath[j]
  {
    var node := current;
    fullPath := [ExpandVector(node)];
    while cameFrom.Has(node)
      invariant node in g
      invariant |fullPath| >= 1 && fullPath[0] == ExpandVector(current)
      invariant fullPath[|fullPath| - 1] == ExpandVector(node)
      invariant FollowsCameFrom(cameFrom.dataTable, fullPath)
      invariant forall i | 0 <= i < |fullPath| ::
                  FlattenVector(fullPath[i]) in g && fullPath[i] == ExpandVector(FlattenVector(fullPath[i]))
      invariant forall i, j | 0 <= i < j < |fullPath| ::
                  g[FlattenVector(fullPath[j])] < g[FlattenVector(fullPath[i])]
      decreases g[node]
    {
      node := cameFrom.Get(node).value;
      fullPath := fullPath + [ExpandVector(node)];
    }
  }

  /** Every key of `region` lists, under its recorded trail, only neighbours inside `within`. */
  ghost predicate ExpandedInto(nf: NeighborFn, goal: FlatKey, region: map<FlatKey, seq<Vector>>, within: set<FlatKey>) {
    forall n | n in region :: n in within && forall m | m in nf(n, goal, region[n]) :: m in within
  }

  /**
   * What the search keeps true of its tables: the start has g 0 and no
   * predecessor, every other discovered key has one, reached by a step the
   * neighbour function offered (under the trail `via` records); g drops along
   * predecessors; queued keys are discovered; every expanded key's
   * neighbours are discovered; the goal is never expanded.
   */
  ghost predicate Core(start: FlatKey, goal: FlatKey, nf: NeighborFn, queued: multiset<FlatKey>,
                       cameFrom: map<FlatKey, FlatKey>, g: map<FlatKey, int>,
                       via: map<FlatKey, seq<Vector>>, expanded: map<FlatKey, seq<Vector>>)
  {
    && start in g && g[start] == 0
    && cameFrom.Keys == g.Keys - {start}
    && Descending(cameFrom, g)
    && (forall n | n in cameFrom :: n in via && n in nf(cameFrom[n], goal, via[n]))
    && (forall v | v in queued :: v in g)
    && ExpandedInto(nf, goal, expanded, g.Keys)
    && goal !in expanded
  }

  /** Every recorded predecessor has been expanded, or is one of `pending`, the key being expanded now. */
  ghost predicate Parents(cameFrom: map<FlatKey, FlatKey>, expanded: map<FlatKey, seq<Vector>>, pending: set<FlatKey>) {
    forall n | n in cameFrom :: cameFrom[n] in expanded || cameFrom[n] in pending
  }

  /** The `i`-th expanded key was offered as a neighbour of an earlier one. */
  ghost predicate OfferedBefore(nf: NeighborFn, goal: FlatKey, expansions: seq<FlatKey>, i: int) {
    0 <= i < |expansions| && exists j, trail | 0 <= j < i :: expansions[i] in nf(expansions[j], goal, trail)
  }

  /**
   * The keys a search expanded, in order: the start first, never the goal,
   * and each one the start or a key offered as a neighbour of an earlier one.
   */
  ghost predicate Expansions(nf: NeighborFn, start: FlatKey, goal: FlatKey, expansions: seq<FlatKey>) {
    && (|expansions| > 0 ==> expansions[0] == start)
    && (forall i | 0 <= i < |expansions| :: expansions[i] != goal)
    && (forall i | 0 <= i < |expansions| :: expansions[i] == start || OfferedBefore(nf, goal, expansions, i))
  }

  /** Every discovered key is queued, expanded, or one of `pending`. */
  ghost predicate Covered(g: map<FlatKey, int>, open: set<FlatKey>, expanded: map<FlatKey, seq<Vector>>, pending: set<FlatKey>) {
    forall n | n in g :: n in open || n in expanded || n in pending
  }

  /**
   * The f score table: the same keys as g, and each f is g plus epsilon times
   * the heuristic to the goal, taken from the key's own position, or for the
   * start from the position the search was given.
   */
  ghost predicate FScores(f: map<FlatKey, int>, g: map<FlatKey, int>, h: Heuristic, epsilon: int, goalVec: Vector,
                          start: FlatKey, startVec: Vector)
  {
    && f.Keys == g.Keys
    && (start in g ==> f[start] == g[start] + epsilon * h(startVec, goalVec))
    && forall k | k in g && k != start :: f[k] == g[k] + epsilon * h(ExpandVector(k), goalVec)
  }

  /** Every queued key is queued once, and the membership table holds exactly the queued keys. */
  ghost predicate QueuedOnce(queued: multiset<FlatKey>, members: set<FlatKey>) {
    && (forall v | v in queued :: queued[v] == 1)
    && (forall v :: v in members <==> v in queued)
  }

  /** The route to `n` through `current`, whose g is `currentG`, is no better than the recorded one. */
  ghost predicate Relaxed(g: map<FlatKey, int>, current: FlatKey, currentG: int, n: FlatKey, h: Heuristic) {
    n in g && g[n] <= currentG + h(ExpandVector(current), ExpandVector(n))
  }

  /** No key lost its g score and none rose. */
  ghost predicate NoWorse(g0: map<FlatKey, int>, g: map<FlatKey, int>) {
    g0.Keys <= g.Keys && forall k | k in g0 :: g[k] <= g0[k]
  }

  /** Recording a strictly better (or first) route to a neighbour keeps the search invariant. */
  lemma RelaxKeepsCore(start: FlatKey, goal: FlatKey, nf: NeighborFn, queued: multiset<FlatKey>,
                       cameFrom: map<FlatKey, FlatKey>, g: map<FlatKey, int>,
                       via: map<FlatKey, seq<Vector>>, expanded: map<FlatKey, seq<Vector>>,
                       h: Heuristic, current: FlatKey, neighbor: FlatKey, trail: seq<Vector>, newG: int,
                       queued': multiset<FlatKey>, cameFrom': map<FlatKey, FlatKey>, g': map<FlatKey, int>,
                       via': map<FlatKey, seq<Vector>>)
    requires Core(start, goal, nf, queued, cameFrom, g, via, expanded) && IsStepCost(h)
    requires current in g && neighbor in nf(current, goal, trail)
    requires newG == g[current] + h(ExpandVector(current), ExpandVector(neighbor))
    requires neighbor !in g || newG < g[neighbor]
    requires queued' == queued || queued' == queued + multiset{neighbor}
    requires cameFrom' == cameFrom[neighbor := current] && g' == g[neighbor := newG] && via' == via[neighbor := trail]
    ensures neighbor != current && neighbor != start && g[current] < newG
    ensures Core(start, goal, nf, queued', cameFrom', g', via', expanded)
  {
    ExpandInjective(current, neighbor);
    assert 0 <= h(ExpandVector(current), ExpandVector(neighbor));
    if neighbor != current {
      assert 1 <= h(ExpandVector(current), ExpandVector(neighbor));
    }
  }

  /** One pass of the inner loop: relaxes the route to `neighbor` through `current`. */
  method RelaxOne(openSet: MinPriorityQueue<FlatKey>, cameFrom: FastMap<FlatKey, FlatKey>,
                  gScore: FastMap<FlatKey, int>, fScore: FastMap<FlatKey, int>,
                  current: FlatKey, currentGScore: int, neighbor: FlatKey, goalVec: Vector,
                  heuristic: Heuristic, epsilon: int,
                  ghost start: FlatKey, ghost startVec: Vector, ghost nf: NeighborFn, ghost trail: seq<Vector>,
                  ghost via0: map<FlatKey, seq<Vector>>, ghost expanded: map<FlatKey, seq<Vector>>)
    returns (ghost via: map<FlatKey, seq<Vector>>)
    requires cameFrom != gScore && gScore != fScore && cameFrom != fScore
    requires neighbor in nf(current, FlattenVector(goalVec), trail) && IsStepCost(heuristic)
    requires openSet.Valid() && QueuedOnce(openSet.Values(), openSet.heapSet)
    requires Core(start, FlattenVector(goalVec), nf, openSet.Values(), cameFrom.dataTable, gScore.dataTable, via0, expanded)
    requires FScores(fScore.dataTable, gScore.dataTable, heuristic, epsilon, goalVec, start, startVec)
    requires Covered(gScore.dataTable, openSet.heapSet, expanded, {current})
    requires Parents(cameFrom.dataTable, expanded, {current})
    requires current in gScore.dataTable && gScore.dataTable[current] == currentGScore
    modifies openSet, cameFrom, gScore, fScore
    ensures openSet.Valid() && QueuedOnce(openSet.Values(), openSet.heapSet)
    ensures Parents(cameFrom.dataTable, expanded, {current})
    ensures Core(start, FlattenVector(goalVec), nf, openSet.Values(), cameFrom.dataTable, gScore.dataTable, via, expanded)
    ensures FScores(fScore.dataTable, gScore.dataTable, heuristic, epsilon, goalVec, start, startVec)
    ensures Covered(gScore.dataTable, openSet.heapSet, expanded, {current})
    ensures current in gScore.dataTable && gScore.dataTable[current] == currentGScore
    ensures NoWorse(old(gScore.dataTable), gScore.dataTable)
    ensures Relaxed(gScore.dataTable, current, currentGScore, neighbor, heuristic)
  {
    via := via0;
    var expandedNeighbor := ExpandVector(neighbor);
    var neighborGScore := currentGScore + heuristic(ExpandVector(current), expandedNeighbor);
    if !gScore.Has(neighbor) || neighborGScore < gScore.Get(neighbor).value {
      ghost var queued0, members0 := openSet.Values(), openSet.heapSet;
      ghost var g0, f0, c0 := gScore.dataTable, fScore.dataTable, cameFrom.dataTable;
      cameFrom.Set(neighbor, current);
      gScore.Set(neighbor, neighborGScore);
      var neighborFScore := neighborGScore + epsilon * heuristic(expandedNeighbor, goalVec);
      fScore.Set(neighbor, neighborFScore);
      RelaxKeepsScores(f0, g0, heuristic, epsilon, goalVec, start, startVec, current, currentGScore, neighbor,
                       neighborGScore, fScore.dataTable, gScore.dataTable);
      if !openSet.Has(neighbor) {
        InsertKeepsQueuedOnce(queued0, members0, neighbor);
        openSet.Insert(neighbor, neighborFScore);
      }
      via := via[neighbor := trail];
      RelaxKeepsCore(start, FlattenVector(goalVec), nf, queued0, c0, g0, via0, expanded, heuristic, current, neighbor,
                     trail, neighborGScore, openSet.Values(), cameFrom.dataTable, gScore.dataTable, via);
      CoveredGrows(g0, members0, openSet.heapSet, expanded, current, neighbor, neighborGScore, gScore.dataTable);
    }
  }

  /** Recording the better route to `n` keeps the f table in step with g, lowers only g at `n`, and relaxes `n`. */
  lemma RelaxKeepsScores(f: map<FlatKey, int>, g: map<FlatKey, int>, h: Heuristic, epsilon: int, goalVec: Vector,
                         start: FlatKey, startVec: Vector, current: FlatKey, currentG: int, n: FlatKey, newG: int,
                         f': map<FlatKey, int>, g': map<FlatKey, int>)
    requires FScores(f, g, h, epsilon, goalVec, start, startVec)
    requires n != start && n != current && current in g && g[current] == currentG
    requires newG == currentG + h(ExpandVector(current), ExpandVector(n))
    requires n !in g || newG < g[n]
    requires f' == f[n := newG + epsilon * h(ExpandVector(n), goalVec)] && g' == g[n := newG]
    ensures FScores(f', g', h, epsilon, goalVec, start, startVec)
    ensures NoWorse(g, g')
    ensures Relaxed(g', current, currentG, n, h)
    ensures current in g' && g'[current] == currentG
  {
  }

  /** Queuing a key that is not queued keeps every key queued once. */
  lemma InsertKeepsQueuedOnce(queued: multiset<FlatKey>, members: set<FlatKey>, v: FlatKey)
    requires QueuedOnce(queued, members) && v !in members
    ensures QueuedOnce(queued + multiset{v}, members + {v})
  {
    forall u | u in queued + multiset{v} ensures (queued + multiset{v})[u] == 1 {
      if u != v {
        assert u in queued;
      }
    }
  }

  /** A newly discovered key that ends up queued keeps every discovered key accounted for. */
  lemma CoveredGrows(g: map<FlatKey, int>, members0: set<FlatKey>, members: set<FlatKey>,
                     expanded: map<FlatKey, seq<Vector>>, current: FlatKey, n: FlatKey, newG: int, g': map<FlatKey, int>)
    requires Covered(g, members0, expanded, {current}) && members0 <= members && n in members && g' == g[n := newG]
    ensures Covered(g', members, expanded, {current})
  {
  }

  /**
   * Relaxes every neighbour of the just-popped `current`: the inner loop of
   * `findAStarPath`.  Afterwards `current` counts as expanded under `trail`.
   */
  method RelaxNeighbors(openSet: MinPriorityQueue<FlatKey>, cameFrom: FastMap<FlatKey, FlatKey>,
                        gScore: FastMap<FlatKey, int>, fScore: FastMap<FlatKey, int>,
                        current: FlatKey, neighbors: seq<FlatKey>, goalVec: Vector,
                        heuristic: Heuristic, epsilon: int,
                        ghost start: FlatKey, ghost startVec: Vector, ghost nf: NeighborFn, ghost trail: seq<Vector>,
                        ghost via0: map<FlatKey, seq<Vector>>, ghost expanded: map<FlatKey, seq<Vector>>)
    returns (ghost via: map<FlatKey, seq<Vector>>)
    requires cameFrom != gScore && gScore != fScore && cameFrom != fScore
    requires neighbors == nf(current, FlattenVector(goalVec), trail) && IsStepCost(heuristic)
    requires openSet.Valid() && QueuedOnce(openSet.Values(), openSet.heapSet)
    requires Core(start, FlattenVector(goalVec), nf, openSet.Values(), cameFrom.dataTable, gScore.dataTable, via0, expanded)
    requires FScores(fScore.dataTable, gScore.dataTable, heuristic, epsilon, goalVec, start, startVec)
    requires Covered(gScore.dataTable, openSet.heapSet, expanded, {current})
    requires Parents(cameFrom.dataTable, expanded, {current})
    requires current in gScore.dataTable && current != FlattenVector(goalVec)
    modifies openSet, cameFrom, gScore, fScore
    ensures openSet.Valid() && QueuedOnce(openSet.Values(), openSet.heapSet)
    ensures Parents(cameFrom.dataTable, expanded[current := trail], {})
    ensures Core(start, FlattenVector(goalVec), nf, openSet.Values(), cameFrom.dataTable, gScore.dataTable, via,
                 expanded[current := trail])
    ensures FScores(fScore.dataTable, gScore.dataTable, heuristic, epsilon, goalVec, start, startVec)
    ensures Covered(gScore.dataTable, openSet.heapSet, expanded[current := trail], {})
    ensures NoWorse(old(gScore.dataTable), gScore.dataTable)
    ensures current in gScore.dataTable && gScore.dataTable[current] == old(gScore.dataTable[current])
    ensures forall n | n in neighbors :: Relaxed(gScore.dataTable, current, gScore.dataTable[current], n, heuristic)
  {
    ghost var goal := FlattenVector(goalVec);
    var currentGScore := gScore.Get(current).value;
    via := via0;
    var i := 0;
    while i < |neighbors|
      invariant 0 <= i <= |neighbors|
      invariant openSet.Valid() && QueuedOnce(openSet.Values(), openSet.heapSet)
      invariant Core(start, goal, nf, openSet.Values(), cameFrom.dataTable, gScore.dataTable, via, expanded)
      invariant FScores(fScore.dataTable, gScore.dataTable, heuristic, epsilon, goalVec, start, startVec)
      invariant Covered(gScore.dataTable, openSet.heapSet, expanded, {current})
      invariant Parents(cameFrom.dataTable, expanded, {current})
      invariant current in gScore.dataTable && gScore.dataTable[current] == currentGScore
      invariant NoWorse(old(gScore.dataTable), gScore.dataTable)
      invariant forall j | 0 <= j < i :: Relaxed(gScore.dataTable, current, currentGScore, neighbors[j], heuristic)
    {
      ghost var g0 := gScore.dataTable;
      via := RelaxOne(openSet, cameFrom, gScore, fScore, current, currentGScore, neighbors[i], goalVec, heuristic,
                      epsilon, start, startVec, nf, trail, via, expanded);
      NoWorseTrans(old(gScore.dataTable), g0, gScore.dataTable);
      RelaxedKept(g0, gScore.dataTable, current, currentGScore, neighbors, i, heuristic);
      i := i + 1;
    }
    forall n | n in neighbors ensures Relaxed(gScore.dataTable, current, currentGScore, n, heuristic) {
      var j :| 0 <= j < |neighbors| && neighbors[j] == n;
    }
    ParentsExpanded(cameFrom.dataTable, expanded, current, trail);
  }

  /** Once `current` counts as expanded, every recorded predecessor has been expanded. */
  lemma ParentsExpanded(cameFrom: map<FlatKey, FlatKey>, expanded: map<FlatKey, seq<Vector>>, current: FlatKey,
                        trail: seq<Vector>)
    requires Parents(cameFrom, expanded, {current})
    ensures Parents(cameFrom, expanded[current := trail], {})
  {
  }

  /** Lowering scores keeps the neighbours already relaxed relaxed. */
  lemma RelaxedKept(g0: map<FlatKey, int>, g: map<FlatKey, int>, current: FlatKey, currentG: int,
                    neighbors: seq<FlatKey>, i: int, h: Heuristic)
    requires 0 <= i < |neighbors| && NoWorse(g0, g)
    requires forall j | 0 <= j < i :: Relaxed(g0, current, currentG, neighbors[j], h)
    requires Relaxed(g, current, currentG, neighbors[i], h)
    ensures forall j | 0 <= j < i + 1 :: Relaxed(g, current, currentG, neighbors[j], h)
  {
    forall j | 0 <= j < i + 1 ensures Relaxed(g, current, currentG, neighbors[j], h) {
      if j < i {
        assert Relaxed(g0, current, currentG, neighbors[j], h);
      }
    }
  }

  /** Scores that never rise from one table to the next never rise across both steps. */
  lemma NoWorseTrans(g0: map<FlatKey, int>, g1: map<FlatKey, int>, g2: map<FlatKey, int>)
    requires NoWorse(g0, g1) && NoWorse(g1, g2)
    ensures NoWorse(g0, g2)
  {
    forall k | k in g0 ensures g2[k] <= g0[k] {
      assert k in g1;
    }
  }

  /** A region that lists, for every key, only neighbours inside itself. */
  ghost predicate ClosedRegion(nf: NeighborFn, goal: FlatKey, region: map<FlatKey, seq<Vector>>) {
    ExpandedInto(nf, goal, region, region.Keys)
  }

  /** Position `to` was offered as a neighbour of position `from` under some trail. */
  ghost predicate OfferedStep(nf: NeighborFn, goal: FlatKey, from: Vector, to: Vector) {
    exists trail :: FlattenVector(to) in nf(FlattenVector(from), goal, trail)
  }

  /** The neighbour function gives the same neighbours whatever path is passed. */
  ghost predicate IgnoresTrail(nf: NeighborFn, goal: FlatKey) {
    forall k, trail :: nf(k, goal, trail) == nf(k, goal, [])
  }

  /** A sequence of keys, each a neighbour of the one before. */
  ghost predicate IsNeighborWalk(nf: NeighborFn, goal: FlatKey, walk: seq<FlatKey>) {
    forall i | 0 <= i < |walk| - 1 :: walk[i + 1] in nf(walk[i], goal, [])
  }

  /** A walk that starts in a closed region never leaves it. */
  lemma {:induction false} ClosedRegionTraps(nf: NeighborFn, goal: FlatKey, region: map<FlatKey, seq<Vector>>,
                                             walk: seq<FlatKey>)
    requires ClosedRegion(nf, goal, region) && IgnoresTrail(nf, goal)
    requires |walk| >= 1 && walk[0] in region && IsNeighborWalk(nf, goal, walk)
    ensures forall i | 0 <= i < |walk| :: walk[i] in region
    decreases |walk|
  {
    if |walk| > 1 {
      var prefix := walk[..|walk| - 1];
      assert IsNeighborWalk(nf, goal, prefix) by {
        forall i | 0 <= i < |prefix| - 1 ensures prefix[i + 1] in nf(prefix[i], goal, []) {
          assert prefix[i] == walk[i] && prefix[i + 1] == walk[i + 1];
        }
      }
      ClosedRegionTraps(nf, goal, region, prefix);
      var k := walk[|walk| - 2];
      assert k == prefix[|prefix| - 1] && k in region;
      assert walk[|walk| - 1] in nf(k, goal, region[k]);
      assert ExpandedInto(nf, goal, region, region.Keys);
      assert forall m | m in nf(k, goal, region[k]) :: m in region.Keys;
      forall i | 0 <= i < |walk| ensures walk[i] in region {
        if i < |walk| - 1 {
          assert walk[i] == prefix[i];
        }
      }
    }
  }

  /**
   * So when the neighbours do not depend on the path, a search that reports
   * no path has shown that no walk leads from the start to the goal.
   */
  lemma NoPathMeansUnreachable(nf: NeighborFn, start: FlatKey, goal: FlatKey, region: map<FlatKey, seq<Vector>>,
                               walk: seq<FlatKey>)
    requires ClosedRegion(nf, goal, region) && start in region && goal !in region && IgnoresTrail(nf, goal)
    requires |walk| >= 1 && walk[0] == start && IsNeighborWalk(nf, goal, walk)
    ensures walk[|walk| - 1] != goal
  {
    ClosedRegionTraps(nf, goal, region, walk);
  }

  /**
   * A path as the search reports it: from the goal back to the start, no
   * position twice, each position offered as a neighbour of the next.
   */
  ghost predicate IsFoundPath(nf: NeighborFn, start: FlatKey, goal: FlatKey, path: seq<Vector>) {
    && |path| >= 1
    && path[0] == ExpandVector(goal)
    && path[|path| - 1] == ExpandVector(start)
    && (forall i, j | 0 <= i < j < |path| :: path[i] != path[j])
    && (forall i | 0 <= i < |path| - 1 :: OfferedStep(nf, goal, path[i + 1], path[i]))
  }

  /**
   * One pass of the search loop: pops the key with the least f score; the
   * goal ends the search with its path, any other key has its neighbours
   * relaxed.  On the first pass, with only the start queued and nothing
   * recorded, a start equal to the goal gives the one-position path.
   */
  method SearchStep(openSet: MinPriorityQueue<FlatKey>, cameFrom: FastMap<FlatKey, FlatKey>,
                    gScore: FastMap<FlatKey, int>, fScore: FastMap<FlatKey, int>,
                    goalVec: Vector, heuristic: Heuristic, getNeighbors: NeighborFn, epsilon: int,
                    ghost start: FlatKey, ghost startVec: Vector, ghost via0: map<FlatKey, seq<Vector>>,
                    ghost expanded0: map<FlatKey, seq<Vector>>)
    returns (done: Option<seq<Vector>>, ghost via: map<FlatKey, seq<Vector>>,
             ghost expanded: map<FlatKey, seq<Vector>>, ghost popped: FlatKey)
    requires cameFrom != gScore && gScore != fScore && cameFrom != fScore
    requires IsStepCost(heuristic) && openSet.Valid() && !openSet.IsEmpty()
    requires QueuedOnce(openSet.Values(), openSet.heapSet)
    requires Core(start, FlattenVector(goalVec), getNeighbors, openSet.Values(), cameFrom.dataTable, gScore.dataTable,
                  via0, expanded0)
    requires FScores(fScore.dataTable, gScore.dataTable, heuristic, epsilon, goalVec, start, startVec)
    requires Covered(gScore.dataTable, openSet.heapSet, expanded0, {})
    requires Parents(cameFrom.dataTable, expanded0, {})
    modifies openSet, cameFrom, gScore, fScore
    ensures popped in old(openSet.Values())
    ensures done.Some? ==> IsFoundPath(getNeighbors, start, FlattenVector(goalVec), done.value)
    ensures done.None? ==>
              && popped != FlattenVector(goalVec) && expanded.Keys == expanded0.Keys + {popped}
              && Parents(cameFrom.dataTable, expanded, {})
              && openSet.Valid() && QueuedOnce(openSet.Values(), openSet.heapSet)
              && Core(start, FlattenVector(goalVec), getNeighbors, openSet.Values(), cameFrom.dataTable,
                      gScore.dataTable, via, expanded)
              && FScores(fScore.dataTable, gScore.dataTable, heuristic, epsilon, goalVec, start, startVec)
              && Covered(gScore.dataTable, openSet.heapSet, expanded, {})
              && NoWorse(old(gScore.dataTable), gScore.dataTable)
    ensures (old(openSet.Values()) == multiset{start} && old(cameFrom.dataTable) == map[] &&
             start == FlattenVector(goalVec)) ==> done == Some([ExpandVector(start)])
  {
    var goal := FlattenVector(goalVec);
    via, expanded := via0, expanded0;
    ghost var queued0 := openSet.Values();
    ghost var members0 := openSet.heapSet;
    var top := openSet.Pop();
    var current := top.value;
    popped := current;
    assert current in queued0;
    PopKeepsQueuedOnce(queued0, members0, openSet.Values(), openSet.heapSet, current);
    if current == goal {
      var path := ReachGoal(cameFrom, goal, gScore.dataTable, getNeighbors, start, openSet.Values(), via, expanded);
      if queued0 == multiset{start} {
        assert current == start;
      }
      return Some(path), via, expanded, popped;
    }
    via, expanded := ExpandNode(openSet, cameFrom, gScore, fScore, current, goalVec, heuristic, getNeighbors, epsilon,
                                start, startVec, via, expanded);
    return None, via, expanded, popped;
  }

  /** A step whose popped key is the goal: the path is read back through `cameFrom`. */
  method ReachGoal(cameFrom: FastMap<FlatKey, FlatKey>, goal: FlatKey, ghost g: map<FlatKey, int>,
                   ghost nf: NeighborFn, ghost start: FlatKey, ghost queued: multiset<FlatKey>,
                   ghost via: map<FlatKey, seq<Vector>>, ghost expanded: map<FlatKey, seq<Vector>>)
    returns (path: seq<Vector>)
    requires Core(start, goal, nf, queued, cameFrom.dataTable, g, via, expanded) && goal in g
    ensures IsFoundPath(nf, start, goal, path)
    ensures cameFrom.dataTable == map[] ==> path == [ExpandVector(goal)]
  {
    path := ReconstructPath(cameFrom, goal, g);
    FoundPathShape(start, goal, nf, queued, cameFrom.dataTable, g, via, expanded, path);
    if cameFrom.dataTable == map[] {
      NothingRecordedPath(cameFrom.dataTable, path, goal);
    }
  }

  /** A step whose popped key is not the goal: the key's neighbours are relaxed and the key is expanded. */
  method ExpandNode(openSet: MinPriorityQueue<FlatKey>, cameFrom: FastMap<FlatKey, FlatKey>,
                    gScore: FastMap<FlatKey, int>, fScore: FastMap<FlatKey, int>, current: FlatKey,
                    goalVec: Vector, heuristic: Heuristic, getNeighbors: NeighborFn, epsilon: int,
                    ghost start: FlatKey, ghost startVec: Vector, ghost via0: map<FlatKey, seq<Vector>>,
                    ghost expanded0: map<FlatKey, seq<Vector>>)
    returns (ghost via: map<FlatKey, seq<Vector>>, ghost expanded: map<FlatKey, seq<Vector>>)
    requires cameFrom != gScore && gScore != fScore && cameFrom != fScore
    requires IsStepCost(heuristic) && openSet.Valid() && QueuedOnce(openSet.Values(), openSet.heapSet)
    requires Core(start, FlattenVector(goalVec), getNeighbors, openSet.Values(), cameFrom.dataTable, gScore.dataTable,
                  via0, expanded0)
    requires FScores(fScore.dataTable, gScore.dataTable, heuristic, epsilon, goalVec, start, startVec)
    requires Covered(gScore.dataTable, openSet.heapSet, expanded0, {current})
    requires Parents(cameFrom.dataTable, expanded0, {})
    requires current in gScore.dataTable && current != FlattenVector(goalVec)
    modifies openSet, cameFrom, gScore, fScore
    ensures expanded.Keys == expanded0.Keys + {current} && Parents(cameFrom.dataTable, expanded, {})
    ensures openSet.Valid() && QueuedOnce(openSet.Values(), openSet.heapSet)
    ensures Core(start, FlattenVector(goalVec), getNeighbors, openSet.Values(), cameFrom.dataTable, gScore.dataTable,
                 via, expanded)
    ensures FScores(fScore.dataTable, gScore.dataTable, heuristic, epsilon, goalVec, start, startVec)
    ensures Covered(gScore.dataTable, openSet.heapSet, expanded, {})
    ensures NoWorse(old(gScore.dataTable), gScore.dataTable)
  {
    var trail := ReconstructPath(cameFrom, current, gScore.dataTable);
    var neighbors := getNeighbors(current, FlattenVector(goalVec), trail);
    via := RelaxNeighbors(openSet, cameFrom, gScore, fScore, current, neighbors, goalVec, heuristic, epsilon,
                          start, startVec, getNeighbors, trail, via0, expanded0);
    expanded := expanded0[current := trail];
  }

  /**
   * `findAStarPath`.  A found path runs from the goal back to the start (see
   * IsFoundPath).  No path is reported only when the expanded keys form a
   * closed region around the start that leaves the goal out.  From a start
   * to itself the path is the start alone.
   */
  method FindAStarPath(startVec: Vector, goalVec: Vector, heuristic: Heuristic, getNeighbors: NeighborFn,
                       epsilon: int, fuel: nat) returns (r: SearchResult, ghost expansions: seq<FlatKey>)
    requires IsStepCost(heuristic)
    ensures Expansions(getNeighbors, FlattenVector(startVec), FlattenVector(goalVec), expansions)
    ensures |expansions| <= fuel && (r.OutOfFuel? ==> |expansions| == fuel)
    ensures r.Found? ==> IsFoundPath(getNeighbors, FlattenVector(startVec), FlattenVector(goalVec), r.path)
    ensures r.NoPath? ==>
              exists explored :: && ClosedRegion(getNeighbors, FlattenVector(goalVec), explored)
                                 && FlattenVector(startVec) in explored
                                 && FlattenVector(goalVec) !in explored
    ensures fuel > 0 && FlattenVector(startVec) == FlattenVector(goalVec) ==>
              r == Found([ExpandVector(FlattenVector(startVec))])
  {
    var start := FlattenVector(startVec);
    var goal := FlattenVector(goalVec);
    var openSet := new MinPriorityQueue<FlatKey>();
    var cameFrom := new FastMap<FlatKey, FlatKey>();
    var gScore := new FastMap<FlatKey, int>();
    gScore.Set(start, 0);
    var fScore := new FastMap<FlatKey, int>();
    fScore.Set(start, epsilon * heuristic(startVec, goalVec));
    openSet.Insert(start, fScore.Get(start).value);
    ghost var via: map<FlatKey, seq<Vector>> := map[];
    ghost var expanded: map<FlatKey, seq<Vector>> := map[];
    var steps: nat := fuel;
    expansions := [];
    while !openSet.IsEmpty()
      invariant openSet.Valid() && QueuedOnce(openSet.Values(), openSet.heapSet)
      invariant Parents(cameFrom.dataTable, expanded, {})
      invariant |expansions| == fuel - steps && Expansions(getNeighbors, start, goal, expansions)
      invariant forall k :: k in expanded <==> k in expansions
      invariant FScores(fScore.dataTable, gScore.dataTable, heuristic, epsilon, goalVec, start, startVec)
      invariant Core(start, goal, getNeighbors, openSet.Values(), cameFrom.dataTable, gScore.dataTable, via, expanded)
      invariant Covered(gScore.dataTable, openSet.heapSet, expanded, {})
      invariant steps <= fuel
      invariant steps == fuel ==> openSet.Values() == multiset{start} && cameFrom.dataTable == map[]
      invariant start == goal ==> steps == fuel
      decreases steps
    {
      if steps == 0 {
        return OutOfFuel, expansions;
      }
      ghost var queued0, cameFrom0, g0, via0, expanded0 :=
        openSet.Values(), cameFrom.dataTable, gScore.dataTable, via, expanded;
      var done;
      ghost var popped;
      done, via, expanded, popped := SearchStep(openSet, cameFrom, gScore, fScore, goalVec, heuristic, getNeighbors,
                                                epsilon, start, startVec, via, expanded);
      if done.Some? {
        return Found(done.value), expansions;
      }
      ExpansionsGrow(start, goal, getNeighbors, queued0, cameFrom0, g0, via0, expanded0, expansions, popped);
      expansions := expansions + [popped];
      steps := steps - 1;
    }
    assert openSet.heapSet == {};
    ExhaustedIsClosed(start, goal, getNeighbors, openSet.Values(), cameFrom.dataTable, gScore.dataTable, via, expanded);
    return NoPath, expansions;
  }

  /**
   * A queued key the search pops and expands extends its expansions: it is the
   * start, or its recorded predecessor was expanded earlier and offered it.
   */
  lemma ExpansionsGrow(start: FlatKey, goal: FlatKey, nf: NeighborFn, queued: multiset<FlatKey>,
                       cameFrom: map<FlatKey, FlatKey>, g: map<FlatKey, int>,
                       via: map<FlatKey, seq<Vector>>, expanded: map<FlatKey, seq<Vector>>,
                       expansions: seq<FlatKey>, k: FlatKey)
    requires Core(start, goal, nf, queued, cameFrom, g, via, expanded) && Parents(cameFrom, expanded, {})
    requires Expansions(nf, start, goal, expansions)
    requires forall e | e in expanded :: e in expansions
    requires k in queued && k != goal && (expansions == [] ==> k == start)
    ensures Expansions(nf, start, goal, expansions + [k])
  {
    var grown := expansions + [k];
    forall i | 0 <= i < |grown| ensures grown[i] == start || OfferedBefore(nf, goal, grown, i) {
      if i < |expansions| {
        if grown[i] != start {
          assert OfferedBefore(nf, goal, expansions, i);
          var j, trail :| 0 <= j < i && expansions[i] in nf(expansions[j], goal, trail);
          assert grown[j] == expansions[j];
        }
      } else if k != start {
        assert k in g;
        assert k in cameFrom;
        var parent := cameFrom[k];
        assert parent in expanded;
        assert parent in expansions;
        var j :| 0 <= j < |expansions| && expansions[j] == parent;
        assert grown[j] == cameFrom[k] && k in nf(grown[j], goal, via[k]);
      }
    }
  }

  /** Popping the one copy of a queued key keeps every other key queued once. */
  lemma PopKeepsQueuedOnce(queued0: multiset<FlatKey>, members0: set<FlatKey>, queued: multiset<FlatKey>,
                           members: set<FlatKey>, top: FlatKey)
    requires QueuedOnce(queued0, members0)
    requires queued + multiset{top} == queued0 && members == members0 - {top}
    ensures QueuedOnce(queued, members)
  {
    assert queued0[top] == 1;
    forall v ensures v in members <==> v in queued {
      assert queued0[v] == queued[v] + multiset{top}[v];
    }
  }

  /** With no predecessor recorded, the path read back from a key is that key alone. */
  lemma NothingRecordedPath(cameFrom: map<FlatKey, FlatKey>, path: seq<Vector>, k: FlatKey)
    requires cameFrom == map[] && |path| >= 1 && path[0] == ExpandVector(k) && FollowsCameFrom(cameFrom, path)
    ensures path == [ExpandVector(k)]
  {
  }

  /** With nothing left queued, the expanded keys are closed and hold the start but not the goal. */
  lemma ExhaustedIsClosed(start: FlatKey, goal: FlatKey, nf: NeighborFn, queued: multiset<FlatKey>,
                          cameFrom: map<FlatKey, FlatKey>, g: map<FlatKey, int>,
                          via: map<FlatKey, seq<Vector>>, expanded: map<FlatKey, seq<Vector>>)
    requires Core(start, goal, nf, queued, cameFrom, g, via, expanded) && Covered(g, {}, expanded, {})
    ensures ClosedRegion(nf, goal, expanded) && start in expanded && goal !in expanded
  {
  }

  /** A path read back from the goal ends at the start and takes only offered steps. */
  lemma FoundPathShape(start: FlatKey, goal: FlatKey, nf: NeighborFn, queued: multiset<FlatKey>,
                       cameFrom: map<FlatKey, FlatKey>, g: map<FlatKey, int>,
                       via: map<FlatKey, seq<Vector>>, expanded: map<FlatKey, seq<Vector>>, path: seq<Vector>)
    requires Core(start, goal, nf, queued, cameFrom, g, via, expanded)
    requires |path| >= 1 && FollowsCameFrom(cameFrom, path)
    requires FlattenVector(path[|path| - 1]) !in cameFrom
    requires forall i | 0 <= i < |path| :: FlattenVector(path[i]) in g && path[i] == ExpandVector(FlattenVector(path[i]))
    ensures path[|path| - 1] == ExpandVector(start)
    ensures forall i | 0 <= i < |path| - 1 :: OfferedStep(nf, goal, path[i + 1], path[i])
  {
    forall i | 0 <= i < |path| - 1
      ensures OfferedStep(nf, goal, path[i + 1], path[i])
    {
      var k := FlattenVector(path[i]);
      assert k in cameFrom && cameFrom[k] == FlattenVector(path[i + 1]);
      assert k in nf(cameFrom[k], goal, via[k]);
    }
  }
}
