/**
 * The entity-facing pathfinder: one per entity, with a fixed grid collision
 * class and the last path found.  The room it consults (a static singleton
 * in the source) and the live room are passed to each call.
 */
module Pathfinding {
  import opened Wrappers
  import opened FlatGridVector
  import opened Passability
  import opened Rooms
  import opened AStar

  /** The four candidate steps of `getNeighbors`, in its order +x, +y, -x, -y. */
  function PossibleNeighbors(current: FlatKey): (r: seq<FlatKey>)
    ensures |r| == 4 && forall n | n in r :: n != current
  {
    [ShiftFlat(current, 1, 0), ShiftFlat(current, 0, 1), ShiftFlat(current, -1, 0), ShiftFlat(current, 0, -1)]
  }

  /** The pathfinder steps to the same four keys the connectivity map joins. */
  lemma PossibleNeighborsAreCardinal(current: FlatKey)
    ensures forall n :: n in PossibleNeighbors(current) <==> n in CardinalNeighbors(current)
  {
    assert PossibleNeighbors(current)[0] == CardinalNeighbors(current)[1];
    assert PossibleNeighbors(current)[1] == CardinalNeighbors(current)[3];
    assert PossibleNeighbors(current)[2] == CardinalNeighbors(current)[0];
    assert PossibleNeighbors(current)[3] == CardinalNeighbors(current)[2];
  }

  /**
   * The candidates kept by `getNeighbors`, in order: the goal, and every
   * position the room reports passable for the class.
   */
  function Admitted(room: RoomData, live: LiveRoom, cls: int, goal: FlatKey, cands: seq<FlatKey>): (r: seq<FlatKey>)
    ensures |r| <= |cands|
    ensures forall n :: n in r <==> n in cands && (n == goal || room.IsPositionPassable(n, cls, live))
  {
    if cands == [] then []
    else
      var last := cands[|cands| - 1];
      Admitted(room, live, cls, goal, cands[..|cands| - 1]) +
        (if last == goal || room.IsPositionPassable(last, cls, live) then [last] else [])
  }

  /** `r` is `cands` with some elements dropped: `idx` gives, in increasing order, where each kept one sits. */
  ghost predicate SubsequenceAt(r: seq<FlatKey>, cands: seq<FlatKey>, idx: seq<int>) {
    && |idx| == |r|
    && (forall i | 0 <= i < |idx| :: 0 <= idx[i] < |cands| && cands[idx[i]] == r[i])
    && (forall i, j | 0 <= i < j < |idx| :: idx[i] < idx[j])
  }

  /** The admitted candidates keep their relative order. */
  lemma {:induction false} AdmittedKeepsOrder(room: RoomData, live: LiveRoom, cls: int, goal: FlatKey,
                                              cands: seq<FlatKey>)
    ensures exists idx :: SubsequenceAt(Admitted(room, live, cls, goal, cands), cands, idx)
    decreases |cands|
  {
    if cands == [] {
      assert Admitted(room, live, cls, goal, cands) == [];
      assert SubsequenceAt([], cands, []);
    } else {
      var init, last := cands[..|cands| - 1], cands[|cands| - 1];
      assert cands == init + [last];
      AdmittedKeepsOrder(room, live, cls, goal, init);
      var r := Admitted(room, live, cls, goal, init);
      var prev :| SubsequenceAt(r, init, prev);
      SubsequenceSnoc(r, init, prev, last);
      if last == goal || room.IsPositionPassable(last, cls, live) {
        assert Admitted(room, live, cls, goal, cands) == r + [last];
        assert SubsequenceAt(Admitted(room, live, cls, goal, cands), cands, prev + [|init|]);
      } else {
        assert Admitted(room, live, cls, goal, cands) == r;
        assert SubsequenceAt(Admitted(room, live, cls, goal, cands), cands, prev);
      }
    }
  }

  /** Appending one candidate keeps a subsequence, whether or not that candidate is kept. */
  lemma SubsequenceSnoc(r: seq<FlatKey>, init: seq<FlatKey>, idx: seq<int>, last: FlatKey)
    requires SubsequenceAt(r, init, idx)
    ensures SubsequenceAt(r, init + [last], idx)
    ensures SubsequenceAt(r + [last], init + [last], idx + [|init|])
  {
  }

  /** `this.getNeighbors.bind(this)`, as the neighbour function the search is given. */
  function Neighbors(room: RoomData, live: LiveRoom, cls: int): NeighborFn {
    (current, goal, path) => Admitted(room, live, cls, goal, PossibleNeighbors(current))
  }

  /**
   * Every step of a path (stored goal first) is one cardinal step, and
   * every position before the start is the goal or passable.
   */
  predicate Walkable(room: RoomData, live: LiveRoom, cls: int, goal: FlatKey, path: seq<Vector>) {
    forall i | 0 <= i < |path| - 1 ::
      && FlattenVector(path[i]) in PossibleNeighbors(FlattenVector(path[i + 1]))
      && (FlattenVector(path[i]) == goal || room.IsPositionPassable(FlattenVector(path[i]), cls, live))
  }

  /** A path the search finds with these neighbours only takes admitted steps. */
  lemma FoundPathIsWalkable(room: RoomData, live: LiveRoom, cls: int, start: FlatKey, goal: FlatKey, path: seq<Vector>)
    requires IsFoundPath(Neighbors(room, live, cls), start, goal, path)
    ensures Walkable(room, live, cls, goal, path)
  {
    forall i | 0 <= i < |path| - 1
      ensures FlattenVector(path[i]) in PossibleNeighbors(FlattenVector(path[i + 1]))
      ensures FlattenVector(path[i]) == goal || room.IsPositionPassable(FlattenVector(path[i]), cls, live)
    {
      assert OfferedStep(Neighbors(room, live, cls), goal, path[i + 1], path[i]);
      var trail :| FlattenVector(path[i]) in Neighbors(room, live, cls)(FlattenVector(path[i + 1]), goal, trail);
    }
  }

  /** The pathfinder's neighbours do not depend on the path so far. */
  lemma NeighborsIgnoreTrail(room: RoomData, live: LiveRoom, cls: int, goal: FlatKey)
    ensures IgnoresTrail(Neighbors(room, live, cls), goal)
  {
  }

  class Pathfinder {
    const collisionClass: int
    /** The last path found, goal first, start last. */
    var currentPath: seq<Vector>

    constructor (collisionClass: int)
      ensures this.collisionClass == collisionClass && currentPath == []
    {
      this.collisionClass := collisionClass;
      currentPath := [];
    }

    /** `getNeighbors`: the loop over the four candidates. */
    method GetNeighbors(current: FlatKey, goal: FlatKey, path: seq<Vector>, room: RoomData, live: LiveRoom)
      returns (neighbors: seq<FlatKey>)
      ensures neighbors == Neighbors(room, live, collisionClass)(current, goal, path)
      ensures forall n :: n in neighbors <==>
                n in PossibleNeighbors(current) && (n == goal || room.IsPositionPassable(n, collisionClass, live))
    {
      var possibleNeighbors := PossibleNeighbors(current);
      neighbors := [];
      for i := 0 to |possibleNeighbors|
        invariant neighbors == Admitted(room, live, collisionClass, goal, possibleNeighbors[..i])
      {
        var possibleNeighbor := possibleNeighbors[i];
        if possibleNeighbor == goal || room.IsPositionPassable(possibleNeighbor, collisionClass, live) {
          neighbors := neighbors + [possibleNeighbor];
        }
        assert possibleNeighbors[..i + 1][..i] == possibleNeighbors[..i];
      }
      assert possibleNeighbors[..|possibleNeighbors|] == possibleNeighbors;
    }

    /**
     * `gridPathfind`: refused outright when the connectivity map puts the two
     * positions in different areas; otherwise A* with Manhattan distance and
     * weight 1.  Only a found path replaces the stored one.
     */
    method GridPathfind(startGridPosition: Vector, goalGridPosition: Vector, room: RoomData, live: LiveRoom, fuel: nat)
      returns (found: bool, ghost expansions: seq<FlatKey>)
      requires room.Valid()
      modifies this
      ensures !room.IsPathPossible(startGridPosition, goalGridPosition, collisionClass) ==> !found && expansions == []
      ensures Expansions(Neighbors(room, live, collisionClass), FlattenVector(startGridPosition),
                         FlattenVector(goalGridPosition), expansions) && |expansions| <= fuel
      ensures !found && room.IsPathPossible(startGridPosition, goalGridPosition, collisionClass) ==>
                || |expansions| == fuel
                || exists explored :: && ClosedRegion(Neighbors(room, live, collisionClass),
                                                      FlattenVector(goalGridPosition), explored)
                                      && FlattenVector(startGridPosition) in explored
                                      && FlattenVector(goalGridPosition) !in explored
      ensures !found ==> currentPath == old(currentPath)
      ensures found ==> IsFoundPath(Neighbors(room, live, collisionClass), FlattenVector(startGridPosition),
                                    FlattenVector(goalGridPosition), currentPath)
      ensures found ==> Walkable(room, live, collisionClass, FlattenVector(goalGridPosition), currentPath)
      ensures (fuel > 0 && FlattenVector(startGridPosition) == FlattenVector(goalGridPosition) &&
               room.IsPathPossible(startGridPosition, goalGridPosition, collisionClass)) ==>
                found && currentPath == [ExpandVector(FlattenVector(startGridPosition))]
    {
      if !room.IsPathPossible(startGridPosition, goalGridPosition, collisionClass) {
        return false, [];
      }
      ManhattanIsStepCost();
      var foundPath;
      foundPath, expansions := FindAStarPath(startGridPosition, goalGridPosition, ManhattanDist,
                                     Neighbors(room, live, collisionClass), 1, fuel);
      if foundPath.Found? {
        FoundPathIsWalkable(room, live, collisionClass, FlattenVector(startGridPosition),
                            FlattenVector(goalGridPosition), foundPath.path);
        currentPath := foundPath.path;
        return true, expansions;
      }
      return false, expansions;
    }

    /** `hasPath`: a path is stored. */
    predicate HasPath(): (r: bool)
      reads this
      ensures r <==> currentPath != []
    {
      |currentPath| > 0
    }

    /** `peekPath`: the first stored position, if any. */
    function PeekPath(): (r: Option<Vector>)
      reads this
      ensures r.Some? <==> HasPath()
      ensures r.Some? ==> r.value == currentPath[0]
    {
      if HasPath() then Some(currentPath[0]) else None
    }

    /** `pollPath` as written: the same as peekPath; nothing is removed. */
    function PollPath(): (r: Option<Vector>)
      reads this
      ensures r.Some? <==> HasPath()
    {
      if HasPath() then Some(currentPath[0]) else None
    }

    /**
     * `pollPath` as its documentation describes it: returns the first stored
     * position and removes it.
     */
    method PollPathAndRemove() returns (r: Option<Vector>)
      modifies this
      ensures r == old(PeekPath())
      ensures old(HasPath()) ==> currentPath == old(currentPath)[1..] && |currentPath| == old(|currentPath|) - 1
      ensures !old(HasPath()) ==> currentPath == old(currentPath)
    {
      r := PeekPath();
      if HasPath() {
        currentPath := currentPath[1..];
      }
    }

    /**
     * `getPath`: the stored path converted to world positions, start first;
     * `toWorld` stands for the host's grid-to-world conversion.
     */
    method GetPath(toWorld: Vector -> Vector) returns (convertedPath: seq<Vector>)
      ensures |convertedPath| == |currentPath|
      ensures forall i | 0 <= i < |currentPath| :: convertedPath[i] == toWorld(currentPath[|currentPath| - 1 - i])
    {
      convertedPath := [];
      for i := 0 to |currentPath|
        invariant |convertedPath| == i
        invariant forall j | 0 <= j < i :: convertedPath[j] == toWorld(currentPath[i - 1 - j])
      {
        var worldPosition := toWorld(currentPath[i]);
        convertedPath := [worldPosition] + convertedPath;
      }
    }
  }

  /** Peeking right after a successful search gives the goal, since paths are stored goal first. */
  lemma PeekAfterSearchIsGoal(p: Pathfinder, nf: NeighborFn, start: FlatKey, goal: FlatKey)
    requires IsFoundPath(nf, start, goal, p.currentPath)
    ensures p.PeekPath() == Some(ExpandVector(goal))
  {
  }

  /** Polling as written never advances: a poll after a poll gives the same position. */
  lemma PollPathNeverAdvances(p: Pathfinder)
    ensures p.PollPath() == p.PeekPath()
    ensures p.HasPath() ==> p.PollPath() == Some(p.currentPath[0])
  {
  }
}
