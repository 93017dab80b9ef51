/**
 * Whether a cell snapshot can be crossed by an entity of a given grid
 * collision class, and the cardinal neighbourhood of a flat key.  These are
 * the pure parts of the connectivity map (`RoomData`).
 */
module Passability {
  import opened Wrappers
  import opened FlatGridVector
  import opened HostEnums
  import opened GridEntities

  /** The collision classes that own an area map, in area-map order. */
  const CollisionTypes: seq<int> := [GRIDCOLL_WALLS, GRIDCOLL_NO_PITS, GRIDCOLL_GROUND, GRIDCOLL_PITS_ONLY]

  /** The rock-like types that become passable once broken. */
  predicate IsRockType(t: int) {
    t in {GRID_ROCK, GRID_ROCK_ALT, GRID_ROCK_ALT_2, GRID_ROCK_SPIKED, GRID_ROCK_SUPER_SPECIAL,
          GRID_ROCK_TINTED, GRID_ROCK_BOMB}
  }

  /** The types and states a walking (GROUND or BULLET) entity can cross. */
  predicate GroundCrossable(d: GridEntityData) {
    || d.entityType == GRID_DECORATION
    || d.entityType == GRID_GRAVITY
    || d.entityType == GRID_PRESSURE_PLATE
    || d.entityType == GRID_SPIDER_WEB
    || d.entityType == GRID_TRAPDOOR
    || (IsRockType(d.entityType) && d.state != ROCK_UNBROKEN)
    || (d.entityType == GRID_POOP && d.state == POOP_COMPLETELY_DESTROYED)
    || (d.entityType == GRID_PIT && d.state == 1)
    || (d.entityType == GRID_TNT && d.state == TNT_EXPLODED)
  }

  /**
   * `isGridDataPassable`: `None` is a snapshot the cache does not hold.  The
   * switch is written out branch by branch: the WALLS group is also the
   * default, NO_PITS lets a pit through and otherwise falls through to the
   * GROUND/BULLET test, and PITS_ONLY admits only a state-0 pit.
   */
  function IsGridDataPassable(gridEntity: Option<GridEntityData>, collisionClass: int): (r: bool)
    ensures gridEntity.None? ==> (r <==> collisionClass != GRIDCOLL_PITS_ONLY)
  {
    if gridEntity.None? || IsUndefined(gridEntity.value) then
      collisionClass != GRIDCOLL_PITS_ONLY
    else
      var d := gridEntity.value;
      var gridType := d.entityType;
      if collisionClass == GRIDCOLL_NO_PITS then
        gridType == GRID_PIT || GroundCrossable(d)
      else if collisionClass == GRIDCOLL_BULLET || collisionClass == GRIDCOLL_GROUND then
        GroundCrossable(d)
      else if collisionClass == GRIDCOLL_PITS_ONLY then
        gridType == GRID_PIT && d.state == 0
      else
        // WALLS_X, WALLS_Y, WALLS and every other class
        !(gridType == GRID_WALL || gridType == GRID_PILLAR || gridType == GRID_DOOR)
  }

  /** An absent cell is open to every class but PITS_ONLY; under PITS_ONLY only a state-0 pit is. */
  lemma AbsentAndPitsOnly(d: GridEntityData, cls: int)
    ensures IsUndefined(d) ==> (IsGridDataPassable(Some(d), cls) <==> cls != GRIDCOLL_PITS_ONLY)
    ensures IsGridDataPassable(Some(d), GRIDCOLL_PITS_ONLY) <==> d.entityType == GRID_PIT && d.state == 0
  {
  }

  /** The WALLS group, and every class the switch does not name, blocks exactly walls, pillars and doors. */
  lemma WallsBlockOnlyWalls(d: GridEntityData, cls: int)
    requires !IsUndefined(d)
    requires cls !in {GRIDCOLL_NO_PITS, GRIDCOLL_BULLET, GRIDCOLL_GROUND, GRIDCOLL_PITS_ONLY}
    ensures IsGridDataPassable(Some(d), cls) <==>
              d.entityType != GRID_WALL && d.entityType != GRID_PILLAR && d.entityType != GRID_DOOR
  {
  }

  /** Walking entities pass only the listed types and the broken, destroyed or exploded states. */
  lemma GroundPassesOnlyListed(d: GridEntityData, cls: int)
    requires !IsUndefined(d)
    requires cls == GRIDCOLL_GROUND || cls == GRIDCOLL_BULLET
    ensures IsGridDataPassable(Some(d), cls) <==> GroundCrossable(d)
    ensures (d.entityType == GRID_WALL || d.entityType == GRID_PILLAR || d.entityType == GRID_DOOR) ==>
              !IsGridDataPassable(Some(d), cls)
    ensures IsRockType(d.entityType) && d.state == ROCK_UNBROKEN ==> !IsGridDataPassable(Some(d), cls)
  {
  }

  /** NO_PITS is GROUND with every pit made passable. */
  lemma NoPitsAddsPits(d: GridEntityData)
    requires !IsUndefined(d)
    ensures IsGridDataPassable(Some(d), GRIDCOLL_NO_PITS) <==>
              d.entityType == GRID_PIT || IsGridDataPassable(Some(d), GRIDCOLL_GROUND)
    ensures IsGridDataPassable(Some(d), GRIDCOLL_GROUND) ==> IsGridDataPassable(Some(d), GRIDCOLL_NO_PITS)
    ensures IsGridDataPassable(Some(d), GRIDCOLL_NO_PITS) ==> IsGridDataPassable(Some(d), GRIDCOLL_WALLS)
  {
  }

  /** The four keys one step away along each axis, in the order -x, +x, -y, +y. */
  function CardinalNeighbors(position: FlatKey): (r: seq<FlatKey>)
    ensures |r| == 4 && forall n | n in r :: n != position
  {
    [ShiftFlat(position, -1, 0), ShiftFlat(position, 1, 0), ShiftFlat(position, 0, -1), ShiftFlat(position, 0, 1)]
  }

  /** Away from the codec's side columns, the neighbours decode to the four adjacent positions. */
  lemma CardinalNeighborsAreAdjacent(position: FlatKey)
    requires MIN_VALUE < ExpandVector(position).x < MAX_VALUE
    ensures var v, r := ExpandVector(position), CardinalNeighbors(position);
      && ExpandVector(r[0]) == Vector(v.x - 1, v.y)
      && ExpandVector(r[1]) == Vector(v.x + 1, v.y)
      && ExpandVector(r[2]) == Vector(v.x, v.y - 1)
      && ExpandVector(r[3]) == Vector(v.x, v.y + 1)
  {
    var v := ExpandVector(position);
    FlattenExpand(position);
    ShiftFlattenLinear(v, -1, 0);
    ShiftFlattenLinear(v, 1, 0);
    ShiftFlattenLinear(v, 0, -1);
    ShiftFlattenLinear(v, 0, 1);
    ExpandFlattenAny(Vector(v.x - 1, v.y));
    ExpandFlattenAny(Vector(v.x + 1, v.y));
    ExpandFlattenAny(Vector(v.x, v.y - 1));
    ExpandFlattenAny(Vector(v.x, v.y + 1));
  }

  /** Decoding inverts encoding whenever the column is inside the stride. */
  lemma ExpandFlattenAny(v: Vector)
    requires MIN_VALUE <= v.x <= MAX_VALUE
    ensures ExpandVector(FlattenVector(v)) == v
  {
    var k := FlattenVector(v);
    assert k == (v.x + 2) + (v.y + 2) * 32;
    assert k / 32 == v.y + 2;
  }

  /** Being a cardinal neighbour is a symmetric relation. */
  lemma NeighborSymmetric(a: FlatKey, b: FlatKey)
    requires b in CardinalNeighbors(a)
    ensures a in CardinalNeighbors(b)
  {
    assert CardinalNeighbors(b)[0] == ShiftFlat(b, -1, 0);
  }
}
