/**
 * Numeric values of the host game's enumerations that the core compares
 * against.  They are the values of the host's API; the model relies only on
 * the values within one enumeration being distinct.
 */
module HostEnums {

  // RoomShape
  const ROOMSHAPE_1x1: int := 1
  const ROOMSHAPE_IH: int := 2
  const ROOMSHAPE_IV: int := 3
  const ROOMSHAPE_1x2: int := 4
  const ROOMSHAPE_IIV: int := 5
  const ROOMSHAPE_2x1: int := 6
  const ROOMSHAPE_IIH: int := 7
  const ROOMSHAPE_2x2: int := 8
  const ROOMSHAPE_LTL: int := 9
  const ROOMSHAPE_LTR: int := 10
  const ROOMSHAPE_LBL: int := 11
  const ROOMSHAPE_LBR: int := 12

  // EntityGridCollisionClass
  const GRIDCOLL_NONE: int := 0
  const GRIDCOLL_WALLS_X: int := 1
  const GRIDCOLL_WALLS_Y: int := 2
  const GRIDCOLL_WALLS: int := 3
  const GRIDCOLL_BULLET: int := 4
  const GRIDCOLL_GROUND: int := 5
  const GRIDCOLL_NO_PITS: int := 6
  const GRIDCOLL_PITS_ONLY: int := 7

  // GridEntityType
  const GRID_DECORATION: int := 1
  const GRID_ROCK: int := 2
  const GRID_ROCK_TINTED: int := 4
  const GRID_ROCK_BOMB: int := 5
  const GRID_ROCK_ALT: int := 6
  const GRID_PIT: int := 7
  const GRID_SPIDER_WEB: int := 10
  const GRID_TNT: int := 12
  const GRID_POOP: int := 14
  const GRID_WALL: int := 15
  const GRID_DOOR: int := 16
  const GRID_TRAPDOOR: int := 17
  const GRID_GRAVITY: int := 19
  const GRID_PRESSURE_PLATE: int := 20
  const GRID_ROCK_SUPER_SPECIAL: int := 22
  const GRID_PILLAR: int := 24
  const GRID_ROCK_SPIKED: int := 25
  const GRID_ROCK_ALT_2: int := 26

  // RockState, PoopState, TNTState
  const ROCK_UNBROKEN: int := 1
  const POOP_COMPLETELY_DESTROYED: int := 1000
  const TNT_EXPLODED: int := 4
}
