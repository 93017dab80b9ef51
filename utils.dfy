/** Which grid positions belong to a room of a given shape. */
module Utils {
  import opened FlatGridVector
  import opened HostEnums

  /** The shapes the bounds switch names; every other value takes the 1x1 branch. */
  predicate IsKnownShape(shape: int) {
    shape in {ROOMSHAPE_1x1, ROOMSHAPE_IH, ROOMSHAPE_IV, ROOMSHAPE_1x2, ROOMSHAPE_IIV, ROOMSHAPE_2x1,
              ROOMSHAPE_IIH, ROOMSHAPE_2x2, ROOMSHAPE_LTL, ROOMSHAPE_LTR, ROOMSHAPE_LBL, ROOMSHAPE_LBR}
  }

  function IsValidGridPosition(position: Vector, shape: int): (r: bool)
    ensures r ==> 0 <= position.x <= 25 && 0 <= position.y <= 13
  {
    if position.x < 0 || position.y < 0 then false
    else if shape == ROOMSHAPE_IH then
      !(position.x >= 13 || position.y <= 2 || position.y >= 4)
    else if shape == ROOMSHAPE_IV then
      !(position.x <= 3 || position.x >= 9 || position.y >= 7)
    else if shape == ROOMSHAPE_1x2 then
      !(position.x >= 13 || position.y >= 14)
    else if shape == ROOMSHAPE_IIV then
      !(position.x <= 3 || position.x >= 9 || position.y >= 14)
    else if shape == ROOMSHAPE_2x1 then
      !(position.x >= 26 || position.y >= 7)
    else if shape == ROOMSHAPE_IIH then
      !(position.x >= 26 || position.y <= 2 || position.y >= 4)
    else if shape == ROOMSHAPE_2x2 then
      !(position.x >= 26 || position.y >= 14)
    else if shape == ROOMSHAPE_LTL then
      !(position.x >= 26 || position.y >= 14) && !(position.x <= 12 && position.y <= 6)
    else if shape == ROOMSHAPE_LTR then
      !(position.x >= 26 || position.y >= 14) && !(position.x >= 13 && position.y <= 6)
    else if shape == ROOMSHAPE_LBL then
      !(position.x >= 26 || position.y >= 14) && !(position.x <= 12 && position.y >= 7)
    else if shape == ROOMSHAPE_LBR then
      !(position.x >= 26 || position.y >= 14) && !(position.x >= 13 && position.y >= 7)
    else
      // ROOMSHAPE_1x1 and the default branch
      !(position.x >= 13 || position.y >= 7)
  }

  /** The validity test on flat keys used by the connectivity map. */
  predicate IsValidFlatGridPosition(k: FlatKey, shape: int) {
    IsValidGridPosition(ExpandVector(k), shape)
  }

  lemma NegativeIsInvalid(p: Vector, shape: int)
    requires p.x < 0 || p.y < 0
    ensures !IsValidGridPosition(p, shape)
  {
  }

  lemma OneByOneAndDefault(p: Vector, shape: int)
    requires shape == ROOMSHAPE_1x1 || !IsKnownShape(shape)
    ensures IsValidGridPosition(p, shape) <==> 0 <= p.x < 13 && 0 <= p.y < 7
  {
  }

  /** The narrow corridors: a single row for IH/IIH, five columns for IV/IIV. */
  lemma Corridors(p: Vector)
    ensures IsValidGridPosition(p, ROOMSHAPE_IH) <==> 0 <= p.x < 13 && p.y == 3
    ensures IsValidGridPosition(p, ROOMSHAPE_IIH) <==> 0 <= p.x < 26 && p.y == 3
    ensures IsValidGridPosition(p, ROOMSHAPE_IV) <==> 4 <= p.x <= 8 && 0 <= p.y < 7
    ensures IsValidGridPosition(p, ROOMSHAPE_IIV) <==> 4 <= p.x <= 8 && 0 <= p.y < 14
  {
  }

  /** Each L-shape is the 2x2 rectangle with exactly one quadrant removed. */
  lemma LShapes(p: Vector)
    ensures IsValidGridPosition(p, ROOMSHAPE_LTL) <==>
              IsValidGridPosition(p, ROOMSHAPE_2x2) && !(p.x <= 12 && p.y <= 6)
    ensures IsValidGridPosition(p, ROOMSHAPE_LTR) <==>
              IsValidGridPosition(p, ROOMSHAPE_2x2) && !(p.x >= 13 && p.y <= 6)
    ensures IsValidGridPosition(p, ROOMSHAPE_LBL) <==>
              IsValidGridPosition(p, ROOMSHAPE_2x2) && !(p.x <= 12 && p.y >= 7)
    ensures IsValidGridPosition(p, ROOMSHAPE_LBR) <==>
              IsValidGridPosition(p, ROOMSHAPE_2x2) && !(p.x >= 13 && p.y >= 7)
    ensures IsValidGridPosition(p, ROOMSHAPE_2x2) <==> 0 <= p.x <= 25 && 0 <= p.y <= 13
  {
  }

  /** Every shape's valid set lies inside the 2x2 room, and so inside the codec domain. */
  lemma ValidIsInsideLargestRoom(p: Vector, shape: int)
    requires IsValidGridPosition(p, shape)
    ensures IsValidGridPosition(p, ROOMSHAPE_2x2)
    ensures InDomain(p)
    ensures 0 <= FlattenVector(p) < SHIFT * SHIFT
  {
  }

  /** A valid flat key is a key of the codec's range. */
  lemma ValidFlatKeyInRange(k: FlatKey, shape: int)
    requires IsValidFlatGridPosition(k, shape)
    ensures 0 <= k < SHIFT * SHIFT
  {
    ValidIsInsideLargestRoom(ExpandVector(k), shape);
    FlattenExpand(k);
  }
}
