/**
 * Grid indices: the host numbers a room's cells row by row from its
 * top-left wall cell, so index 0 is position (-1, -1).  The room's grid
 * width is read from the host in the source and is a parameter here.
 */
module GridIndex {
  import opened FlatGridVector

  /** `gridIndexToGridPosition`; `%` and the floored `/` agree with Dafny's for a positive width. */
  function GridIndexToGridPosition(gridIndex: int, gridWidth: int): (v: Vector)
    requires gridWidth > 0
    ensures -1 <= v.x < gridWidth - 1
    ensures gridIndex >= 0 ==> v.y >= -1
    ensures (v.y + 1) * gridWidth + (v.x + 1) == gridIndex
  {
    var x := (gridIndex % gridWidth) - 1;
    var y := gridIndex / gridWidth - 1;
    Vector(x, y)
  }

  /**
   * The inverse numbering, row by row from (-1, -1): a position inside the
   * width lands in column x + 1 of row y + 1.
   */
  function GridPositionToGridIndex(v: Vector, gridWidth: int): (i: int)
    ensures gridWidth > 0 && -1 <= v.x < gridWidth - 1 ==> i / gridWidth == v.y + 1 && i % gridWidth == v.x + 1
  {
    var i := (v.y + 1) * gridWidth + (v.x + 1);
    if gridWidth > 0 && -1 <= v.x < gridWidth - 1 then
      UniqueRowColumn(i / gridWidth, i % gridWidth, v.y + 1, v.x + 1, gridWidth);
      i
    else i
  }

  /** Every position inside the width has exactly the index the conversion inverts. */
  lemma GridIndexRoundTrip(v: Vector, gridIndex: int, gridWidth: int)
    requires gridWidth > 0
    ensures -1 <= v.x < gridWidth - 1 ==>
              GridIndexToGridPosition(GridPositionToGridIndex(v, gridWidth), gridWidth) == v
    ensures GridPositionToGridIndex(GridIndexToGridPosition(gridIndex, gridWidth), gridWidth) == gridIndex
  {
  }

  /** A row-major index has one row and one column inside the width. */
  lemma UniqueRowColumn(r1: int, c1: int, r2: int, c2: int, width: int)
    requires width > 0 && 0 <= c1 < width && 0 <= c2 < width
    requires r1 * width + c1 == r2 * width + c2
    ensures r1 == r2 && c1 == c2
  {
    var d := r2 - r1;
    assert c1 - c2 == d * width by {
      assert r2 * width == r1 * width + d * width;
    }
    if d > 0 {
      MultipleOfWidth(d, width);
    } else if d < 0 {
      MultipleOfWidth(-d, width);
    }
  }

  lemma {:induction false} MultipleOfWidth(d: int, width: int)
    requires d >= 1 && width > 0
    ensures d * width >= width
    decreases d
  {
    if d > 1 {
      MultipleOfWidth(d - 1, width);
      assert d * width == (d - 1) * width + width;
    }
  }

  /** The documented example: in a 1x1 room (width 15) index 16 is (0, 0). */
  lemma DocumentedExample()
    ensures GridIndexToGridPosition(16, 15) == Vector(0, 0)
    ensures GridIndexToGridPosition(0, 15) == Vector(-1, -1)
  {
  }
}
