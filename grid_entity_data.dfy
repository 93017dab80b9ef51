/** The snapshot of one grid cell: (type, variant, state), or the absent sentinel. */
module GridEntities {
  import opened Wrappers

  /** What the host reports for an occupied cell. */
  datatype GridEntity = GridEntity(entityType: int, variant: int, state: int)

  datatype GridEntityData = GridEntityData(entityType: int, variant: int, state: int)

  /** The constructor: an absent host entity becomes the sentinel (-1, -1, -1). */
  function FromEntity(source: Option<GridEntity>): (d: GridEntityData)
    ensures source.None? ==> d.entityType == -1 && d.variant == -1 && d.state == -1
    ensures source.Some? ==> d.entityType == source.value.entityType &&
                             d.variant == source.value.variant && d.state == source.value.state
  {
    match source
    case None => GridEntityData(-1, -1, -1)
    case Some(e) => GridEntityData(e.entityType, e.variant, e.state)
  }

  /** The snapshot is the absent sentinel. */
  predicate IsUndefined(d: GridEntityData): (r: bool)
    ensures r <==> d == FromEntity(None)
  {
    d.entityType == -1 && d.variant == -1 && d.state == -1
  }

  /** Field-wise comparison, which is value equality. */
  predicate AreIdentical(a: GridEntityData, b: GridEntityData): (r: bool)
    ensures r <==> a == b
  {
    a.entityType == b.entityType && a.variant == b.variant && a.state == b.state
  }

  predicate SameAs(self: GridEntityData, other: GridEntityData): (r: bool)
    ensures r <==> self == other
  {
    AreIdentical(self, other)
  }

  /** The absent sentinel is exactly what `isUndefined` recognises. */
  lemma AbsentIsUndefined(source: Option<GridEntity>)
    ensures source.None? ==> IsUndefined(FromEntity(source))
    ensures IsUndefined(FromEntity(source)) <==>
              source.None? || source.value == GridEntity(-1, -1, -1)
  {
  }
}
