/**
 * A map backed directly by a table.  The value type has no `undefined`, so the
 * source's usage rule "never store undefined" holds by construction.
 */
module FastMaps {
  import opened Wrappers

  class FastMap<K(==,!new), V> {
    var dataTable: map<K, V>

    constructor ()
      ensures dataTable == map[]
      ensures forall k :: !Has(k)
    {
      dataTable := map[];
    }

    method Set(key: K, value: V)
      modifies this
      ensures dataTable == old(dataTable)[key := value]
      ensures Get(key) == Some(value) && Has(key)
      ensures forall k :: k != key ==> Get(k) == old(Get(k))
    {
      dataTable := dataTable[key := value];
    }

    function Get(key: K): (r: Option<V>)
      reads this
      ensures r.Some? <==> key in dataTable
      ensures r.Some? ==> r.value == dataTable[key]
    {
      Wrappers.Get(dataTable, key)
    }

    /** `has` is "get does not return undefined". */
    predicate Has(key: K)
      reads this
      ensures Has(key) <==> key in dataTable
    {
      Get(key) != None
    }

    method Delete(key: K)
      modifies this
      ensures dataTable == old(dataTable) - {key}
      ensures !Has(key) && Get(key) == None
      ensures forall k :: k != key ==> Get(k) == old(Get(k))
    {
      dataTable := dataTable - {key};
    }
  }
}
