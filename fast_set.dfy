/**
 * A set backed directly by a table from elements to `true`.  `has` returns the
 * table's lookup, which is `true` for an element and `undefined` otherwise.
 */
module FastSets {
  import opened Wrappers

  class FastSet<T(==,!new)> {
    var dataTable: map<T, bool>

    /** The table only ever stores `true`. */
    ghost predicate Valid()
      reads this
    {
      forall x | x in dataTable :: dataTable[x]
    }

    /** The elements: the keys of the table. */
    ghost function Elements(): set<T>
      reads this
    {
      dataTable.Keys
    }

    constructor ()
      ensures Valid() && Elements() == {}
    {
      dataTable := map[];
    }

    method Add(newEntry: T)
      requires Valid()
      modifies this
      ensures Valid()
      ensures Elements() == old(Elements()) + {newEntry}
      ensures Has(newEntry) == Some(true)
      ensures forall x :: x != newEntry ==> Has(x) == old(Has(x))
    {
      dataTable := dataTable[newEntry := true];
    }

    /** True for an element, `undefined` (falsy, but not `false`) for anything else. */
    function Has(key: T): (r: Option<bool>)
      reads this
      requires Valid()
      ensures r == Some(true) <==> key in Elements()
      ensures r == None <==> key !in Elements()
      ensures r != Some(false)
    {
      Get(dataTable, key)
    }

    method Delete(key: T)
      requires Valid()
      modifies this
      ensures Valid()
      ensures Elements() == old(Elements()) - {key}
      ensures Has(key) == None
      ensures forall x :: x != key ==> Has(x) == old(Has(x))
    {
      dataTable := dataTable - {key};
    }
  }
}
