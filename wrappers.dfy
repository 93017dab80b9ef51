/** The "value or undefined" results of the source, as an Option. */
module Wrappers {

  datatype Option<+T> = None | Some(value: T)

  /** A Lua table lookup: the stored value, or `undefined` when the key is absent. */
  function Get<K, V>(m: map<K, V>, k: K): (r: Option<V>)
    ensures r.Some? <==> k in m
    ensures r.Some? ==> r.value == m[k]
  {
    if k in m then Some(m[k]) else None
  }
}
