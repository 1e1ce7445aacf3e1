/** Optional values, used for map lookups and for a parse that may fail. */
module Wrappers {

  datatype Option<+T> = None | Some(value: T)

  /** The value a map holds under a key, or None when the key is absent. */
  function Get<K, V>(m: map<K, V>, k: K): (r: Option<V>)
    ensures r.Some? <==> k in m
    ensures r.Some? ==> r.value == m[k]
  {
    if k in m then Some(m[k]) else None
  }
}
