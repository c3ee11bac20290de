/** The optional-value wrapper used for lookups and parses that may find nothing. */
module Base {

  datatype Option<T> = None | Some(value: T)

  /** The entry a map holds for a key, if any; comparing two of these says "same entry, or both absent". */
  function Lookup<K, V>(m: map<K, V>, k: K): Option<V> {
    if k in m then Some(m[k]) else None
  }
}
