/** Option, and the dictionary read `obj[key]` of the source (undefined when the key is absent). */
module Wrappers {

  datatype Option<+T> = None | Some(value: T)

  /** What `m[k]` yields on a dictionary: the value, or nothing when `k` is not a key. */
  function Get<K, V>(m: map<K, V>, k: K): Option<V>
  {
    if k in m then Some(m[k]) else None
  }
}
