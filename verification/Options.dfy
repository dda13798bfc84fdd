/** The value-or-nothing type the other modules share. */
module Options {
  datatype Option<+T> = None | Some(value: T)

  /** Looks a key up in a map. */
  function Lookup<K, V>(m: map<K, V>, k: K): Option<V> {
    if k in m then Some(m[k]) else None
  }
}
