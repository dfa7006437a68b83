/** Small shared datatypes. */
module Prelude {
  datatype Option<+T> = None | Some(value: T)

  /** Success with a value, or one undifferentiated rejection: every raise of the source. */
  datatype Result<+T> = Accepted(value: T) | Rejected

  function Lookup<K, V>(m: map<K, V>, k: K): Option<V> {
    if k in m then Some(m[k]) else None
  }
}
