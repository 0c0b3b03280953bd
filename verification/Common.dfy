/** Small shared definitions. */
module Common {

  datatype Option<+T> = None | Some(value: T)

  /** A stretch of a text. */
  datatype Span = Span(start: nat, end: nat)

  function Lookup<K, V>(m: map<K, V>, key: K): Option<V> {
    if key in m then Some(m[key]) else None
  }

  function Max(a: int, b: int): int {
    if a < b then b else a
  }

  function Min(a: int, b: int): int {
    if a < b then a else b
  }
}
