/** Failure-compatible result types used across the model. */
module Wrappers {

  /** A value that may be absent, as Python's `dict.get` returns a value or `None`. */
  datatype Option<+T> = None | Some(value: T)

  /** The outcome of a check that returns nothing on success and raises on failure. */
  datatype Outcome<+E> = Pass | Fail(error: E)

  /** Looks a key up in a map, yielding `None` when the key is absent. */
  function Get<K, V>(m: map<K, V>, k: K): (r: Option<V>)
    ensures r.Some? <==> k in m
    ensures r.Some? ==> r.value == m[k]
  {
    if k in m then Some(m[k]) else None
  }
}
