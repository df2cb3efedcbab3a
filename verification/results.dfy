/** Failure-carrying return values used in place of the source's exceptions. */
module Results {

  /** A value that may be absent, as for a key missing from a repository. */
  datatype Option<+T> = None | Some(value: T)

  /** Either the value a command or query produces, or the error it raised. */
  datatype Result<+T, +E> = Ok(value: T) | Err(error: E)

  /** The entry stored under `k`, if any. */
  function Get<K, V>(m: map<K, V>, k: K): (r: Option<V>)
    ensures r.Some? <==> k in m
    ensures r.Some? ==> r.value == m[k]
  {
    if k in m then Some(m[k]) else None
  }
}
