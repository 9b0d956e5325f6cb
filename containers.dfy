/** Optional values and the map lookup helpers `GetMappedOptional` / `GetMapped`. */
module Containers {

  /** A value that may be absent: an empty `std::optional`, or a null `shared_ptr`. */
  datatype Option<T> = None | Some(value: T)

  /** `GetMappedOptional(map, key)`: the mapped value when the key is present. */
  function GetMappedOptional<K, V>(m: map<K, V>, key: K): (r: Option<V>)
    ensures r.Some? <==> key in m
    ensures r.Some? ==> r.value == m[key]
  {
    if key in m then Some(m[key]) else None
  }

  /** `GetMapped(map, key, default_factory)`: the mapped value, or the factory's default. */
  function GetMapped<K, V>(m: map<K, V>, key: K, default: V): (r: V)
    ensures key in m ==> r == m[key]
    ensures key !in m ==> r == default
  {
    match GetMappedOptional(m, key)
    case Some(v) => v
    case None => default
  }
}
