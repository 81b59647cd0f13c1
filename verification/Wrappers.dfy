/** Optional values, looking up a key that may be missing, and joining parts. */
module Wrappers {
  datatype Option<+T> = None | Some(value: T)

  function Get<K, V>(m: map<K, V>, k: K): Option<V> {
    if k in m then Some(m[k]) else None
  }

  /** The empty string for a missing key. */
  function Lookup<K>(m: map<K, string>, k: K): string {
    if k in m then m[k] else ""
  }

  /** The first n parts one after the other. */
  function Joined<T>(parts: seq<seq<T>>, n: nat): seq<T>
    requires n <= |parts|
  {
    if n == 0 then [] else Joined(parts, n - 1) + parts[n - 1]
  }
}
