/** Small shared vocabulary: optional values, map lookup and sequences without repetition. */
module Common {
  datatype Option<+T> = None | Some(value: T)

  /** The value of a key, if it has one. */
  function Get<K, V>(m: map<K, V>, k: K): Option<V> {
    if k in m then Some(m[k]) else None
  }

  /** No element occurs twice. */
  ghost predicate Distinct<T>(s: seq<T>) {
    forall i, j :: 0 <= i < j < |s| ==> s[i] != s[j]
  }
}
