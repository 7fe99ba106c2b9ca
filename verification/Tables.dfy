/** How one version of a table differs from the one before it. */
module Tables {
  /** Row `key` is now `row`, and no other row is added, lost or changed. */
  ghost predicate Put<K, V>(before: map<K, V>, after: map<K, V>, key: K, row: V) {
    && after.Keys == before.Keys + {key} && after[key] == row
    && forall k | k in before && k != key :: after[k] == before[k]
  }

  /** Row number `i` is now `row`, and no other row is added, lost or changed. */
  ghost predicate PutAt<T>(before: seq<T>, after: seq<T>, i: nat, row: T) {
    && i < |before| == |after| && after[i] == row
    && forall j | 0 <= j < |before| && j != i :: after[j] == before[j]
  }

  /** Exactly the rows to keep are left, as they were. */
  ghost predicate Left<K, V>(before: map<K, V>, after: map<K, V>, keep: V -> bool) {
    && (forall k | k in after :: k in before && keep(before[k]) && after[k] == before[k])
    && forall k | k in before && keep(before[k]) :: k in after
  }
}
