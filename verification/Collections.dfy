/** Small facts about maps and sequences that several components share. */
module Collections {
  function Without<K, V>(m: map<K, V>, k: K): map<K, V> {
    map i | i in m && i != k :: m[i]
  }

  lemma Regroup<T>(a: seq<T>, b: seq<T>, c: seq<T>)
    ensures a + (b + c) == (a + b) + c
  {
  }
}
