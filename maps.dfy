/** Extensional facts about map union used by the registry and attribute proofs. */
module Maps {

  /** A map that agrees with `a + b` key by key is `a + b`. */
  lemma UnionByEntries<K, V>(a: map<K, V>, b: map<K, V>, r: map<K, V>)
    requires r.Keys == a.Keys + b.Keys
    requires forall k :: k in b ==> r[k] == b[k]
    requires forall k :: k in a && k !in b ==> r[k] == a[k]
    ensures r == a + b
  {
    assert r.Keys == (a + b).Keys;
  }

  /** Every key of `a` is overwritten by `b`. */
  lemma UnionOfCovered<K, V>(a: map<K, V>, b: map<K, V>)
    requires a.Keys <= b.Keys
    ensures a + b == b
  {
    assert (a + b).Keys == b.Keys;
  }
}
