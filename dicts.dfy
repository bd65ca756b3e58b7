/** Python's `dict`: a finite map together with the fixed order in which
    iterating it (`iteritems`, `keys`) visits the keys. Python 2 leaves that
    order unspecified; the model keeps insertion order as one admissible
    choice. Results computed from that order are the ones for insertion
    order: which pseudoreplicate a placeholder selects, the order in which
    the landmarks of one requested name are chained, and the order of the
    lines the earlier script writes. */
module Dicts {

  datatype Dict<K, V> = Dict(keys: seq<K>, m: map<K, V>) {

    /** Every key is listed exactly once. */
    ghost predicate Valid() {
      && (forall i, j :: 0 <= i < j < |keys| ==> keys[i] != keys[j])
      && m.Keys == set k | k in keys
    }

    /** `d[k] = v`: a new key is listed last, an existing key keeps its place. */
    function Put(k: K, v: V): (d: Dict<K, V>)
      ensures d.m == m[k := v]
      ensures k in m ==> d.keys == keys
      ensures k !in m ==> d.keys == keys + [k]
    {
      Dict(if k in m then keys else keys + [k], m[k := v])
    }

    /** The values, in iteration order. */
    function Items(): (vs: seq<V>)
      requires Valid()
      ensures |vs| == |keys|
      ensures forall i :: 0 <= i < |keys| ==> vs[i] == m[keys[i]]
    {
      seq(|keys|, i requires 0 <= i < |keys| => m[keys[i]])
    }
  }

  /** Storing under a key keeps every key listed exactly once. */
  lemma PutValid<K, V>(d: Dict<K, V>, k: K, v: V)
    requires d.Valid()
    ensures d.Put(k, v).Valid()
  {
  }

  /** Storing a key's own value changes nothing. */
  lemma PutSame<K, V>(d: Dict<K, V>, k: K)
    requires k in d.m
    ensures d.Put(k, d.m[k]) == d
  {
  }

  /** Storing twice under one key is storing the second value. */
  lemma PutTwice<K, V>(d: Dict<K, V>, k: K, a: V, b: V)
    ensures d.Put(k, a).Put(k, b) == d.Put(k, b)
  {
  }

  function Empty<K, V>(): (d: Dict<K, V>)
    ensures d.Valid() && d.keys == [] && d.m == map[]
  {
    Dict([], map[])
  }
}
