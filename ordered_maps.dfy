/**
 * A .NET Dictionary that is only ever added to enumerates its entries in the
 * order they were added. The tool relies on that order (the registry is
 * scanned in reverse, fields are matched to query columns by position), so a
 * dictionary is modelled as the sequence of its (key, value) pairs.
 */
module OrderedMaps {
  type OrderedMap<K, V> = seq<(K, V)>

  /** The keys, in enumeration order (Dictionary.Keys). */
  function Keys<K, V>(m: OrderedMap<K, V>): (ks: seq<K>)
    ensures |ks| == |m|
    ensures forall i :: 0 <= i < |m| ==> ks[i] == m[i].0
  {
    seq(|m|, i requires 0 <= i < |m| => m[i].0)
  }

  /** The values, in enumeration order (Dictionary.Values). */
  function Values<K, V>(m: OrderedMap<K, V>): (vs: seq<V>)
    ensures |vs| == |m|
    ensures forall i :: 0 <= i < |m| ==> vs[i] == m[i].1
  {
    seq(|m|, i requires 0 <= i < |m| => m[i].1)
  }

  /** No key occurs twice, which a Dictionary guarantees. */
  predicate DistinctKeys<K(==), V>(m: OrderedMap<K, V>)
  {
    forall i, j :: 0 <= i < j < |m| ==> m[i].0 != m[j].0
  }

  /** Dictionary.Add: it throws on a key already present, so the key must be new; the pair goes last. */
  function Add<K(==), V>(m: OrderedMap<K, V>, k: K, v: V): (r: OrderedMap<K, V>)
    requires DistinctKeys(m) && k !in Keys(m)
    ensures DistinctKeys(r) && Keys(r) == Keys(m) + [k]
    ensures r[..|m|] == m && r[|m|] == (k, v)
  {
    m + [(k, v)]
  }
}
