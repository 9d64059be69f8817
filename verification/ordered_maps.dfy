/** Python's insertion-ordered `dict`, made explicit: the key order as a
    sequence next to the key/value map. Assigning to a present key keeps its
    position; a new key goes to the end. */
module OrderedMaps {
  import opened Seqs

  datatype OrderedMap<K, V> = OrderedMap(keys: seq<K>, values: map<K, V>)

  ghost predicate Valid<K, V>(m: OrderedMap<K, V>) {
    Distinct(m.keys) && Elems(m.keys) == m.values.Keys
  }

  function Empty<K, V>(): (m: OrderedMap<K, V>)
    ensures Valid(m) && m.keys == []
  {
    OrderedMap([], map[])
  }

  /** `d[k] = v`. */
  function Put<K, V>(m: OrderedMap<K, V>, k: K, v: V): (r: OrderedMap<K, V>)
    requires Valid(m)
    ensures Valid(r)
    ensures r.keys == if k in m.values then m.keys else m.keys + [k]
    ensures r.values == m.values[k := v]
  {
    if k in m.values then OrderedMap(m.keys, m.values[k := v])
    else OrderedMap(m.keys + [k], m.values[k := v])
  }

  /** `if k not in d: d[k] = v` — an earlier entry is never replaced. */
  function PutIfAbsent<K, V>(m: OrderedMap<K, V>, k: K, v: V): (r: OrderedMap<K, V>)
    requires Valid(m)
    ensures Valid(r)
    ensures k in m.values ==> r == m
    ensures k !in m.values ==> r.keys == m.keys + [k] && r.values == m.values[k := v]
  {
    if k in m.values then m else Put(m, k, v)
  }

  /** When the keys are the first appearances of `s`, putting `k` keeps them
      the first appearances of `s + [k]`. */
  lemma PutKeysDedup<K, V>(m: OrderedMap<K, V>, s: seq<K>, k: K, v: V)
    requires Valid(m) && m.keys == Dedup(s)
    ensures Put(m, k, v).keys == Dedup(s + [k])
  {
    DedupSnoc(s, k);
    assert k in m.values <==> k in Elems(m.keys);
  }
}
