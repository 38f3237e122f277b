/** The hash maps of the source (`DashMap`, `HashMap`) are keyed stores whose
    iteration order is unspecified.  The model keeps the key/value map together
    with the order in which keys were first inserted and iterates in that
    order; contracts elsewhere speak about the map, not about the order. */
module OrderedMaps {

  datatype OrderedMap<K, V> = OrderedMap(entries: map<K, V>, order: seq<K>)

  /** Every key occurs exactly once in `order`, and `order` lists exactly the keys. */
  ghost predicate Valid<K, V>(m: OrderedMap<K, V>) {
    && (forall i, j :: 0 <= i < j < |m.order| ==> m.order[i] != m.order[j])
    && m.entries.Keys == (set k | k in m.order)
  }

  function Empty<K, V>(): (r: OrderedMap<K, V>)
    ensures Valid(r) && r.entries == map[] && r.order == []
  {
    OrderedMap(map[], [])
  }

  /** `entry(k).and_modify(update).or_insert(initial)`. */
  function Upsert<K, V>(m: OrderedMap<K, V>, k: K, initial: V, update: V --> V): (r: OrderedMap<K, V>)
    requires Valid(m)
    requires k in m.entries ==> update.requires(m.entries[k])
    ensures Valid(r)
    ensures r.entries.Keys == m.entries.Keys + {k}
    ensures k in m.entries ==> r.entries == m.entries[k := update(m.entries[k])] && r.order == m.order
    ensures k !in m.entries ==> r.entries == m.entries[k := initial] && r.order == m.order + [k]
  {
    if k in m.entries then
      OrderedMap(m.entries[k := update(m.entries[k])], m.order)
    else
      OrderedMap(m.entries[k := initial], m.order + [k])
  }

  /** The (key, value) pairs in iteration order. */
  function Items<K, V>(m: OrderedMap<K, V>): (r: seq<(K, V)>)
    requires Valid(m)
    ensures |r| == |m.order| == |m.entries|
    ensures forall i :: 0 <= i < |r| ==> r[i].0 == m.order[i] && r[i].0 in m.entries && r[i].1 == m.entries[r[i].0]
  {
    CardOfDistinct(m);
    seq(|m.order|, i requires 0 <= i < |m.order| => (m.order[i], m.entries[m.order[i]]))
  }

  lemma CardOfDistinct<K, V>(m: OrderedMap<K, V>)
    requires Valid(m)
    ensures |m.entries| == |m.order|
  {
    DistinctSeqCard(m.order);
    assert m.entries.Keys == set k | k in m.order;
  }

  lemma {:induction false} DistinctSeqCard<K>(s: seq<K>)
    requires forall i, j :: 0 <= i < j < |s| ==> s[i] != s[j]
    ensures |set k | k in s| == |s|
  {
    if s != [] {
      var t := s[..|s| - 1];
      DistinctSeqCard(t);
      assert (set k | k in s) == (set k | k in t) + {s[|s| - 1]};
      assert s[|s| - 1] !in t;
    }
  }
}
