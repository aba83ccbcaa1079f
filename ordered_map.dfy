/**
 * The JavaScript `Map` the stores are built on: `set` overwrites the value of a
 * key already present and keeps its position, adds a new key at the end, and
 * iteration (`values()`, `entries()`) follows the order in which keys were
 * first set. `delete` forgets a key.
 */
module OrderedMaps {
  import opened Wrappers
  import opened Seqs

  datatype OrderedMap<K(==, !new), V> = OrderedMap(keys: seq<K>, entries: map<K, V>) {

    /** Each key appears once in the iteration order, and exactly the stored keys do. */
    ghost predicate Valid() {
      Distinct(keys) && (forall k :: k in entries <==> k in keys)
    }

    /** `m.get(k)`, with `undefined` as `None`. */
    function Get(k: K): (r: Option<V>)
      ensures r.Some? <==> k in entries
      ensures r.Some? ==> r.value == entries[k]
    {
      if k in entries then Some(entries[k]) else None
    }

    /** `m.set(k, v)`. */
    function Set(k: K, v: V): (m: OrderedMap<K, V>)
      requires Valid()
      ensures m.Valid()
      ensures m.Get(k) == Some(v)
      ensures forall k' :: k' != k ==> m.Get(k') == Get(k')
      ensures k in entries ==> m.keys == keys
      ensures k !in entries ==> m.keys == keys + [k]
    {
      OrderedMap(if k in entries then keys else keys + [k], entries[k := v])
    }

    /** `m.delete(k)`; a no-op for a key that is not present. */
    function Delete(k: K): (m: OrderedMap<K, V>)
      requires Valid()
      ensures m.Valid()
      ensures m.Get(k) == None
      ensures forall k' :: k' != k ==> m.Get(k') == Get(k')
      ensures k !in entries ==> m == this
    {
      FilterDistinct(keys, (x: K) => x != k);
      FilterMembershipAll(keys, k);
      if k !in entries then
        FilterAll(keys, (x: K) => x != k);
        assert entries - {k} == entries;
        this
      else
        OrderedMap(Filter(keys, (x: K) => x != k), entries - {k})
    }

    /** `Array.from(m.values())`: the values in key order. */
    function Values(): (r: seq<V>)
      requires Valid()
      ensures |r| == |keys|
      ensures forall i :: 0 <= i < |keys| ==> r[i] == entries[keys[i]]
    {
      seq(|keys|, i requires 0 <= i < |keys| => entries[keys[i]])
    }

    /** `m.size`. */
    function Size(): (n: nat)
      requires Valid()
      ensures n == |entries|
    {
      MapSize(keys, entries);
      |keys|
    }
  }

  /** A fresh `new Map()`. */
  function Empty<K(==, !new), V>(): (m: OrderedMap<K, V>)
    ensures m.Valid() && m.keys == [] && m.entries == map[]
  {
    OrderedMap([], map[])
  }

  lemma FilterMembershipAll<K>(keys: seq<K>, k: K)
    ensures forall x :: x in Filter(keys, (y: K) => y != k) <==> x in keys && x != k
  {
    forall x ensures x in Filter(keys, (y: K) => y != k) <==> x in keys && x != k {
      FilterMembership(keys, (y: K) => y != k, x);
    }
  }

  /** The number of stored entries equals the length of the key order. */
  lemma {:induction false} MapSize<K, V>(keys: seq<K>, entries: map<K, V>)
    requires Distinct(keys) && (forall k :: k in entries <==> k in keys)
    ensures |entries| == |keys|
  {
    if keys == [] {
      assert entries == map[];
    } else {
      var k := keys[|keys| - 1];
      var rest := keys[..|keys| - 1];
      assert keys == rest + [k];
      assert k !in rest;
      MapSize(rest, entries - {k});
    }
  }

  /** `Array.from(m.values())` holds exactly the map's values. */
  lemma ValuesExact<K(!new), V>(m: OrderedMap<K, V>)
    requires m.Valid()
    ensures |m.Values()| == |m.entries|
    ensures forall v :: v in m.Values() <==> v in m.entries.Values
  {
    MapSize(m.keys, m.entries);
    forall v | v in m.entries.Values ensures v in m.Values() {
      var k :| k in m.entries && m.entries[k] == v;
      var i :| 0 <= i < |m.keys| && m.keys[i] == k;
      assert m.Values()[i] == v;
    }
  }

  /** Setting a key twice is the same as setting it once to the later value. */
  lemma SetTwice<K(!new), V>(m: OrderedMap<K, V>, k: K, v1: V, v2: V)
    requires m.Valid()
    ensures m.Set(k, v1).Set(k, v2) == m.Set(k, v2)
  {
    assert m.Set(k, v1).entries[k := v2] == m.entries[k := v2];
  }
}
