/** A JavaScript `Map` as a value: its entries and its keys in first-insertion
    order, which is the order `values()` yields them in. `set` on a present key
    keeps that key's position; `delete` drops it. */
module JsMap {
  import opened Wrappers
  import opened JsArray

  datatype OrderedMap<K(==,!new), V> = OrderedMap(keys: seq<K>, entries: map<K, V>) {

    /** Each key is listed once, and exactly the stored keys are listed. */
    ghost predicate Valid() {
      && Distinct(keys)
      && (forall k :: k in entries <==> k in keys)
    }

    /** `map.has(k)`. */
    predicate Has(k: K) {
      k in entries
    }

    /** `map.get(k)`: the stored value, or nothing. */
    function Get(k: K): (r: Option<V>)
      ensures r.Some? <==> k in entries
      ensures r.Some? ==> r.value == entries[k]
    {
      if k in entries then Some(entries[k]) else None
    }

    /** `map.set(k, v)`: a new key goes last; a present key keeps its place. */
    function Set(k: K, v: V): (m: OrderedMap<K, V>)
      ensures Valid() ==> m.Valid()
      ensures k in m.entries && m.entries[k] == v
      ensures forall k' | k' != k :: (k' in m.entries <==> k' in entries)
      ensures forall k' | k' != k && k' in entries :: m.entries[k'] == entries[k']
      ensures k in entries ==> m.keys == keys
      ensures k !in entries ==> m.keys == keys + [k]
    {
      OrderedMap(if k in entries then keys else keys + [k], entries[k := v])
    }

    /** `map.delete(k)`: removes `k` and its value, keeping every other key in
        its place. */
    function Delete(k: K): (m: OrderedMap<K, V>)
      ensures Valid() ==> m.Valid()
      ensures k !in m.entries
      ensures forall k' | k' != k :: (k' in m.entries <==> k' in entries)
      ensures forall k' | k' != k && k' in entries :: m.entries[k'] == entries[k']
      ensures Valid() ==> forall p | 0 <= p < |keys| && keys[p] == k :: m.keys == keys[..p] + keys[p + 1..]
      ensures k !in keys ==> m.keys == keys
    {
      var keep := (x: K) => x != k;
      var m := OrderedMap(Filter(keys, keep), entries - {k});
      FilterMembers(keys, keep);
      if k !in keys then FilterKeepsAll(keys, keep); m
      else if Distinct(keys) then FilterKeepsDistinct(keys, keep); DropOne(keys, k, keep); m
      else m
    }

    /** `Array.from(map.values())`: the values in key order. */
    function Values(): (vs: seq<V>)
      requires Valid()
      ensures |vs| == |keys|
      ensures forall i | 0 <= i < |keys| :: vs[i] == entries[keys[i]]
    {
      seq(|keys|, i requires 0 <= i < |keys| => entries[keys[i]])
    }

    /** `get` sees what `set` and `delete` did: the key just set yields its new
        value, the key just deleted yields nothing, and every other key is
        unaffected. */
    lemma GetAfterUpdates(k: K, v: V, other: K)
      requires other != k
      ensures Set(k, v).Get(k) == Some(v) && Set(k, v).Get(other) == Get(other)
      ensures Delete(k).Get(k) == None && Delete(k).Get(other) == Get(other)
    {
    }

    /** Every stored value is listed by `values()`, and nothing else is. */
    lemma ValuesAreTheEntries()
      requires Valid()
      ensures forall k | k in entries :: entries[k] in Values()
      ensures forall i | 0 <= i < |Values()| :: keys[i] in entries && Values()[i] == entries[keys[i]]
    {
      forall k | k in entries ensures entries[k] in Values() {
        var i :| 0 <= i < |keys| && keys[i] == k;
        assert Values()[i] == entries[k];
      }
    }

    /** What `set` does to the iteration order: a new key's value is appended,
        a present key's value is replaced where it stood. */
    lemma ValuesAfterSet(k: K, v: V)
      requires Valid()
      ensures k !in entries ==> Set(k, v).Values() == Values() + [v]
      ensures k in entries ==> forall i | 0 <= i < |keys| ::
        Set(k, v).Values()[i] == if keys[i] == k then v else Values()[i]
    {
    }
  }

  /** `new Map()`. */
  function EmptyMap<K(==,!new), V>(): (m: OrderedMap<K, V>)
    ensures m.Valid() && m.entries == map[] && m.Values() == []
  {
    OrderedMap([], map[])
  }
}
