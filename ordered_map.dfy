/**
  An ECMAScript `Map` as a value: a finite map that also remembers the order in
  which its keys were first inserted, because iterating `entries()` follows that
  order. Re-setting an existing key keeps its position.
 */
module OrderedMaps {

  datatype OrderedMap<K(==, !new), V> = OrderedMap(keys: seq<K>, values: map<K, V>) {

    /** The keys are listed once each, and exactly the keys of `values` are listed. */
    ghost predicate Valid() {
      && (forall i, j :: 0 <= i < j < |keys| ==> keys[i] != keys[j])
      && (forall k :: k in values <==> k in keys)
    }

    /** `Map.prototype.has` */
    predicate Has(k: K) {
      k in values
    }

    /** `Map.prototype.get` on a key that is present */
    function Get(k: K): V
      requires Has(k)
    {
      values[k]
    }

    /** `Map.prototype.set`: a new key goes to the end of the iteration order,
        an existing key keeps its place and only its value changes. */
    function Set(k: K, v: V): (r: OrderedMap<K, V>)
      ensures r.Has(k) && r.Get(k) == v
      ensures forall k' :: k' != k ==> (r.Has(k') <==> Has(k')) && (Has(k') ==> r.Get(k') == Get(k'))
      ensures r.keys == if Has(k) then keys else keys + [k]
      ensures Valid() ==> r.Valid()
    {
      OrderedMap(if k in values then keys else keys + [k], values[k := v])
    }
  }

  /** `new Map()` */
  function Empty<K(==, !new), V>(): (r: OrderedMap<K, V>)
    ensures r.Valid() && r.keys == [] && r.values == map[]
  {
    OrderedMap([], map[])
  }
}
