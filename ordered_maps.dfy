/**
 * A JavaScript `Map<string, V>`: the keys in insertion order together with
 * the key/value mapping. Lookups are modelled abstractly (no hashing).
 */
module OrderedMaps {

  datatype OrderedMap<V> = OrderedMap(keys: seq<string>, values: map<string, V>)
  {
    /** Keys are listed once each, and exactly the keys of `values` are listed. */
    ghost predicate Valid() {
      NoDuplicates(keys) && forall k :: k in values <==> k in keys
    }

    /**
     * `Map.prototype.set`: a new key goes to the end of the iteration order;
     * an existing key keeps its position and only its value is replaced.
     */
    function Set(k: string, v: V): (m: OrderedMap<V>)
      requires Valid()
      ensures m.Valid()
      ensures m.values == values[k := v]
      ensures k in values ==> m.keys == keys
      ensures k !in values ==> m.keys == keys + [k]
    {
      if k in values then OrderedMap(keys, values[k := v])
      else
        assert (keys + [k])[..|keys|] == keys;
        OrderedMap(keys + [k], values[k := v])
    }
  }

  /** No key is listed twice. */
  ghost predicate NoDuplicates(ks: seq<string>)
  {
    |ks| == 0 || (ks[|ks| - 1] !in ks[..|ks| - 1] && NoDuplicates(ks[..|ks| - 1]))
  }

  /** `new Map()`. */
  function Empty<V>(): (m: OrderedMap<V>)
    ensures m.Valid() && m.keys == [] && m.values == map[]
  {
    OrderedMap([], map[])
  }
}
