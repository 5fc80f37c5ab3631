/**
 * The keyed diff of two insertion-ordered maps (`diffMaps`) and its use on
 * the fields of two versions of a model (`diffModelFields`).
 */
module SchemaDiff {
  import opened SchemaAst
  import opened OrderedMaps
  import opened Extract
  import opened Sequences

  datatype Pair<T> = Pair(prev: T, current: T)

  /** Entries only in the current map, only in the previous map, and in both. */
  datatype Diff<T> = Diff(added: seq<T>, deleted: seq<T>, remaining: seq<Pair<T>>)

  /** The keys of `ks` that are not in `drop`, in their order in `ks`. */
  function Without(ks: seq<string>, drop: set<string>): seq<string>
  {
    if |ks| == 0 then []
    else Without(ks[..|ks| - 1], drop) + if ks[|ks| - 1] in drop then [] else [ks[|ks| - 1]]
  }

  /** The keys of `ks` that are in `keep`, in their order in `ks`. */
  function Within(ks: seq<string>, keep: set<string>): seq<string>
  {
    if |ks| == 0 then []
    else Within(ks[..|ks| - 1], keep) + if ks[|ks| - 1] in keep then [ks[|ks| - 1]] else []
  }

  /** A key survives `Without` exactly when it is listed and not dropped. */
  lemma {:induction false} WithoutHas(ks: seq<string>, drop: set<string>)
    ensures forall k :: k in Without(ks, drop) <==> k in ks && k !in drop
  {
    if |ks| > 0 {
      WithoutHas(ks[..|ks| - 1], drop);
      assert ks == ks[..|ks| - 1] + [ks[|ks| - 1]];
    }
  }

  /** A key survives `Within` exactly when it is listed and kept. */
  lemma {:induction false} WithinHas(ks: seq<string>, keep: set<string>)
    ensures forall k :: k in Within(ks, keep) <==> k in ks && k in keep
  {
    if |ks| > 0 {
      WithinHas(ks[..|ks| - 1], keep);
      assert ks == ks[..|ks| - 1] + [ks[|ks| - 1]];
    }
  }

  /** `Without` keeps the keys it retains in their order in `ks`. */
  lemma {:induction false} WithoutInOrder(ks: seq<string>, drop: set<string>, i: nat, j: nat)
    requires i < j < |Without(ks, drop)|
    ensures exists p, q :: 0 <= p < q < |ks| && ks[p] == Without(ks, drop)[i] && ks[q] == Without(ks, drop)[j]
  {
    var init := ks[..|ks| - 1];
    var w := Without(init, drop);
    if j < |w| {
      WithoutInOrder(init, drop, i, j);
      var p, q :| 0 <= p < q < |init| && init[p] == w[i] && init[q] == w[j];
      assert ks[p] == init[p] && ks[q] == init[q];
    } else {
      WithoutHas(init, drop);
      assert w[i] in init;
      var p :| 0 <= p < |init| && init[p] == w[i];
      assert ks[p] == init[p];
    }
  }

  /** `Within` keeps the keys it retains in their order in `ks`. */
  lemma {:induction false} WithinInOrder(ks: seq<string>, keep: set<string>, i: nat, j: nat)
    requires i < j < |Within(ks, keep)|
    ensures exists p, q :: 0 <= p < q < |ks| && ks[p] == Within(ks, keep)[i] && ks[q] == Within(ks, keep)[j]
  {
    var init := ks[..|ks| - 1];
    var w := Within(init, keep);
    if j < |w| {
      WithinInOrder(init, keep, i, j);
      var p, q :| 0 <= p < q < |init| && init[p] == w[i] && init[q] == w[j];
      assert ks[p] == init[p] && ks[q] == init[q];
    } else {
      WithinHas(init, keep);
      assert w[i] in init;
      var p :| 0 <= p < |init| && init[p] == w[i];
      assert ks[p] == init[p];
    }
  }

  /** Every key of `ks` lands in exactly one of the two filters. */
  lemma {:induction false} WithoutWithinSplit(ks: seq<string>, s: set<string>)
    ensures |Without(ks, s)| + |Within(ks, s)| == |ks|
  {
    if |ks| > 0 {
      WithoutWithinSplit(ks[..|ks| - 1], s);
    }
  }

  /** Filtering a list extended by one key extends the filtered list by that key or by nothing. */
  lemma WithoutSnoc(ks: seq<string>, x: string, drop: set<string>)
    ensures Without(ks + [x], drop) == Without(ks, drop) + if x in drop then [] else [x]
  {
    assert (ks + [x])[..|ks|] == ks;
  }

  lemma WithinSnoc(ks: seq<string>, x: string, keep: set<string>)
    ensures Within(ks + [x], keep) == Within(ks, keep) + if x in keep then [x] else []
  {
    assert (ks + [x])[..|ks|] == ks;
  }

  /** Dropping two sets of keys one after the other drops their union. */
  lemma {:induction false} WithoutTwice(ks: seq<string>, s: set<string>, t: set<string>)
    ensures Without(Without(ks, s), t) == Without(ks, s + t)
    decreases |ks|
  {
    if |ks| > 0 {
      var init := ks[..|ks| - 1];
      var last := ks[|ks| - 1];
      assert ks == init + [last];
      WithoutTwice(init, s, t);
      var w := Without(init, s);
      WithoutSnoc(init, last, s);
      WithoutSnoc(init, last, s + t);
      if last !in s {
        WithoutSnoc(w, last, t);
        assert Without(Without(ks, s), t) == Without(w, t) + if last in t then [] else [last];
      } else {
        assert Without(ks, s) == w;
      }
    }
  }

  /** Dropping keys that are not there changes nothing. */
  lemma {:induction false} WithoutAbsent(ks: seq<string>, s: set<string>)
    requires forall k :: k in s ==> k !in ks
    ensures Without(ks, s) == ks
  {
    if |ks| > 0 {
      WithoutAbsent(ks[..|ks| - 1], s);
      assert ks[..|ks| - 1] + [ks[|ks| - 1]] == ks;
    }
  }

  /** The set of keys listed in `ks`. */
  function KeySet(ks: seq<string>): set<string>
  {
    if |ks| == 0 then {} else KeySet(ks[..|ks| - 1]) + {ks[|ks| - 1]}
  }

  lemma {:induction false} KeySetHas(ks: seq<string>)
    ensures forall k :: k in KeySet(ks) <==> k in ks
  {
    if |ks| > 0 {
      KeySetHas(ks[..|ks| - 1]);
      assert ks == ks[..|ks| - 1] + [ks[|ks| - 1]];
    }
  }

  /** The values stored under `ks`, in the order of `ks` (keys missing from `m` are skipped). */
  function ValuesAt<V>(m: map<string, V>, ks: seq<string>): (r: seq<V>)
    ensures (forall k :: k in ks ==> k in m) ==>
            |r| == |ks| && forall i :: 0 <= i < |ks| ==> r[i] == m[ks[i]]
  {
    if |ks| == 0 then []
    else
      var last := ks[|ks| - 1];
      ValuesAt(m, ks[..|ks| - 1]) + if last in m then [m[last]] else []
  }

  /** For each key of `ks`, the previous and the current value stored under it (keys missing from either are skipped). */
  function PairsAt<V>(prev: map<string, V>, current: map<string, V>, ks: seq<string>): (r: seq<Pair<V>>)
    ensures (forall k :: k in ks ==> k in prev && k in current) ==>
            |r| == |ks| && forall i :: 0 <= i < |ks| ==> r[i] == Pair(prev[ks[i]], current[ks[i]])
  {
    if |ks| == 0 then []
    else
      var last := ks[|ks| - 1];
      PairsAt(prev, current, ks[..|ks| - 1]) + if last in prev && last in current then [Pair(prev[last], current[last])] else []
  }

  lemma ValuesAtSnoc<V>(m: map<string, V>, ks: seq<string>, k: string)
    requires forall x :: x in ks ==> x in m
    requires k in m
    ensures ValuesAt(m, ks + [k]) == ValuesAt(m, ks) + [m[k]]
  {
    assert (ks + [k])[..|ks|] == ks;
  }

  lemma PairsAtSnoc<V>(prev: map<string, V>, current: map<string, V>, ks: seq<string>, k: string)
    requires forall x :: x in ks ==> x in prev && x in current
    requires k in prev && k in current
    ensures PairsAt(prev, current, ks + [k]) == PairsAt(prev, current, ks) + [Pair(prev[k], current[k])]
  {
    assert (ks + [k])[..|ks|] == ks;
  }

  /** Keys of the previous map missing from the current one, in previous order. */
  function DeletedKeys<V>(prev: OrderedMap<V>, current: OrderedMap<V>): seq<string>
  {
    Without(prev.keys, current.values.Keys)
  }

  /** Keys of the previous map also in the current one, in previous order. */
  function RemainingKeys<V>(prev: OrderedMap<V>, current: OrderedMap<V>): seq<string>
  {
    Within(prev.keys, current.values.Keys)
  }

  /** Keys of the current map missing from the previous one, in current order. */
  function AddedKeys<V>(prev: OrderedMap<V>, current: OrderedMap<V>): seq<string>
  {
    Without(current.keys, prev.values.Keys)
  }

  /** The diff of two maps, described by where each key lands. */
  function DiffOf<V>(prev: OrderedMap<V>, current: OrderedMap<V>): Diff<V>
  {
    Diff(ValuesAt(current.values, AddedKeys(prev, current)),
         ValuesAt(prev.values, DeletedKeys(prev, current)),
         PairsAt(prev.values, current.values, RemainingKeys(prev, current)))
  }

  /**
   * The three key lists partition the keys: every previous key is deleted
   * or remaining and not both, every current key is remaining or added and
   * not both, and no list holds a key from elsewhere.
   */
  lemma DiffPartition<V>(prev: OrderedMap<V>, current: OrderedMap<V>)
    requires prev.Valid() && current.Valid()
    ensures forall k :: k in prev.keys ==> (k in DeletedKeys(prev, current) <==> k !in RemainingKeys(prev, current))
    ensures forall k :: k in current.keys ==> (k in RemainingKeys(prev, current) <==> k !in AddedKeys(prev, current))
    ensures forall k :: k in DeletedKeys(prev, current) <==> k in prev.keys && k !in current.keys
    ensures forall k :: k in RemainingKeys(prev, current) <==> k in prev.keys && k in current.keys
    ensures forall k :: k in AddedKeys(prev, current) <==> k in current.keys && k !in prev.keys
  {
    WithoutHas(current.keys, prev.values.Keys);
    WithoutHas(prev.keys, current.values.Keys);
    WithinHas(prev.keys, current.values.Keys);
  }

  /**
   * Each entry of the diff is the value stored under its key: remaining pairs
   * hold the previous and the current value of one shared key.
   */
  lemma DiffEntriesByKey<V>(prev: OrderedMap<V>, current: OrderedMap<V>)
    requires prev.Valid() && current.Valid()
    ensures forall k :: k in DeletedKeys(prev, current) ==> k in prev.values
    ensures forall k :: k in RemainingKeys(prev, current) ==> k in prev.values && k in current.values
    ensures forall k :: k in AddedKeys(prev, current) ==> k in current.values
    ensures |DiffOf(prev, current).deleted| == |DeletedKeys(prev, current)|
    ensures |DiffOf(prev, current).remaining| == |RemainingKeys(prev, current)|
    ensures |DiffOf(prev, current).added| == |AddedKeys(prev, current)|
    ensures forall i :: 0 <= i < |DeletedKeys(prev, current)| ==>
              DiffOf(prev, current).deleted[i] == prev.values[DeletedKeys(prev, current)[i]]
    ensures forall i :: 0 <= i < |RemainingKeys(prev, current)| ==>
              DiffOf(prev, current).remaining[i] ==
              Pair(prev.values[RemainingKeys(prev, current)[i]], current.values[RemainingKeys(prev, current)[i]])
    ensures forall i :: 0 <= i < |AddedKeys(prev, current)| ==>
              DiffOf(prev, current).added[i] == current.values[AddedKeys(prev, current)[i]]
  {
    WithoutHas(current.keys, prev.values.Keys);
    WithoutHas(prev.keys, current.values.Keys);
    WithinHas(prev.keys, current.values.Keys);
  }

  /** Each deleted entry is the previous value under a key the current map lacks. */
  lemma DeletedEntry<V>(prev: OrderedMap<V>, current: OrderedMap<V>, i: nat) returns (k: string)
    requires prev.Valid() && current.Valid()
    requires i < |DiffOf(prev, current).deleted|
    ensures k in prev.values && k !in current.values && DiffOf(prev, current).deleted[i] == prev.values[k]
  {
    DiffPartition(prev, current);
    DiffEntriesByKey(prev, current);
    k := DeletedKeys(prev, current)[i];
  }

  /** Each previous value under a key the current map lacks is a deleted entry. */
  lemma DeletedIndex<V>(prev: OrderedMap<V>, current: OrderedMap<V>, k: string) returns (i: nat)
    requires prev.Valid() && current.Valid()
    requires k in prev.values && k !in current.values
    ensures i < |DiffOf(prev, current).deleted| && DiffOf(prev, current).deleted[i] == prev.values[k]
  {
    DiffPartition(prev, current);
    DiffEntriesByKey(prev, current);
    var keys := DeletedKeys(prev, current);
    assert k in keys;
    i :| i < |keys| && keys[i] == k;
  }

  /** Each remaining pair holds the two values of a key both maps have. */
  lemma RemainingEntry<V>(prev: OrderedMap<V>, current: OrderedMap<V>, i: nat) returns (k: string)
    requires prev.Valid() && current.Valid()
    requires i < |DiffOf(prev, current).remaining|
    ensures k in prev.values && k in current.values &&
            DiffOf(prev, current).remaining[i] == Pair(prev.values[k], current.values[k])
  {
    DiffPartition(prev, current);
    DiffEntriesByKey(prev, current);
    k := RemainingKeys(prev, current)[i];
  }

  /** Each key both maps have gives a remaining pair of its two values. */
  lemma RemainingIndex<V>(prev: OrderedMap<V>, current: OrderedMap<V>, k: string) returns (i: nat)
    requires prev.Valid() && current.Valid()
    requires k in prev.values && k in current.values
    ensures i < |DiffOf(prev, current).remaining| &&
            DiffOf(prev, current).remaining[i] == Pair(prev.values[k], current.values[k])
  {
    DiffPartition(prev, current);
    DiffEntriesByKey(prev, current);
    var keys := RemainingKeys(prev, current);
    assert k in keys;
    i :| i < |keys| && keys[i] == k;
  }

  /**
   * `deleted` and `remaining` follow the previous map's key order, and
   * `added` follows the current map's key order: entries `i < j` of a part
   * come from keys at positions `p < q`.
   */
  lemma DiffKeepsKeyOrder<V>(prev: OrderedMap<V>, current: OrderedMap<V>, i: nat, j: nat)
    requires prev.Valid() && current.Valid()
    ensures j < |DiffOf(prev, current).deleted| && i < j ==>
              exists p, q :: 0 <= p < q < |prev.keys| &&
                             DiffOf(prev, current).deleted[i] == prev.values[prev.keys[p]] &&
                             DiffOf(prev, current).deleted[j] == prev.values[prev.keys[q]]
    ensures j < |DiffOf(prev, current).remaining| && i < j ==>
              exists p, q :: 0 <= p < q < |prev.keys| &&
                             DiffOf(prev, current).remaining[i].prev == prev.values[prev.keys[p]] &&
                             DiffOf(prev, current).remaining[j].prev == prev.values[prev.keys[q]]
    ensures j < |DiffOf(prev, current).added| && i < j ==>
              exists p, q :: 0 <= p < q < |current.keys| &&
                             DiffOf(prev, current).added[i] == current.values[current.keys[p]] &&
                             DiffOf(prev, current).added[j] == current.values[current.keys[q]]
  {
    DiffEntriesByKey(prev, current);
    if j < |DiffOf(prev, current).deleted| && i < j {
      WithoutInOrder(prev.keys, current.values.Keys, i, j);
    }
    if j < |DiffOf(prev, current).remaining| && i < j {
      WithinInOrder(prev.keys, current.values.Keys, i, j);
    }
    if j < |DiffOf(prev, current).added| && i < j {
      WithoutInOrder(current.keys, prev.values.Keys, i, j);
    }
  }

  /** The sizes of the three parts add up to the sizes of the two maps. */
  lemma DiffSizes<V>(prev: OrderedMap<V>, current: OrderedMap<V>)
    requires prev.Valid() && current.Valid()
    ensures |DiffOf(prev, current).deleted| + |DiffOf(prev, current).remaining| == |prev.keys|
    ensures |DiffOf(prev, current).remaining| + |DiffOf(prev, current).added| == |current.keys|
  {
    var d := DiffOf(prev, current);
    assert |d.deleted| == |DeletedKeys(prev, current)| by {
      WithoutHas(prev.keys, current.values.Keys);
    }
    assert |d.remaining| == |RemainingKeys(prev, current)| by {
      WithinHas(prev.keys, current.values.Keys);
    }
    assert |d.added| == |AddedKeys(prev, current)| by {
      WithoutHas(current.keys, prev.values.Keys);
    }
    WithoutWithinSplit(prev.keys, current.values.Keys);
    WithoutWithinSplit(current.keys, prev.values.Keys);
    SharedKeysCount(prev, current);
  }

  /**
   * The state of `diffMaps` after it has walked the first `i` keys of the
   * previous map: what it has deleted, what it has paired, and which current
   * keys it has not matched yet.
   */
  ghost predicate Walked<V>(prev: OrderedMap<V>, current: OrderedMap<V>, i: nat,
                            deleted: seq<V>, remaining: seq<Pair<V>>, currentKeys: seq<string>)
    requires prev.Valid() && current.Valid() && i <= |prev.keys|
  {
    var done := prev.keys[..i];
    (forall k :: k in Without(done, current.values.Keys) ==> k in prev.values) &&
    (forall k :: k in Within(done, current.values.Keys) ==> k in prev.values && k in current.values) &&
    deleted == ValuesAt(prev.values, Without(done, current.values.Keys)) &&
    remaining == PairsAt(prev.values, current.values, Within(done, current.values.Keys)) &&
    currentKeys == Without(current.keys, KeySet(done))
  }

  /** Nothing is walked yet: nothing deleted or paired, every current key unmatched. */
  lemma WalkStart<V>(prev: OrderedMap<V>, current: OrderedMap<V>)
    requires prev.Valid() && current.Valid()
    ensures Walked(prev, current, 0, [], [], current.keys)
  {
    WithoutAbsent(current.keys, {});
  }

  /** One step of the walk: the next previous key is paired or deleted. */
  lemma WalkStep<V>(prev: OrderedMap<V>, current: OrderedMap<V>, i: nat,
                    deleted: seq<V>, remaining: seq<Pair<V>>, currentKeys: seq<string>)
    requires prev.Valid() && current.Valid() && i < |prev.keys|
    requires Walked(prev, current, i, deleted, remaining, currentKeys)
    ensures prev.keys[i] in prev.values
    ensures var name := prev.keys[i];
            if name in current.values then
              Walked(prev, current, i + 1, deleted, remaining + [Pair(prev.values[name], current.values[name])],
                     Without(currentKeys, {name}))
            else
              Walked(prev, current, i + 1, deleted + [prev.values[name]], remaining, currentKeys)
  {
    var name := prev.keys[i];
    var done := prev.keys[..i];
    assert prev.keys[..i + 1] == done + [name];
    assert prev.keys[..i + 1][..i] == done;
    assert KeySet(prev.keys[..i + 1]) == KeySet(done) + {name};
    WithoutHas(prev.keys[..i + 1], current.values.Keys);
    WithinHas(prev.keys[..i + 1], current.values.Keys);
    if name in current.values {
      WalkPaired(prev, current, done, name, remaining);
    } else {
      WalkDeleted(prev, current, done, name, deleted);
    }
  }

  lemma WalkPaired<V>(prev: OrderedMap<V>, current: OrderedMap<V>, done: seq<string>, name: string,
                      remaining: seq<Pair<V>>)
    requires prev.Valid() && current.Valid()
    requires name in prev.values && name in current.values
    requires forall k :: k in Within(done, current.values.Keys) ==> k in prev.values && k in current.values
    requires remaining == PairsAt(prev.values, current.values, Within(done, current.values.Keys))
    ensures Within(done + [name], current.values.Keys) == Within(done, current.values.Keys) + [name]
    ensures Without(done + [name], current.values.Keys) == Without(done, current.values.Keys)
    ensures remaining + [Pair(prev.values[name], current.values[name])] ==
            PairsAt(prev.values, current.values, Within(done + [name], current.values.Keys))
    ensures Without(Without(current.keys, KeySet(done)), {name}) == Without(current.keys, KeySet(done) + {name})
  {
    WithoutSnoc(done, name, current.values.Keys);
    WithinSnoc(done, name, current.values.Keys);
    PairsAtSnoc(prev.values, current.values, Within(done, current.values.Keys), name);
    WithoutTwice(current.keys, KeySet(done), {name});
  }

  lemma WalkDeleted<V>(prev: OrderedMap<V>, current: OrderedMap<V>, done: seq<string>, name: string,
                       deleted: seq<V>)
    requires prev.Valid() && current.Valid()
    requires name in prev.values && name !in current.values
    requires forall k :: k in Without(done, current.values.Keys) ==> k in prev.values
    requires deleted == ValuesAt(prev.values, Without(done, current.values.Keys))
    ensures Within(done + [name], current.values.Keys) == Within(done, current.values.Keys)
    ensures Without(done + [name], current.values.Keys) == Without(done, current.values.Keys) + [name]
    ensures deleted + [prev.values[name]] == ValuesAt(prev.values, Without(done + [name], current.values.Keys))
    ensures Without(current.keys, KeySet(done)) == Without(current.keys, KeySet(done) + {name})
  {
    WithoutSnoc(done, name, current.values.Keys);
    WithinSnoc(done, name, current.values.Keys);
    ValuesAtSnoc(prev.values, Without(done, current.values.Keys), name);
    WithoutTwice(current.keys, KeySet(done), {name});
    WithoutHas(current.keys, KeySet(done));
    WithoutAbsent(Without(current.keys, KeySet(done)), {name});
  }

  /** After the whole walk, deleted and remaining are final and the unmatched keys are the added ones. */
  lemma WalkEnd<V>(prev: OrderedMap<V>, current: OrderedMap<V>,
                   deleted: seq<V>, remaining: seq<Pair<V>>, currentKeys: seq<string>)
    requires prev.Valid() && current.Valid()
    requires Walked(prev, current, |prev.keys|, deleted, remaining, currentKeys)
    ensures deleted == DiffOf(prev, current).deleted
    ensures remaining == DiffOf(prev, current).remaining
    ensures currentKeys == AddedKeys(prev, current)
    ensures forall k :: k in currentKeys ==> k in current.values
  {
    assert prev.keys[..|prev.keys|] == prev.keys;
    KeySetHas(prev.keys);
    assert KeySet(prev.keys) == prev.values.Keys;
    WithoutHas(current.keys, prev.values.Keys);
  }

  /**
   * `diffMaps`: walks the previous map, pairing or deleting each entry and
   * striking matched keys from a working set of the current keys; what is
   * left of that set, in insertion order, is added.
   */
  method DiffMaps<V>(previousMap: OrderedMap<V>, currentMap: OrderedMap<V>) returns (d: Diff<V>)
    requires previousMap.Valid() && currentMap.Valid()
    ensures d == DiffOf(previousMap, currentMap)
    ensures |d.deleted| + |d.remaining| == |previousMap.keys|
    ensures |d.remaining| + |d.added| == |currentMap.keys|
  {
    var added: seq<V> := [];
    var deleted: seq<V> := [];
    var remaining: seq<Pair<V>> := [];
    var currentKeys := currentMap.keys;   // new Set(currentMap.keys())
    WalkStart(previousMap, currentMap);
    for i := 0 to |previousMap.keys|
      invariant Walked(previousMap, currentMap, i, deleted, remaining, currentKeys)
    {
      WalkStep(previousMap, currentMap, i, deleted, remaining, currentKeys);
      var name := previousMap.keys[i];
      var model := previousMap.values[name];
      if name in currentMap.values {
        remaining := remaining + [Pair(model, currentMap.values[name])];
        currentKeys := Without(currentKeys, {name});   // currentKeys.delete(name)
      } else {
        deleted := deleted + [model];
      }
    }
    WalkEnd(previousMap, currentMap, deleted, remaining, currentKeys);
    added := AddedValues(currentMap, currentKeys);
    d := Diff(added, deleted, remaining);
    DiffSizes(previousMap, currentMap);
  }

  /** The second loop of `diffMaps`: the current values of the keys left over, in order. */
  method AddedValues<V>(currentMap: OrderedMap<V>, currentKeys: seq<string>) returns (added: seq<V>)
    requires forall k :: k in currentKeys ==> k in currentMap.values
    ensures added == ValuesAt(currentMap.values, currentKeys)
    ensures |added| == |currentKeys|
  {
    added := [];
    for j := 0 to |currentKeys|
      invariant added == ValuesAt(currentMap.values, currentKeys[..j])
    {
      var name := currentKeys[j];
      PrefixSnoc(currentKeys, j);
      if name in currentMap.values {
        ValuesAtSnoc(currentMap.values, currentKeys[..j], name);
        added := added + [currentMap.values[name]];
      }
    }
    assert currentKeys[..|currentKeys|] == currentKeys;
  }

  /** Both maps list their shared keys the same number of times. */
  lemma SharedKeysCount<V>(prev: OrderedMap<V>, current: OrderedMap<V>)
    requires prev.Valid() && current.Valid()
    ensures |Within(prev.keys, current.values.Keys)| == |Within(current.keys, prev.values.Keys)|
  {
    var a := Within(prev.keys, current.values.Keys);
    var b := Within(current.keys, prev.values.Keys);
    DistinctCard(Within(prev.keys, current.values.Keys), prev.keys, current.values.Keys);
    DistinctCard(Within(current.keys, prev.values.Keys), current.keys, prev.values.Keys);
    WithinHas(prev.keys, current.values.Keys);
    WithinHas(current.keys, prev.values.Keys);
    assert (set k | k in a) == (set k | k in b);
  }

  /** A filter of a list without repeats has as many elements as its set of elements. */
  lemma {:induction false} DistinctCard(r: seq<string>, ks: seq<string>, keep: set<string>)
    requires r == Within(ks, keep)
    requires NoDuplicates(ks)
    ensures |r| == |set k | k in r|
    decreases |ks|
  {
    if |ks| > 0 {
      var init := ks[..|ks| - 1];
      var last := ks[|ks| - 1];
      DistinctCard(Within(init, keep), init, keep);
      WithinHas(init, keep);
      if last in keep {
        assert last !in Within(init, keep);
        assert (set k | k in r) == (set k | k in Within(init, keep)) + {last};
      } else {
        assert r == Within(init, keep);
      }
    }
  }

  /** `diffModelFields`: the diff of two versions of a model, keyed by field name. */
  method DiffModelFields(previousModel: Model, currentModel: Model) returns (d: Diff<Field>)
    ensures d == DiffOf(FieldIndex(previousModel.properties), FieldIndex(currentModel.properties))
  {
    var previousFields := FieldsFromModel(previousModel);
    var currentFields := FieldsFromModel(currentModel);
    d := DiffMaps(previousFields, currentFields);
  }
}
