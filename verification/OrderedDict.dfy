/** Python dictionaries: a map that remembers the order in which its keys were inserted. */
module OrderedDict {

  ghost predicate Distinct<K>(keys: seq<K>) {
    forall i, j | 0 <= i < j < |keys| :: keys[i] != keys[j]
  }

  datatype RawDict<K, V> = RawDict(keys: seq<K>, at: map<K, V>) {
    ghost predicate Valid() {
      && Distinct(keys)
      && (forall k | k in keys :: k in at)
      && (forall k | k in at :: k in keys)
    }
  }

  type Dict<K, V> = d: RawDict<K, V> | d.Valid() witness RawDict([], map[])

  function Empty<K, V>(): Dict<K, V> {
    RawDict([], map[])
  }

  /** Assignment: an existing key keeps its place, a new one goes last. */
  function Set<K(==), V>(d: Dict<K, V>, k: K, v: V): (r: Dict<K, V>)
    ensures r.at == d.at[k := v]
    ensures |r.keys| == |d.keys| + (if k in d.at then 0 else 1)
  {
    RawDict(if k in d.at then d.keys else d.keys + [k], d.at[k := v])
  }

  function Without<K(==)>(keys: seq<K>, k: K): (r: seq<K>)
    ensures forall x :: x in r ==> x in keys
    ensures k !in keys ==> r == keys
  {
    if keys == [] then [] else
    if keys[0] == k then keys[1..] else [keys[0]] + Without(keys[1..], k)
  }

  lemma DistinctTail<K>(keys: seq<K>)
    requires Distinct(keys) && keys != []
    ensures Distinct(keys[1..]) && keys[0] !in keys[1..] && keys == [keys[0]] + keys[1..]
  {}

  lemma DistinctAfter<K>(k: K, keys: seq<K>)
    requires Distinct(keys) && k !in keys
    ensures Distinct([k] + keys)
  {}

  lemma {:induction false} WithoutDropsOne<K>(keys: seq<K>, k: K)
    requires Distinct(keys)
    ensures var r := Without(keys, k);
            && Distinct(r)
            && (forall x :: x in r <==> x in keys && x != k)
            && |r| == |keys| - (if k in keys then 1 else 0)
  {
    if keys != [] {
      var rest := keys[1..];
      DistinctTail(keys);
      WithoutDropsOne(rest, k);
      assert forall x :: x in keys <==> x == keys[0] || x in rest;
      if keys[0] != k { DistinctAfter(keys[0], Without(rest, k)); }
    }
  }

  /** d.pop(k, None), without the returned value. */
  function Pop<K(==), V>(d: Dict<K, V>, k: K): (r: Dict<K, V>)
    ensures r.at == d.at - {k}
    ensures |r.keys| == |d.keys| - (if k in d.at then 1 else 0)
  {
    WithoutDropsOne(d.keys, k);
    RawDict(Without(d.keys, k), d.at - {k})
  }

  function Get<K(==), V>(m: map<K, V>, k: K, default: V): V {
    if k in m then m[k] else default
  }

  lemma {:induction false} KeysOfDict<K, V>(d: Dict<K, V>)
    ensures |d.keys| == |d.at|
    ensures d.at.Keys == set k | k in d.keys
  {
    assert d.at.Keys == set k | k in d.keys;
    DistinctCount(d.keys);
  }

  lemma {:induction false} DistinctCount<K>(keys: seq<K>)
    requires Distinct(keys)
    ensures |set k | k in keys| == |keys|
  {
    if keys != [] {
      DistinctCount(keys[1..]);
      assert (set k | k in keys) == {keys[0]} + set k | k in keys[1..];
    }
  }
}
