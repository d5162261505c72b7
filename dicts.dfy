/**
  Python's `dict` as the tool uses it: a finite map that remembers the order
  in which keys were first inserted. Assigning to an existing key replaces
  its value and keeps its place; a new key goes to the end. Iteration
  (`.items()`, `.values()`) follows that order.
 */
module Dicts {

  datatype Dict<K, V> = Dict(order: seq<K>, entries: map<K, V>)

  ghost predicate Distinct<K>(s: seq<K>) {
    forall i, j :: 0 <= i < j < |s| ==> s[i] != s[j]
  }

  /** The key order lists every key of the map exactly once. */
  ghost predicate Valid<K, V>(d: Dict<K, V>) {
    && Distinct(d.order)
    && d.entries.Keys == (set k | k in d.order)
  }

  function Empty<K, V>(): (d: Dict<K, V>)
    ensures Valid(d) && d.entries == map[] && d.order == []
  {
    Dict([], map[])
  }

  /** `d[k] = v`. */
  function Insert<K, V>(d: Dict<K, V>, k: K, v: V): (r: Dict<K, V>)
    ensures Valid(d) ==> Valid(r)
    ensures r.entries.Keys == d.entries.Keys + {k}
    ensures k in r.entries && r.entries[k] == v
    ensures forall k' :: k' in d.entries && k' != k ==> r.entries[k'] == d.entries[k']
    ensures k in d.entries ==> r.order == d.order
    ensures k !in d.entries ==> r.order == d.order + [k]
  {
    if k in d.entries then Dict(d.order, d.entries[k := v])
    else Dict(d.order + [k], d.entries[k := v])
  }

  /** The values in iteration order. */
  function Values<K, V>(d: Dict<K, V>): (vs: seq<V>)
    requires Valid(d)
    ensures |vs| == |d.order|
    ensures forall i :: 0 <= i < |vs| ==> vs[i] == d.entries[d.order[i]]
  {
    seq(|d.order|, i requires 0 <= i < |d.order| => d.entries[d.order[i]])
  }

  /**
    How `d[k] = v` changes `.values()`: a new key appends `v`; an existing
    key has `v` replace its old value in that key's place.
   */
  lemma ValuesInsert<K, V>(d: Dict<K, V>, k: K, v: V)
    requires Valid(d)
    ensures k !in d.entries ==> Values(Insert(d, k, v)) == Values(d) + [v]
    ensures k in d.entries ==>
              exists i :: 0 <= i < |d.order| && d.order[i] == k && Values(Insert(d, k, v)) == Values(d)[i := v]
  {
    var r := Insert(d, k, v);
    if k in d.entries {
      assert k in d.order;
      var i :| 0 <= i < |d.order| && d.order[i] == k;
      forall j | 0 <= j < |d.order| ensures Values(r)[j] == Values(d)[i := v][j] {
        if j != i {
          assert d.order[j] != k;
        }
      }
    } else {
      forall j | 0 <= j < |d.order| ensures Values(r)[j] == (Values(d) + [v])[j] {
        assert d.order[j] in d.entries;
      }
    }
  }

  /** The length of a dict is the number of keys in its order. */
  lemma {:induction false} SizeIsOrderLength<K, V>(d: Dict<K, V>)
    requires Valid(d)
    ensures |d.entries| == |d.order|
    decreases |d.order|
  {
    if d.order == [] {
      assert d.entries.Keys == {};
    } else {
      var last := d.order[|d.order| - 1];
      var rest := Dict(d.order[..|d.order| - 1], d.entries - {last});
      assert forall k :: k in rest.order <==> k in d.order && k != last by {
        forall k ensures k in rest.order <==> k in d.order && k != last {
          if k in d.order && k != last {
            var i :| 0 <= i < |d.order| && d.order[i] == k;
            assert i < |d.order| - 1;
            assert rest.order[i] == k;
          }
        }
      }
      SizeIsOrderLength(rest);
      assert d.entries.Keys == rest.entries.Keys + {last};
    }
  }

  /** Inserting the same key twice with the same value is the same as inserting it once. */
  lemma InsertIdempotent<K, V>(d: Dict<K, V>, k: K, v: V)
    requires Valid(d)
    ensures Insert(Insert(d, k, v), k, v) == Insert(d, k, v)
  {
  }

  /** An insertion adds at most one key and removes none. */
  lemma InsertGrowsByAtMostOne<K, V>(d: Dict<K, V>, k: K, v: V)
    requires Valid(d)
    ensures d.entries.Keys <= Insert(d, k, v).entries.Keys
    ensures |d.entries| <= |Insert(d, k, v).entries| <= |d.entries| + 1
  {
    var r := Insert(d, k, v);
    SizeIsOrderLength(d);
    SizeIsOrderLength(r);
  }
}
