/**
 * A JavaScript `Map` with string keys: lookup by key plus the insertion order
 * that `values()` and `forEach` follow. Re-setting an existing key keeps its
 * place; deleting removes it; `clear` empties it.
 */
module JsMaps {
  import opened Wrappers

  /** The keys of `ks` without `k`, in their original order. */
  function Without(ks: seq<string>, k: string): (r: seq<string>)
    ensures forall x :: x in r <==> x in ks && x != k
    ensures |r| <= |ks|
  {
    if ks == [] then []
    else if ks[0] == k then Without(ks[1..], k)
    else [ks[0]] + Without(ks[1..], k)
  }

  ghost predicate Distinct(ks: seq<string>) {
    forall i, j :: 0 <= i < j < |ks| ==> ks[i] != ks[j]
  }

  lemma {:induction false} WithoutDistinct(ks: seq<string>, k: string)
    requires Distinct(ks)
    ensures Distinct(Without(ks, k))
  {
    if ks != [] {
      WithoutDistinct(ks[1..], k);
      if ks[0] != k {
        var r := Without(ks[1..], k);
        assert ks[0] !in r by {
          assert forall j :: 1 <= j < |ks| ==> ks[0] != ks[j];
        }
      }
    }
  }

  /** Removing a key that is not there changes nothing. */
  lemma {:induction false} WithoutAbsent(ks: seq<string>, k: string)
    ensures k !in ks ==> Without(ks, k) == ks
  {
    if ks != [] {
      WithoutAbsent(ks[1..], k);
    }
  }

  datatype JsMap<V> = JsMap(keys: seq<string>, entries: map<string, V>) {

    /** Keys are unique and are exactly the keys that have entries. */
    ghost predicate Valid() {
      Distinct(keys) && forall k :: k in entries <==> k in keys
    }

    /** `m.get(k)`, with `undefined` as `None`. */
    function Get(k: string): (r: Option<V>)
      ensures r.Some? <==> k in entries
      ensures r.Some? ==> r.value == entries[k]
    {
      if k in entries then Some(entries[k]) else None
    }

    /** `m.set(k, v)`: a new key goes last, an existing key keeps its place. */
    function Set(k: string, v: V): (m: JsMap<V>)
      requires Valid()
      ensures m.Valid()
      ensures m.entries == entries[k := v]
      ensures k in entries ==> m.keys == keys
      ensures k !in entries ==> m.keys == keys + [k]
    {
      if k in entries then JsMap(keys, entries[k := v]) else JsMap(keys + [k], entries[k := v])
    }

    /** `m.delete(k)`: the other keys keep their order. */
    function Delete(k: string): (m: JsMap<V>)
      requires Valid()
      ensures m.Valid()
      ensures m.entries == entries - {k}
      ensures m.keys == Without(keys, k)
      ensures k !in entries ==> m == this
    {
      DeleteValid(this, k);
      WithoutAbsent(keys, k);
      JsMap(Without(keys, k), entries - {k})
    }

    /** `[...m.values()]`: the values in key insertion order. */
    function Values(): (vs: seq<V>)
      requires Valid()
      ensures |vs| == |keys|
      ensures forall i :: 0 <= i < |keys| ==> vs[i] == entries[keys[i]]
    {
      seq(|keys|, i requires 0 <= i < |keys| && keys[i] in entries => entries[keys[i]])
    }
  }

  /** Deleting a key keeps the keys distinct and in step with the entries. */
  lemma DeleteValid<V>(m: JsMap<V>, k: string)
    requires m.Valid()
    ensures JsMap(Without(m.keys, k), m.entries - {k}).Valid()
  {
    WithoutDistinct(m.keys, k);
    var r := Without(m.keys, k);
    forall x
      ensures x in m.entries - {k} <==> x in r
    {
    }
  }

  /** `new Map()` and `m.clear()`. */
  function Empty<V>(): (m: JsMap<V>)
    ensures m.Valid() && m.entries == map[] && m.keys == []
  {
    JsMap([], map[])
  }
}
