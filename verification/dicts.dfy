/**
 * Python dictionaries (keyed by file name) whose iteration order matters to the code that loops
 * over them. A key sequence in insertion order sits beside the map;
 * assigning to a present key keeps its place.
 */
module Dicts {
  import opened Wrappers
  import opened Sorting

  datatype Dict<V> = Dict(keys: seq<string>, items: map<string, V>)
  {
    ghost predicate Valid()
    {
      NoDuplicates(keys) && (forall k :: k in items <==> k in keys)
    }
  }

  function Empty<V>(): (d: Dict<V>)
    ensures d.Valid() && d.keys == [] && d.items == map[]
  {
    Dict([], map[])
  }

  /** d[k] = v */
  function Assign<V>(d: Dict<V>, k: string, v: V): (r: Dict<V>)
    requires d.Valid()
    ensures r.Valid()
    ensures r.items == d.items[k := v]
    ensures k in d.items ==> r.keys == d.keys
    ensures k !in d.items ==> r.keys == d.keys + [k]
  {
    if k in d.items then Dict(d.keys, d.items[k := v]) else Dict(d.keys + [k], d.items[k := v])
  }

  /** The sequence without the (at most one) occurrence of k. */
  function Without(s: seq<string>, k: string): (r: seq<string>)
    ensures forall x :: x in r <==> x in s && x != k
    ensures NoDuplicates(s) ==> NoDuplicates(r)
    ensures |r| <= |s|
  {
    if s == [] then []
    else if s[0] == k then Without(s[1..], k)
    else
      var t := Without(s[1..], k);
      assert NoDuplicates(s) ==> s[0] !in s[1..];
      [s[0]] + t
  }

  /** del d[k], which raises KeyError when k is absent (the removed value is returned, as dict.pop does). */
  function Pop<V>(d: Dict<V>, k: string): (r: Result<(V, Dict<V>)>)
    requires d.Valid()
    ensures r.Ok? <==> k in d.items
    ensures r.Ok? ==> r.value.0 == d.items[k] && r.value.1.Valid()
    ensures r.Ok? ==> r.value.1.items == d.items - {k} && r.value.1.keys == Without(d.keys, k)
  {
    if k in d.items then Ok((d.items[k], Dict(Without(d.keys, k), d.items - {k}))) else Err(KeyError)
  }

  /** {k: v for k in ks}: every key once, in order of first appearance. */
  function FromKeys<V>(ks: seq<string>, v: V): (d: Dict<V>)
    ensures d.Valid()
    ensures forall k :: k in d.items <==> k in ks
    ensures forall k :: k in d.items ==> d.items[k] == v
    ensures NoDuplicates(ks) ==> d.keys == ks
  {
    if ks == [] then Empty()
    else
      var p := FromKeys(ks[..|ks| - 1], v);
      assert ks == ks[..|ks| - 1] + [ks[|ks| - 1]];
      Assign(p, ks[|ks| - 1], v)
  }
}
