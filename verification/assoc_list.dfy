/**
 * An insertion-ordered dictionary, as Python's `dict` and a parsed JSON
 * object behave: a sequence of (key, value) pairs. Lookups take the first
 * pair with the key; assignment replaces that pair in place or, for a new
 * key, appends one at the end.
 */
module AssocList {
  import opened Optional

  /** `list(d.keys())`: the keys in stored order. */
  function Keys<K, V>(xs: seq<(K, V)>): (ks: seq<K>)
    ensures |ks| == |xs|
    ensures forall i :: 0 <= i < |xs| ==> ks[i] == xs[i].0
  {
    if xs == [] then [] else [xs[0].0] + Keys(xs[1..])
  }

  predicate Distinct<T(==)>(s: seq<T>) {
    forall i, j :: 0 <= i < j < |s| ==> s[i] != s[j]
  }

  /** `d.get(k)`, with None for a missing key. */
  function Lookup<K(==), V>(xs: seq<(K, V)>, k: K): Option<V> {
    if xs == [] then None
    else if xs[0].0 == k then Some(xs[0].1)
    else Lookup(xs[1..], k)
  }

  /** A key is found exactly when it is stored, with a value stored under it. */
  lemma {:induction false} LookupFindsStoredKeys<K(!new), V>(xs: seq<(K, V)>, k: K)
    ensures Lookup(xs, k).Some? <==> k in Keys(xs)
    ensures Lookup(xs, k).Some? ==> (k, Lookup(xs, k).value) in xs
  {
    if xs != [] {
      assert Keys(xs) == [xs[0].0] + Keys(xs[1..]);
      LookupFindsStoredKeys(xs[1..], k);
    }
  }

  /**
   * `d[k] = v`. The new value is found under `k`, every other key keeps
   * its value, and the key order is unchanged except that a new key goes
   * last.
   */
  function Put<K(==,!new), V>(xs: seq<(K, V)>, k: K, v: V): (r: seq<(K, V)>)
    ensures Lookup(r, k) == Some(v)
    ensures forall k' :: k' != k ==> Lookup(r, k') == Lookup(xs, k')
    ensures Keys(r) == if k in Keys(xs) then Keys(xs) else Keys(xs) + [k]
    ensures forall p :: p in r ==> p == (k, v) || p in xs
  {
    if xs == [] then [(k, v)]
    else if xs[0].0 == k then
      var r := [(k, v)] + xs[1..];
      assert r[1..] == xs[1..];
      assert Keys(xs) == [k] + Keys(xs[1..]);
      assert Keys(r) == [k] + Keys(xs[1..]);
      r
    else
      var rest := Put(xs[1..], k, v);
      var r := [xs[0]] + rest;
      assert r[1..] == rest;
      assert Keys(xs) == [xs[0].0] + Keys(xs[1..]);
      assert Keys(r) == [xs[0].0] + Keys(rest);
      r
  }

  /** Assignment keeps the keys of a dictionary distinct. */
  lemma PutKeepsKeysDistinct<K(!new), V>(xs: seq<(K, V)>, k: K, v: V)
    requires Distinct(Keys(xs))
    ensures Distinct(Keys(Put(xs, k, v)))
  {
  }
}
