/**
  A Python `dict` as the modelled code uses it: an insertion-ordered list of
  key/value pairs with distinct keys. Iteration (`.items()`) follows the list;
  assigning to an existing key keeps its position, a new key goes last.
 */
module OrderedDict {
  import opened Wrappers

  type Dict<K, V> = seq<(K, V)>

  /** `list(d.keys())` */
  function Keys<K, V>(d: Dict<K, V>): seq<K> {
    seq(|d|, i requires 0 <= i < |d| => d[i].0)
  }

  /** What every Python dict satisfies: no key occurs twice. */
  ghost predicate DistinctKeys<K, V>(d: Dict<K, V>) {
    forall i, j :: 0 <= i < j < |d| ==> d[i].0 != d[j].0
  }

  /** `d.get(k)`: the value stored under `k`, or `None` when `k` is absent. */
  function Lookup<K(==), V>(d: Dict<K, V>, k: K): (r: Option<V>)
    ensures r.None? <==> k !in Keys(d)
    ensures r.Some? ==> exists i :: 0 <= i < |d| && d[i] == (k, r.value)
  {
    if d == [] then None
    else if d[0].0 == k then
      assert Keys(d)[0] == k;
      Some(d[0].1)
    else
      assert Keys(d) == [d[0].0] + Keys(d[1..]);
      var r := Lookup(d[1..], k);
      assert r.Some? ==> exists i :: 0 <= i < |d[1..]| && d[1..][i] == (k, r.value);
      r
  }

  /** `d[k] = v` */
  function Assign<K(==), V>(d: Dict<K, V>, k: K, v: V): (r: Dict<K, V>)
    ensures Keys(r) == if k in Keys(d) then Keys(d) else Keys(d) + [k]
  {
    if d == [] then [(k, v)]
    else if d[0].0 == k then
      assert Keys(d)[0] == k;
      [(k, v)] + d[1..]
    else
      assert Keys(d) == [d[0].0] + Keys(d[1..]);
      var r := [d[0]] + Assign(d[1..], k, v);
      assert Keys(r) == [d[0].0] + Keys(Assign(d[1..], k, v));
      r
  }

  /** After `d[k] = v`, `k` holds `v` and every other key what it held. */
  lemma {:induction false} AssignLookup<K, V>(d: Dict<K, V>, k: K, v: V, k': K)
    ensures Lookup(Assign(d, k, v), k') == if k' == k then Some(v) else Lookup(d, k')
  {
    if d != [] && d[0].0 != k {
      AssignLookup(d[1..], k, v, k');
    }
  }

  /** Assignment keeps a dict a dict. */
  lemma {:induction false} AssignDistinct<K, V>(d: Dict<K, V>, k: K, v: V)
    requires DistinctKeys(d)
    ensures DistinctKeys(Assign(d, k, v))
  {
    var r := Assign(d, k, v);
    var ks := Keys(r);
    assert ks == if k in Keys(d) then Keys(d) else Keys(d) + [k];
    forall i, j | 0 <= i < j < |r| ensures r[i].0 != r[j].0 {
      assert ks[i] == r[i].0 && ks[j] == r[j].0;
      if k in Keys(d) {
        assert ks[i] == d[i].0 && ks[j] == d[j].0;
      } else if j == |d| {
        assert ks[i] == Keys(d)[i];
      } else {
        assert ks[i] == d[i].0 && ks[j] == d[j].0;
      }
    }
  }

  /** Assigning a fresh key appends the pair. */
  lemma {:induction false} AssignFreshAppends<K, V>(d: Dict<K, V>, k: K, v: V)
    requires k !in Keys(d)
    ensures Assign(d, k, v) == d + [(k, v)]
  {
    if d != [] {
      assert Keys(d) == [d[0].0] + Keys(d[1..]);
      AssignFreshAppends(d[1..], k, v);
      assert d == [d[0]] + d[1..];
    }
  }

}
