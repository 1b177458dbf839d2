/** A JavaScript `Map` as an association list: keys are unique and iterate in
    insertion order; setting an existing key replaces its value in place. */
module OrderedMaps {
  import opened Wrappers
  import opened Seqs

  type OMap<K, V> = seq<(K, V)>

  function Keys<K, V>(m: OMap<K, V>): (ks: seq<K>)
    ensures |ks| == |m| && forall i :: 0 <= i < |m| ==> ks[i] == m[i].0
  {
    if |m| == 0 then [] else [m[0].0] + Keys(m[1..])
  }

  predicate HasKey<K(==), V>(m: OMap<K, V>, k: K) {
    exists i :: 0 <= i < |m| && m[i].0 == k
  }

  lemma HasKeyUnfold<K, V>(m: OMap<K, V>, k: K)
    requires |m| > 0
    ensures HasKey(m, k) <==> m[0].0 == k || HasKey(m[1..], k)
  {
    if HasKey(m, k) && m[0].0 != k {
      var i :| 0 <= i < |m| && m[i].0 == k;
      assert m[1..][i - 1] == m[i];
    }
    if HasKey(m[1..], k) {
      var i :| 0 <= i < |m| - 1 && m[1..][i].0 == k;
      assert m[i + 1] == m[1..][i];
    }
  }

  /** `map.get(k)`. */
  function Get<K(==), V>(m: OMap<K, V>, k: K): (r: Option<V>)
    ensures r.Some? <==> HasKey(m, k)
    ensures r.Some? ==> (k, r.value) in m
  {
    if |m| == 0 then None
    else if m[0].0 == k then Some(m[0].1)
    else
      HasKeyUnfold(m, k);
      Get(m[1..], k)
  }

  /** `map.set(k, v)`. */
  function Put<K(==), V>(m: OMap<K, V>, k: K, v: V): (r: OMap<K, V>)
    ensures Keys(r) == if HasKey(m, k) then Keys(m) else Keys(m) + [k]
  {
    if |m| == 0 then [(k, v)]
    else if m[0].0 == k then [(k, v)] + m[1..]
    else
      var rest := Put(m[1..], k, v);
      HasKeyUnfold(m, k);
      assert ([m[0]] + rest)[1..] == rest;
      [m[0]] + rest
  }

  /** After `Put(m, k, v)` the key `k` maps to `v` and every other key keeps
      its value. */
  lemma {:induction false} PutGet<K, V>(m: OMap<K, V>, k: K, v: V, k': K)
    ensures Get(Put(m, k, v), k') == if k' == k then Some(v) else Get(m, k')
  {
    if |m| > 0 && m[0].0 != k {
      PutGet(m[1..], k, v, k');
      assert Put(m, k, v)[1..] == Put(m[1..], k, v);
    }
  }

  /** `Put` keeps the keys unique. */
  lemma PutKeepsKeysUnique<K, V>(m: OMap<K, V>, k: K, v: V)
    requires NoDup(Keys(m))
    ensures NoDup(Keys(Put(m, k, v)))
  {
    if !HasKey(m, k) {
      assert forall i :: 0 <= i < |m| ==> Keys(m)[i] != k;
    }
  }

  lemma KeysMembership<K, V>(m: OMap<K, V>, k: K)
    ensures k in Keys(m) <==> HasKey(m, k)
  {
    if k in Keys(m) {
      var i :| 0 <= i < |m| && Keys(m)[i] == k;
    }
    if HasKey(m, k) {
      var i :| 0 <= i < |m| && m[i].0 == k;
      assert Keys(m)[i] == k;
    }
  }
}
