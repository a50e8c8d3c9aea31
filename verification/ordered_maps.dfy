/** Python's insertion-ordered `dict`, as a sequence of (key, value) pairs.
    `d[k] = v` replaces the value of an existing key where it stands and
    appends a new key at the end; `Assign` is the dict a run of such
    statements builds from `{}`. */
module OrderedMaps {
  import opened Results

  /** `d.get(k)`: the value stored under `k`, if any. */
  function Get<K(==), V>(d: seq<(K, V)>, k: K): (r: Option<V>)
    ensures r.None? <==> forall i :: 0 <= i < |d| ==> d[i].0 != k
    ensures r.Some? ==> (k, r.value) in d
    decreases |d|
  {
    if |d| == 0 then None
    else if d[0].0 == k then Some(d[0].1)
    else
      var r := Get(d[1..], k);
      assert forall p :: p in d[1..] ==> p in d;
      r
  }

  /** The keys, in insertion order. */
  function Keys<K, V>(d: seq<(K, V)>): (ks: seq<K>)
    ensures |ks| == |d|
    ensures forall i :: 0 <= i < |d| ==> ks[i] == d[i].0
    decreases |d|
  {
    if |d| == 0 then [] else [d[0].0] + Keys(d[1..])
  }

  /** The keys of a concatenation are the concatenated keys. */
  lemma KeysAppend<K, V>(x: seq<(K, V)>, y: seq<(K, V)>)
    ensures Keys(x + y) == Keys(x) + Keys(y)
  {
  }

  /** No key occurs twice: what every Python dict satisfies. */
  predicate DistinctKeys<K(==), V>(d: seq<(K, V)>) {
    forall i, j :: 0 <= i < j < |d| ==> d[i].0 != d[j].0
  }

  /** `d[k] = v`. */
  function Put<K(==,!new), V>(d: seq<(K, V)>, k: K, v: V): (r: seq<(K, V)>)
    ensures Get(r, k) == Some(v)
    ensures Get(d, k).None? ==> r == d + [(k, v)]
    decreases |d|
  {
    if |d| == 0 then [(k, v)]
    else if d[0].0 == k then [(k, v)] + d[1..]
    else
      var rest := Put(d[1..], k, v);
      var r := [d[0]] + rest;
      assert r[1..] == rest;
      assert Get(d, k) == Get(d[1..], k);
      assert d == [d[0]] + d[1..];
      r
  }

  /** Assigning to `k` leaves every other key's value as it was. */
  lemma {:induction false} PutOther<K(!new), V>(d: seq<(K, V)>, k: K, v: V, k': K)
    requires k' != k
    ensures Get(Put(d, k, v), k') == Get(d, k')
    decreases |d|
  {
    var r := Put(d, k, v);
    if |d| > 0 {
      if d[0].0 == k {
        assert r[1..] == d[1..];
      } else {
        PutOther(d[1..], k, v, k');
        assert r[1..] == Put(d[1..], k, v);
      }
    }
  }

  /** Assigning to a present key leaves the keys and their order as they
      were (a new key goes last, by the contract of `Put`). */
  lemma {:induction false} PutPresentKeys<K(!new), V>(d: seq<(K, V)>, k: K, v: V)
    requires Get(d, k).Some?
    ensures Keys(Put(d, k, v)) == Keys(d)
    decreases |d|
  {
    var r := Put(d, k, v);
    if d[0].0 == k {
      assert r[1..] == d[1..];
    } else {
      var rest := Put(d[1..], k, v);
      PutPresentKeys(d[1..], k, v);
      assert r[1..] == rest;
    }
  }

  lemma PutKeys<K(!new), V>(d: seq<(K, V)>, k: K, v: V)
    ensures Keys(Put(d, k, v)) == if Get(d, k).Some? then Keys(d) else Keys(d) + [k]
  {
    if Get(d, k).Some? {
      PutPresentKeys(d, k, v);
    } else {
      KeysAppend(d, [(k, v)]);
    }
  }

  /** Assigning stores only pairs already present or the assigned one. */
  lemma {:induction false} PutPairs<K(!new), V>(d: seq<(K, V)>, k: K, v: V)
    ensures forall p :: p in Put(d, k, v) ==> p in d || p == (k, v)
    decreases |d|
  {
    if |d| > 0 {
      assert forall p :: p in d[1..] ==> p in d;
      if d[0].0 != k {
        PutPairs(d[1..], k, v);
        assert Put(d, k, v) == [d[0]] + Put(d[1..], k, v);
      }
    }
  }

  /** Assigning never makes a key occur twice. */
  lemma {:induction false} PutDistinct<K(!new), V>(d: seq<(K, V)>, k: K, v: V)
    requires DistinctKeys(d)
    ensures DistinctKeys(Put(d, k, v))
  {
    var r := Put(d, k, v);
    PutKeys(d, k, v);
    var ks := Keys(r);
    if Get(d, k).None? {
      assert forall i :: 0 <= i < |d| ==> ks[i] == d[i].0 != k;
    }
    assert forall i, j :: 0 <= i < j < |r| ==> r[i].0 == ks[i] && r[j].0 == ks[j];
  }

  /** The dict built by the assignments `d[es[0].0] = es[0].1`, ... in order. */
  function Assign<K(==,!new), V>(es: seq<(K, V)>): seq<(K, V)>
    decreases |es|
  {
    if |es| == 0 then [] else Put(Assign(es[..|es| - 1]), es[|es| - 1].0, es[|es| - 1].1)
  }

  /** Reference semantics: the value of the last assignment to `k`. */
  function LastValue<K(==), V>(es: seq<(K, V)>, k: K): Option<V>
    decreases |es|
  {
    if |es| == 0 then None
    else if es[|es| - 1].0 == k then Some(es[|es| - 1].1)
    else LastValue(es[..|es| - 1], k)
  }

  /** Looking up a key in the built dict yields its last assigned value. */
  lemma {:induction false} AssignGet<K(!new), V>(es: seq<(K, V)>, k: K)
    ensures Get(Assign(es), k) == LastValue(es, k)
    decreases |es|
  {
    if |es| > 0 {
      AssignGet(es[..|es| - 1], k);
      if es[|es| - 1].0 != k {
        PutOther(Assign(es[..|es| - 1]), es[|es| - 1].0, es[|es| - 1].1, k);
      }
    }
  }

  /** The built dict never holds a key twice, and holds only assigned pairs. */
  lemma {:induction false} AssignWellFormed<K(!new), V>(es: seq<(K, V)>)
    ensures DistinctKeys(Assign(es))
    ensures forall p :: p in Assign(es) ==> p in es
    decreases |es|
  {
    if |es| > 0 {
      var init := es[..|es| - 1];
      AssignWellFormed(init);
      PutPairs(Assign(init), es[|es| - 1].0, es[|es| - 1].1);
      PutDistinct(Assign(init), es[|es| - 1].0, es[|es| - 1].1);
      assert forall p :: p in init ==> p in es;
    }
  }

  /** When no key is assigned twice, nothing is overwritten: the dict is
      exactly the sequence of assignments, in the same order. */
  lemma {:induction false} AssignDistinct<K(!new), V>(es: seq<(K, V)>)
    requires DistinctKeys(es)
    ensures Assign(es) == es
    decreases |es|
  {
    if |es| > 0 {
      var init := es[..|es| - 1];
      assert DistinctKeys(init);
      AssignDistinct(init);
      assert Get(init, es[|es| - 1].0).None?;
      assert init + [es[|es| - 1]] == es;
    }
  }

  /** The keys of the built dict, and their order, depend only on the keys
      assigned and not on the values. */
  lemma {:induction false} AssignKeysIgnoreValues<K(!new), V>(es1: seq<(K, V)>, es2: seq<(K, V)>)
    requires Keys(es1) == Keys(es2)
    ensures Keys(Assign(es1)) == Keys(Assign(es2))
    decreases |es1|
  {
    assert |es1| == |Keys(es1)| == |es2|;
    if |es1| > 0 {
      var n := |es1| - 1;
      assert Keys(es1[..n]) == Keys(es1)[..n] == Keys(es2)[..n] == Keys(es2[..n]);
      AssignKeysIgnoreValues(es1[..n], es2[..n]);
      var d1, d2 := Assign(es1[..n]), Assign(es2[..n]);
      assert Keys(es1)[n] == es1[n].0 && Keys(es2)[n] == es2[n].0;
      var k := es1[n].0;
      assert |d1| == |Keys(d1)| == |d2|;
      assert Get(d1, k).None? <==> Get(d2, k).None? by {
        assert forall i :: 0 <= i < |d1| ==> d1[i].0 == Keys(d1)[i] == Keys(d2)[i] == d2[i].0;
      }
      PutKeys(d1, k, es1[n].1);
      PutKeys(d2, k, es2[n].1);
    }
  }
}
