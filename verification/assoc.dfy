/**
 * JavaScript objects used as dictionaries, modelled as association lists in the order
 * their keys were first assigned: the shape of a cleaned sheet row and of the balance and
 * total tables built from the rows.
 */
module Assoc {
  import opened Wrappers

  /** `obj[k]`: the value stored under `k`, if any. */
  function Get<V>(r: seq<(string, V)>, k: string): (v: Option<V>)
    ensures v.Some? ==> (k, v.value) in r
    ensures v.None? ==> forall i :: 0 <= i < |r| ==> r[i].0 != k
  {
    if r == [] then None
    else if r[0].0 == k then Some(r[0].1)
    else Get(r[1..], k)
  }

  /** `Object.keys(obj)`. */
  function Keys<V>(r: seq<(string, V)>): (ks: seq<string>)
    ensures |ks| == |r|
    ensures forall i :: 0 <= i < |r| ==> ks[i] == r[i].0
  {
    if r == [] then [] else [r[0].0] + Keys(r[1..])
  }

  /** A key is listed exactly when it has a value. */
  lemma {:induction false} KeysGet<V>(r: seq<(string, V)>, k: string)
    ensures k in Keys(r) <==> Get(r, k).Some?
  {
    if r != [] && r[0].0 != k {
      KeysGet(r[1..], k);
    }
  }

  predicate UniqueKeys<V>(r: seq<(string, V)>) {
    forall i, j :: 0 <= i < j < |r| ==> r[i].0 != r[j].0
  }

  /** `obj[k] = v`: overwrites the value in place when `k` is present, appends otherwise. */
  function Put<V>(r: seq<(string, V)>, k: string, v: V): (r': seq<(string, V)>)
    ensures |r'| >= 1
  {
    if r == [] then [(k, v)]
    else if r[0].0 == k then [(k, v)] + r[1..]
    else [r[0]] + Put(r[1..], k, v)
  }

  /** After `obj[k] = v`, reading `k` gives `v` and every other key reads as before. */
  lemma {:induction false} PutGet<V>(r: seq<(string, V)>, k: string, v: V, k': string)
    ensures Get(Put(r, k, v), k') == if k' == k then Some(v) else Get(r, k')
  {
    if r != [] && r[0].0 != k {
      PutGet(r[1..], k, v, k');
    }
  }

  /** Assigning a new key appends it; assigning a present key keeps every position's key. */
  lemma {:induction false} PutShape<V>(r: seq<(string, V)>, k: string, v: V)
    ensures Get(r, k).None? ==> Put(r, k, v) == r + [(k, v)]
    ensures Get(r, k).Some? ==>
      |Put(r, k, v)| == |r| && forall i :: 0 <= i < |r| ==> Put(r, k, v)[i].0 == r[i].0
  {
    if r != [] && r[0].0 != k {
      PutShape(r[1..], k, v);
      assert r == [r[0]] + r[1..];
    }
  }

  /** The entries of `Put(r, k, v)`: `(k, v)`, and entries of `r`. */
  lemma {:induction false} PutCells<V>(r: seq<(string, V)>, k: string, v: V)
    ensures forall i :: 0 <= i < |Put(r, k, v)| ==>
      Put(r, k, v)[i] == (k, v) || Put(r, k, v)[i] in r
  {
    if r != [] && r[0].0 != k {
      PutCells(r[1..], k, v);
    }
  }

  /** With unique keys, every entry is what its key reads back. */
  lemma {:induction false} GetUnique<V>(r: seq<(string, V)>, i: int)
    requires UniqueKeys(r) && 0 <= i < |r|
    ensures Get(r, r[i].0) == Some(r[i].1)
  {
    if i > 0 {
      assert UniqueKeys(r[1..]) by {
        assert forall a, b :: 0 <= a < b < |r[1..]| ==> r[1..][a] == r[a + 1] && r[1..][b] == r[b + 1];
      }
      assert r[1..][i - 1] == r[i];
      GetUnique(r[1..], i - 1);
    }
  }

  lemma PutUnique<V>(r: seq<(string, V)>, k: string, v: V)
    requires UniqueKeys(r)
    ensures UniqueKeys(Put(r, k, v))
  {
    PutShape(r, k, v);
  }
}
