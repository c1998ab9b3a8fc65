/**
 * An insertion-ordered association list: the shape of a PHP array with
 * string keys. Assigning to a key that is present replaces its value in
 * place; assigning to a new key appends it at the end.
 */
module OrderedMap {
  import opened Wrappers

  /** No key occurs twice. */
  ghost predicate UniqueKeys<K, V>(m: seq<(K, V)>) {
    forall i, j :: 0 <= i < j < |m| ==> m[i].0 != m[j].0
  }

  ghost function Keys<K, V>(m: seq<(K, V)>): set<K> {
    set i | 0 <= i < |m| :: m[i].0
  }

  /** Position of the first entry with key `k`, or -1. */
  function IndexOf<K(==), V>(m: seq<(K, V)>, k: K): (r: int)
    ensures -1 <= r < |m|
    ensures r == -1 <==> forall i :: 0 <= i < |m| ==> m[i].0 != k
    ensures 0 <= r ==> m[r].0 == k && forall i :: 0 <= i < r ==> m[i].0 != k
  {
    if m == [] then -1
    else if m[0].0 == k then 0
    else
      var r := IndexOf(m[1..], k);
      if r == -1 then -1 else r + 1
  }

  /** `isset($m[k])` for an array whose values are never NULL. */
  predicate HasKey<K(==), V>(m: seq<(K, V)>, k: K)
    ensures HasKey(m, k) <==> k in Keys(m)
  {
    assert forall i :: 0 <= i < |m| ==> m[i].0 in Keys(m);
    IndexOf(m, k) >= 0
  }

  function Get<K(==), V>(m: seq<(K, V)>, k: K): (r: Option<V>)
    ensures r.Some? <==> k in Keys(m)
    ensures UniqueKeys(m) ==> forall i :: 0 <= i < |m| && m[i].0 == k ==> r == Some(m[i].1)
  {
    var i := IndexOf(m, k);
    assert forall j :: 0 <= j < |m| ==> m[j].0 in Keys(m);
    if i < 0 then None else Some(m[i].1)
  }

  /** `$m[k] = v`. */
  function Put<K(==,!new), V>(m: seq<(K, V)>, k: K, v: V): (r: seq<(K, V)>)
    ensures Keys(r) == Keys(m) + {k}
    ensures Get(r, k) == Some(v)
    ensures forall k' :: k' != k ==> Get(r, k') == Get(m, k')
    ensures UniqueKeys(m) ==> UniqueKeys(r)
    ensures |r| == if k in Keys(m) then |m| else |m| + 1
    ensures forall i :: 0 <= i < |m| ==> r[i].0 == m[i].0
  {
    var i := IndexOf(m, k);
    if i < 0 then
      Append(m, k, v);
      AppendOthers(m, k, v);
      m + [(k, v)]
    else
      Replace(m, i, k, v);
      m[i := (k, v)]
  }

  /** Writing a new key appends it. */
  lemma Append<K(!new), V>(m: seq<(K, V)>, k: K, v: V)
    requires IndexOf(m, k) < 0
    ensures var r := m + [(k, v)];
            && Keys(r) == Keys(m) + {k}
            && IndexOf(r, k) == |m|
            && (UniqueKeys(m) ==> UniqueKeys(r))
            && k !in Keys(m)
  {
    var r := m + [(k, v)];
    KeysSnoc(m, (k, v));
    assert forall j :: 0 <= j < |m| ==> r[j] == m[j];
    assert forall j :: 0 <= j < |m| ==> m[j].0 in Keys(m);
  }

  /** Appending a new key does not move the others. */
  lemma AppendOthers<K(!new), V>(m: seq<(K, V)>, k: K, v: V)
    ensures forall k' :: k' != k ==> IndexOf(m + [(k, v)], k') == IndexOf(m, k')
  {
    forall k' | k' != k ensures IndexOf(m + [(k, v)], k') == IndexOf(m, k') {
      IndexOfSnoc(m, (k, v), k');
    }
  }

  /** Writing a present key replaces its value in place. */
  lemma Replace<K(!new), V>(m: seq<(K, V)>, i: int, k: K, v: V)
    requires i == IndexOf(m, k) && 0 <= i
    ensures var r := m[i := (k, v)];
            && Keys(r) == Keys(m)
            && IndexOf(r, k) == i
            && (forall k' :: k' != k ==> IndexOf(r, k') == IndexOf(m, k'))
            && (UniqueKeys(m) ==> UniqueKeys(r))
            && k in Keys(m)
  {
    var r := m[i := (k, v)];
    assert forall j :: 0 <= j < |m| ==> r[j].0 == m[j].0;
    assert m[i].0 == k;
    forall k' | k' != k ensures IndexOf(r, k') == IndexOf(m, k') {
      IndexOfUpdate(m, i, v, k');
    }
    assert Keys(r) == Keys(m) by {
      forall x | x in Keys(m) ensures x in Keys(r) {
        var j :| 0 <= j < |m| && m[j].0 == x;
        assert r[j].0 == x;
      }
    }
  }

  lemma KeysSnoc<K, V>(m: seq<(K, V)>, e: (K, V))
    ensures Keys(m + [e]) == Keys(m) + {e.0}
  {
    var r := m + [e];
    assert r[|m|].0 == e.0;
    forall x | x in Keys(r) ensures x in Keys(m) + {e.0} {
      var j :| 0 <= j < |r| && r[j].0 == x;
      if j < |m| { assert m[j].0 == x; }
    }
    forall x | x in Keys(m) ensures x in Keys(r) {
      var j :| 0 <= j < |m| && m[j].0 == x;
      assert r[j].0 == x;
    }
  }

  lemma IndexOfSnoc<K, V>(m: seq<(K, V)>, e: (K, V), k: K)
    requires e.0 != k
    ensures IndexOf(m + [e], k) == IndexOf(m, k)
  {
    assert forall i :: 0 <= i < |m| ==> (m + [e])[i] == m[i];
  }

  lemma IndexOfUpdate<K, V>(m: seq<(K, V)>, i: int, v: V, k: K)
    requires 0 <= i < |m| && m[i].0 != k
    ensures IndexOf(m[i := (m[i].0, v)], k) == IndexOf(m, k)
  {
    assert forall j :: 0 <= j < |m| ==> m[i := (m[i].0, v)][j].0 == m[j].0;
  }

  /** A second write to the same key overwrites the first in place. */
  lemma PutPut<K(!new), V>(m: seq<(K, V)>, k: K, a: V, b: V)
    ensures Put(Put(m, k, a), k, b) == Put(m, k, b)
  {
    var i := IndexOf(m, k);
    var m' := Put(m, k, a);
    if i < 0 {
      assert m' == m + [(k, a)];
      assert IndexOf(m', k) == |m|;
    } else {
      assert m' == m[i := (k, a)];
      assert IndexOf(m', k) == i;
    }
  }
}
