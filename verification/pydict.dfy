/** Python's insertion-ordered `dict`, as an association list with unique keys. */
module PyDict {
  import opened Wrappers

  type Dict<K(==,!new), V> = seq<(K, V)>

  function Keys<K(==,!new), V>(d: Dict<K, V>): (ks: seq<K>)
    ensures |ks| == |d|
    ensures forall i :: 0 <= i < |d| ==> ks[i] == d[i].0
  {
    if |d| == 0 then [] else [d[0].0] + Keys(d[1..])
  }

  /** No key occurs twice. */
  predicate UniqueKeys<K(==,!new), V>(d: Dict<K, V>) {
    forall i, j :: 0 <= i < j < |d| ==> d[i].0 != d[j].0
  }

  predicate HasKey<K(==,!new), V>(d: Dict<K, V>, k: K) {
    exists i :: 0 <= i < |d| && d[i].0 == k
  }

  /** `d.get(k)` */
  function Get<K(==,!new), V>(d: Dict<K, V>, k: K): (r: Option<V>)
    ensures r.None? <==> !HasKey(d, k)
    ensures r.Some? ==> exists i :: 0 <= i < |d| && d[i] == (k, r.value)
  {
    if |d| == 0 then None
    else if d[0].0 == k then Some(d[0].1)
    else
      var r := Get(d[1..], k);
      assert r.Some? ==> exists i :: 0 <= i < |d| - 1 && d[1..][i] == (k, r.value);
      assert forall i :: 1 <= i < |d| ==> d[i] == d[1..][i - 1];
      r
  }

  /** `d[k] = v`: overwrite in place when the key is present, otherwise append. */
  function Set<K(==,!new), V>(d: Dict<K, V>, k: K, v: V): (r: Dict<K, V>)
    ensures HasKey(d, k) ==> |r| == |d|
    ensures !HasKey(d, k) ==> r == d + [(k, v)]
    ensures forall i :: 0 <= i < |d| ==> r[i].0 == d[i].0
    ensures forall i :: 0 <= i < |r| && r[i].0 != k ==> r[i] == d[i]
    ensures HasKey(r, k)
  {
    if |d| == 0 then
      var r := [(k, v)];
      assert r[0].0 == k;
      r
    else if d[0].0 == k then
      var r := [(k, v)] + d[1..];
      assert r[0].0 == k;
      r
    else
      var rest := Set(d[1..], k, v);
      GetTail(d, k);
      var r := [d[0]] + rest;
      forall i | 0 <= i < |r| ensures r[i].0 != k ==> r[i] == d[i]
        ensures i < |d| ==> r[i].0 == d[i].0
      {
        if i > 0 {
          assert r[i] == rest[i - 1];
          if i < |d| { assert d[i] == d[1..][i - 1]; }
        }
      }
      assert HasKey(r, k) by {
        var j :| 0 <= j < |rest| && rest[j].0 == k;
        assert r[j + 1] == rest[j];
      }
      assert !HasKey(d, k) ==> r == d + [(k, v)] by { assert d == [d[0]] + d[1..]; }
      r
  }

  /** After `d[k] = v`, reading `k` gives `v` and every other key reads as before. */
  lemma {:induction false} GetAfterSet<K(!new), V>(d: Dict<K, V>, k: K, v: V, k': K)
    ensures Get(Set(d, k, v), k') == if k' == k then Some(v) else Get(d, k')
  {
    if |d| > 0 && d[0].0 != k {
      GetAfterSet(d[1..], k, v, k');
      assert Set(d, k, v)[1..] == Set(d[1..], k, v);
    }
  }

  /** After `d[k] = v` the keys are the old ones and `k`. */
  lemma SetHasKey<K(!new), V>(d: Dict<K, V>, k: K, v: V, x: K)
    ensures HasKey(Set(d, k, v), x) <==> HasKey(d, x) || x == k
  {
    var r := Set(d, k, v);
    if HasKey(d, x) {
      var i :| 0 <= i < |d| && d[i].0 == x;
      assert r[i].0 == x;
    }
    if HasKey(r, x) && x != k {
      var i :| 0 <= i < |r| && r[i].0 == x;
      assert r[i] == d[i];
    }
  }

  /** Assignment never introduces a duplicate key. */
  lemma SetKeepsUniqueKeys<K(!new), V>(d: Dict<K, V>, k: K, v: V)
    requires UniqueKeys(d)
    ensures UniqueKeys(Set(d, k, v))
  {
  }

  /** A lookup that misses the first entry reads the rest. */
  lemma GetTail<K(!new), V>(d: Dict<K, V>, k: K)
    requires |d| > 0 && d[0].0 != k
    ensures Get(d, k) == Get(d[1..], k) && (HasKey(d, k) <==> HasKey(d[1..], k))
  {
    if HasKey(d, k) {
      var i :| 0 <= i < |d| && d[i].0 == k;
      assert d[1..][i - 1].0 == k;
    }
  }

  /** With unique keys, the first key does not occur again and the rest keeps unique keys. */
  lemma HeadNotInTail<K(!new), V>(d: Dict<K, V>)
    requires |d| > 0 && UniqueKeys(d)
    ensures !HasKey(d[1..], d[0].0) && UniqueKeys(d[1..])
  {
    assert forall i :: 0 <= i < |d[1..]| ==> d[1..][i] == d[i + 1];
  }

  /** The mapping a dict denotes. */
  function ToMap<K(==,!new), V>(d: Dict<K, V>): (m: map<K, V>)
    ensures forall k :: k in m <==> HasKey(d, k)
    ensures forall k :: k in m ==> Get(d, k) == Some(m[k])
  {
    if |d| == 0 then map[]
    else
      var m := ToMap(d[1..]);
      assert forall i :: 1 <= i < |d| ==> d[i] == d[1..][i - 1];
      m[d[0].0 := d[0].1]
  }
}
