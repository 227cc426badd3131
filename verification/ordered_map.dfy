/**
 Insertion-ordered dictionaries (Python `dict`, JavaScript `Map`) as
 association lists. Lookups search from the front; `Put` keeps an existing
 key in place and appends a new one; `Delete` drops the key.
 */
module OrderedMap {
  import opened Wrappers

  type Entries<K, V> = seq<(K, V)>

  function Keys<K, V>(m: Entries<K, V>): (ks: seq<K>)
    ensures |ks| == |m|
    ensures forall i :: 0 <= i < |m| ==> ks[i] == m[i].0
  {
    seq(|m|, i requires 0 <= i < |m| => m[i].0)
  }

  lemma KeysCons<K, V>(x: (K, V), m: Entries<K, V>)
    ensures Keys([x] + m) == [x.0] + Keys(m)
  {
    assert forall i :: 1 <= i <= |m| ==> ([x] + m)[i] == m[i - 1];
  }

  lemma KeysSplit<K, V>(m: Entries<K, V>)
    requires |m| > 0
    ensures Keys(m) == [m[0].0] + Keys(m[1..])
  {
    assert m == [m[0]] + m[1..];
    KeysCons(m[0], m[1..]);
  }

  /** The value stored under `key`, found from the front. */
  function Get<K(==), V>(m: Entries<K, V>, key: K): (r: Option<V>)
    ensures r.Some? <==> key in Keys(m)
    ensures r.Some? ==> (key, r.value) in m
  {
    if |m| == 0 then None
    else if m[0].0 == key then Some(m[0].1)
    else
      KeysSplit(m);
      Get(m[1..], key)
  }

  predicate DistinctKeys<K(==), V>(m: Entries<K, V>) {
    forall i, j :: 0 <= i < j < |m| ==> m[i].0 != m[j].0
  }

  /** With distinct keys, every entry is what a lookup of its key finds. */
  lemma {:induction false} GetEntry<K, V>(m: Entries<K, V>, i: nat)
    requires DistinctKeys(m) && i < |m|
    ensures Get(m, m[i].0) == Some(m[i].1)
    decreases i
  {
    if i > 0 {
      assert m[0].0 != m[i].0;
      assert DistinctKeys(m[1..]) by {
        forall a, b | 0 <= a < b < |m[1..]| ensures m[1..][a].0 != m[1..][b].0 {
          assert m[1..][a] == m[a + 1] && m[1..][b] == m[b + 1];
        }
      }
      GetEntry(m[1..], i - 1);
      assert m[1..][i - 1] == m[i];
    }
  }

  /** `Map.prototype.set`: overwrite in place, or append a new key at the end. */
  function Put<K(==), V>(m: Entries<K, V>, key: K, value: V): (r: Entries<K, V>)
    ensures key in Keys(m) ==> Keys(r) == Keys(m)
    ensures key !in Keys(m) ==> Keys(r) == Keys(m) + [key]
  {
    if |m| == 0 then [(key, value)]
    else if m[0].0 == key then
      KeysCons((key, value), m[1..]);
      KeysSplit(m);
      [(key, value)] + m[1..]
    else
      var rest := Put(m[1..], key, value);
      KeysSplit(m);
      KeysCons(m[0], rest);
      [m[0]] + rest
  }

  /** After `Put`, the key finds the new value and every other key what it found before. */
  lemma {:induction false} PutGet<K, V>(m: Entries<K, V>, key: K, value: V, k: K)
    ensures Get(Put(m, key, value), k) == if k == key then Some(value) else Get(m, k)
  {
    if |m| > 0 && m[0].0 != key {
      PutGet(m[1..], key, value, k);
      assert ([m[0]] + Put(m[1..], key, value))[1..] == Put(m[1..], key, value);
    } else if |m| > 0 {
      assert ([(key, value)] + m[1..])[1..] == m[1..];
    }
  }

  /** `Map.prototype.delete`: every entry under `key` is removed, the others keep their order. */
  function Delete<K(==), V>(m: Entries<K, V>, key: K): (r: Entries<K, V>)
    ensures |r| <= |m|
    ensures key !in Keys(m) ==> r == m
    ensures key !in Keys(r)
    ensures forall i :: 0 <= i < |r| ==> r[i] in m
  {
    if |m| == 0 then []
    else
      var rest := Delete(m[1..], key);
      KeysSplit(m);
      TailMembers(m, rest);
      if m[0].0 == key then rest
      else
        KeysCons(m[0], rest);
        assert m == [m[0]] + m[1..];
        [m[0]] + rest
  }

  lemma TailMembers<K, V>(m: Entries<K, V>, rest: Entries<K, V>)
    requires |m| > 0
    requires forall i :: 0 <= i < |rest| ==> rest[i] in m[1..]
    ensures forall i :: 0 <= i < |rest| ==> rest[i] in m
    ensures forall i :: 0 <= i < |[m[0]] + rest| ==> ([m[0]] + rest)[i] in m
  {
    forall i | 0 <= i < |rest| ensures rest[i] in m {
      var j :| 0 <= j < |m[1..]| && m[1..][j] == rest[i];
      assert m[j + 1] == rest[i];
    }
    forall i | 0 <= i < |[m[0]] + rest| ensures ([m[0]] + rest)[i] in m {
      if i > 0 {
        assert ([m[0]] + rest)[i] == rest[i - 1];
      }
    }
  }

  /** After `Delete`, the key finds nothing and every other key what it found before. */
  lemma {:induction false} DeleteGet<K, V>(m: Entries<K, V>, key: K, k: K)
    ensures Get(Delete(m, key), k) == if k == key then None else Get(m, k)
  {
    if |m| > 0 {
      DeleteGet(m[1..], key, k);
      if m[0].0 != key {
        assert ([m[0]] + Delete(m[1..], key))[1..] == Delete(m[1..], key);
      }
    }
  }

  lemma {:induction false} PutDistinct<K, V>(m: Entries<K, V>, key: K, value: V)
    requires DistinctKeys(m)
    ensures DistinctKeys(Put(m, key, value))
  {
    var r := Put(m, key, value);
    forall i, j | 0 <= i < j < |r| ensures r[i].0 != r[j].0 {
      assert Keys(r)[i] == r[i].0 && Keys(r)[j] == r[j].0;
      if key !in Keys(m) && j == |m| {
        assert Keys(m)[i] == m[i].0;
      } else {
        assert Keys(m)[i] == m[i].0 && Keys(m)[j] == m[j].0;
      }
    }
  }
}
