/** A JavaScript `Map`, or a table with a unique key: entries in insertion order, at most one per
    key. Setting an existing key keeps its place; deleting and setting again moves it to the end. */
module OrderedMap {
  import opened Wrappers

  datatype Entry<K, V> = Entry(key: K, value: V)

  function Get<K(==), V>(m: seq<Entry<K, V>>, k: K): Option<V> {
    if m == [] then None else if m[0].key == k then Some(m[0].value) else Get(m[1..], k)
  }

  function Set<K(==), V>(m: seq<Entry<K, V>>, k: K, v: V): seq<Entry<K, V>> {
    if m == [] then [Entry(k, v)]
    else if m[0].key == k then [Entry(k, v)] + m[1..]
    else [m[0]] + Set(m[1..], k, v)
  }

  ghost predicate UniqueKeys<K, V>(m: seq<Entry<K, V>>) {
    forall i, j :: 0 <= i < j < |m| ==> m[i].key != m[j].key
  }

  lemma {:induction false} GetIffPresent<K, V>(m: seq<Entry<K, V>>, k: K)
    requires UniqueKeys(m)
    ensures forall v :: Get(m, k) == Some(v) <==> Entry(k, v) in m
    ensures Get(m, k) == None <==> forall e :: e in m ==> e.key != k
  {
    if m != [] {
      assert m == [m[0]] + m[1..];
      GetIffPresent(m[1..], k);
    }
  }

  lemma {:induction false} SetKeepsOthers<K(!new), V(!new)>(m: seq<Entry<K, V>>, k: K, v: V)
    requires UniqueKeys(m)
    ensures UniqueKeys(Set(m, k, v))
    ensures forall e :: e in Set(m, k, v) <==> e == Entry(k, v) || (e in m && e.key != k)
  {
    if m != [] {
      assert m == [m[0]] + m[1..];
      if m[0].key != k {
        SetKeepsOthers(m[1..], k, v);
        var r := Set(m[1..], k, v);
        forall j | 0 <= j < |r| ensures r[j].key != m[0].key {
          assert r[j] in r;
        }
      }
    }
  }

  lemma {:induction false} GetAfterSet<K, V>(m: seq<Entry<K, V>>, k: K, v: V, k': K)
    ensures Get(Set(m, k, v), k') == if k' == k then Some(v) else Get(m, k')
  {
    if m != [] && m[0].key != k {
      GetAfterSet(m[1..], k, v, k');
    }
  }

  /** Setting a new key appends. */
  lemma {:induction false} SetAbsent<K, V>(m: seq<Entry<K, V>>, k: K, v: V)
    requires forall i :: 0 <= i < |m| ==> m[i].key != k
    ensures Set(m, k, v) == m + [Entry(k, v)]
    ensures Get(m, k) == None
  {
    if m != [] {
      SetAbsent(m[1..], k, v);
      assert m == [m[0]] + m[1..];
    }
  }

  /** Setting a key that is present replaces its value in place. */
  lemma {:induction false} SetPresent<K, V>(m: seq<Entry<K, V>>, i: nat, v: V)
    requires UniqueKeys(m) && i < |m|
    ensures Get(m, m[i].key) == Some(m[i].value) && Set(m, m[i].key, v) == m[i := Entry(m[i].key, v)]
  {
    if i > 0 {
      assert m[0].key != m[i].key && m[1..][i - 1] == m[i];
      SetPresent(m[1..], i - 1, v);
      assert m == [m[0]] + m[1..];
    }
  }
}
