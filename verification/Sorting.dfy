/** The stable sort of `Array.prototype.sort` with a numeric comparator: ascending
    in `key`, equal keys kept in their original order. */
module Sorting {
  function Insert<T>(x: T, xs: seq<T>, key: T -> int): seq<T> {
    if xs == [] || key(x) < key(xs[0]) then [x] + xs
    else [xs[0]] + Insert(x, xs[1..], key)
  }

  function Sort<T>(xs: seq<T>, key: T -> int): seq<T> {
    if xs == [] then []
    else Insert(xs[|xs| - 1], Sort(xs[..|xs| - 1], key), key)
  }

  ghost predicate Sorted<T>(xs: seq<T>, key: T -> int) {
    forall i, j :: 0 <= i < j < |xs| ==> key(xs[i]) <= key(xs[j])
  }

  ghost predicate DistinctKeys<T, K>(xs: seq<T>, key: T -> K) {
    forall i, j :: 0 <= i < j < |xs| ==> key(xs[i]) != key(xs[j])
  }

  /** The elements carrying one key, in order. */
  ghost function WithKey<T>(xs: seq<T>, key: T -> int, k: int): seq<T> {
    if xs == [] then []
    else WithKey(xs[..|xs| - 1], key, k) + (if key(xs[|xs| - 1]) == k then [xs[|xs| - 1]] else [])
  }

  lemma {:induction false} WithKeyConcat<T>(xs: seq<T>, ys: seq<T>, key: T -> int, k: int)
    ensures WithKey(xs + ys, key, k) == WithKey(xs, key, k) + WithKey(ys, key, k)
  {
    if ys == [] {
      assert xs + ys == xs;
    } else {
      var n := |ys| - 1;
      assert (xs + ys)[..|xs + ys| - 1] == xs + ys[..n];
      WithKeyConcat(xs, ys[..n], key, k);
    }
  }

  lemma {:induction false} InsertIsOrdered<T>(x: T, xs: seq<T>, key: T -> int)
    requires Sorted(xs, key)
    ensures multiset(Insert(x, xs, key)) == multiset(xs) + multiset{x}
    ensures Sorted(Insert(x, xs, key), key)
    ensures forall y :: y in Insert(x, xs, key) ==> y == x || y in xs
  {
    if xs == [] || key(x) < key(xs[0]) {
    } else {
      InsertIsOrdered(x, xs[1..], key);
      assert xs == [xs[0]] + xs[1..];
      var r := Insert(x, xs[1..], key);
      forall j | 0 <= j < |r| ensures key(xs[0]) <= key(r[j]) {
        assert r[j] in r;
      }
    }
  }

  lemma {:induction false} NoneWithKey<T>(xs: seq<T>, key: T -> int, k: int)
    requires forall i :: 0 <= i < |xs| ==> key(xs[i]) != k
    ensures WithKey(xs, key, k) == []
  {
    if xs != [] {
      NoneWithKey(xs[..|xs| - 1], key, k);
    }
  }

  lemma {:induction false} InsertIsStable<T>(x: T, xs: seq<T>, key: T -> int, k: int)
    requires Sorted(xs, key)
    ensures WithKey(Insert(x, xs, key), key, k) == WithKey(xs + [x], key, k)
  {
    WithKeyConcat(xs, [x], key, k);
    if xs == [] || key(x) < key(xs[0]) {
      WithKeyConcat([x], xs, key, k);
      if key(x) == k {
        NoneWithKey(xs, key, k);
      }
    } else {
      InsertIsStable(x, xs[1..], key, k);
      WithKeyConcat(xs[1..], [x], key, k);
      WithKeyConcat([xs[0]], Insert(x, xs[1..], key), key, k);
      WithKeyConcat([xs[0]], xs[1..], key, k);
      assert xs == [xs[0]] + xs[1..];
    }
  }

  /** Sorting rearranges, orders, and keeps ties in place. */
  lemma {:induction false} SortIsStableSort<T>(xs: seq<T>, key: T -> int)
    ensures multiset(Sort(xs, key)) == multiset(xs)
    ensures Sorted(Sort(xs, key), key)
    ensures forall k :: WithKey(Sort(xs, key), key, k) == WithKey(xs, key, k)
  {
    if xs != [] {
      var n := |xs| - 1;
      var s := Sort(xs[..n], key);
      SortIsStableSort(xs[..n], key);
      assert xs == xs[..n] + [xs[n]];
      InsertIsOrdered(xs[n], s, key);
      forall k ensures WithKey(Sort(xs, key), key, k) == WithKey(xs, key, k) {
        InsertIsStable(xs[n], s, key, k);
        WithKeyConcat(s, [xs[n]], key, k);
        WithKeyConcat(xs[..n], [xs[n]], key, k);
      }
    }
  }

  lemma SameTails<T>(xs: seq<T>, ys: seq<T>)
    requires multiset(xs) == multiset(ys) && xs != [] && ys != [] && xs[0] == ys[0]
    ensures multiset(xs[1..]) == multiset(ys[1..])
  {
    assert xs == [xs[0]] + xs[1..] && ys == [ys[0]] + ys[1..];
    assert multiset(xs[1..]) == multiset(xs) - multiset{xs[0]};
    assert multiset(ys[1..]) == multiset(ys) - multiset{ys[0]};
  }

  lemma TailStaysSorted<T>(xs: seq<T>, key: T -> int)
    requires xs != [] && Sorted(xs, key)
    ensures Sorted(xs[1..], key)
    ensures DistinctKeys(xs, key) ==> DistinctKeys(xs[1..], key)
  {
  }

  lemma SameHead<T>(xs: seq<T>, ys: seq<T>, key: T -> int)
    requires Sorted(xs, key) && Sorted(ys, key) && DistinctKeys(xs, key)
    requires multiset(xs) == multiset(ys) && xs != [] && ys != []
    ensures xs[0] == ys[0]
  {
    assert xs[0] in multiset(xs) && ys[0] in multiset(ys);
    var i :| 0 <= i < |ys| && ys[i] == xs[0];
    var j :| 0 <= j < |xs| && xs[j] == ys[0];
    assert key(xs[0]) == key(xs[j]);
  }

  lemma SameSize<T>(xs: seq<T>, ys: seq<T>)
    requires multiset(xs) == multiset(ys)
    ensures |xs| == |ys|
  {
    assert |multiset(xs)| == |xs| && |multiset(ys)| == |ys|;
  }

  /** Two ascending arrangements of the same elements with distinct keys are equal. */
  lemma {:induction false} SortedUnique<T>(xs: seq<T>, ys: seq<T>, key: T -> int)
    requires Sorted(xs, key) && Sorted(ys, key) && DistinctKeys(xs, key)
    requires multiset(xs) == multiset(ys)
    ensures xs == ys
  {
    SameSize(xs, ys);
    if xs != [] {
      SameHead(xs, ys, key);
      SameTails(xs, ys);
      TailStaysSorted(xs, key);
      TailStaysSorted(ys, key);
      SortedUnique(xs[1..], ys[1..], key);
    }
  }

  lemma TwiceAt<T>(xs: seq<T>, x: T)
    requires multiset(xs)[x] >= 2
    ensures exists i, j :: 0 <= i < j < |xs| && xs[i] == x && xs[j] == x
  {
    assert x in multiset(xs);
    var i :| 0 <= i < |xs| && xs[i] == x;
    var rest := xs[..i] + xs[i + 1..];
    assert xs == xs[..i] + [x] + xs[i + 1..];
    assert x in multiset(rest);
    var j :| 0 <= j < |rest| && rest[j] == x;
    if j < i {
      assert xs[j] == x;
    } else {
      assert xs[j + 1] == x;
    }
  }

  /** Distinct keys survive rearrangement. */
  lemma DistinctKeysPermute<T, K>(xs: seq<T>, ys: seq<T>, key: T -> K)
    requires multiset(xs) == multiset(ys) && DistinctKeys(xs, key)
    ensures DistinctKeys(ys, key)
  {
    forall i, j | 0 <= i < j < |ys| ensures key(ys[i]) != key(ys[j]) {
      if ys[i] == ys[j] {
        assert ys == ys[..i] + [ys[i]] + ys[i + 1..j] + [ys[j]] + ys[j + 1..];
        assert multiset(xs)[ys[i]] >= 2;
        TwiceAt(xs, ys[i]);
        assert false;
      } else {
        assert ys[i] in multiset(xs) && ys[j] in multiset(xs);
        var a :| 0 <= a < |xs| && xs[a] == ys[i];
        var b :| 0 <= b < |xs| && xs[b] == ys[j];
        assert a < b || b < a;
      }
    }
  }

  /** With distinct keys the arrangement of the input does not matter. */
  lemma SortIgnoresArrangement<T>(xs: seq<T>, ys: seq<T>, key: T -> int)
    requires multiset(xs) == multiset(ys) && DistinctKeys(xs, key)
    ensures Sort(xs, key) == Sort(ys, key)
  {
    SortIsStableSort(xs, key);
    SortIsStableSort(ys, key);
    DistinctKeysPermute(xs, Sort(xs, key), key);
    SortedUnique(Sort(xs, key), Sort(ys, key), key);
  }

  lemma WithKeyCons<T>(x: T, xs: seq<T>, key: T -> int, k: int)
    ensures WithKey([x] + xs, key, k) == (if key(x) == k then [x] else []) + WithKey(xs, key, k)
  {
    WithKeyConcat([x], xs, key, k);
    assert [x][..0] == [];
    assert WithKey([x], key, k) == if key(x) == k then [x] else [];
  }

  lemma {:induction false} WithKeyMember<T>(xs: seq<T>, key: T -> int, i: nat)
    requires i < |xs|
    ensures WithKey(xs, key, key(xs[i])) != []
  {
    if i < |xs| - 1 {
      WithKeyMember(xs[..|xs| - 1], key, i);
    }
  }

  lemma {:induction false} WithKeyFound<T>(xs: seq<T>, key: T -> int, k: int) returns (i: nat)
    requires WithKey(xs, key, k) != []
    ensures i < |xs| && key(xs[i]) == k
  {
    i := |xs| - 1;
    if key(xs[i]) != k {
      i := WithKeyFound(xs[..i], key, k);
    }
  }

  lemma SortedHeads<T>(xs: seq<T>, ys: seq<T>, key: T -> int)
    requires Sorted(xs, key) && Sorted(ys, key) && xs != [] && ys != []
    requires forall k :: WithKey(xs, key, k) == WithKey(ys, key, k)
    ensures xs[0] == ys[0]
  {
    WithKeyMember(xs, key, 0);
    WithKeyMember(ys, key, 0);
    var i := WithKeyFound(ys, key, key(xs[0]));
    var j := WithKeyFound(xs, key, key(ys[0]));
    assert key(ys[0]) <= key(ys[i]) && key(xs[0]) <= key(xs[j]);
    assert xs == [xs[0]] + xs[1..] && ys == [ys[0]] + ys[1..];
    WithKeyCons(xs[0], xs[1..], key, key(xs[0]));
    WithKeyCons(ys[0], ys[1..], key, key(xs[0]));
    assert WithKey(xs, key, key(xs[0]))[0] == xs[0] && WithKey(ys, key, key(xs[0]))[0] == ys[0];
  }

  /** Order and ties determine a stable sort. */
  lemma {:induction false} StableSortUnique<T>(xs: seq<T>, ys: seq<T>, key: T -> int)
    requires Sorted(xs, key) && Sorted(ys, key)
    requires forall k :: WithKey(xs, key, k) == WithKey(ys, key, k)
    ensures xs == ys
  {
    if xs == [] {
      if ys != [] {
        WithKeyMember(ys, key, 0);
      }
    } else {
      WithKeyMember(xs, key, 0);
      assert ys != [];
      SortedHeads(xs, ys, key);
      forall k ensures WithKey(xs[1..], key, k) == WithKey(ys[1..], key, k) {
        assert xs == [xs[0]] + xs[1..] && ys == [ys[0]] + ys[1..];
        WithKeyCons(xs[0], xs[1..], key, k);
        WithKeyCons(ys[0], ys[1..], key, k);
        var head := if key(xs[0]) == k then [xs[0]] else [];
        assert (head + WithKey(xs[1..], key, k))[|head|..] == WithKey(xs[1..], key, k);
        assert (head + WithKey(ys[1..], key, k))[|head|..] == WithKey(ys[1..], key, k);
      }
      StableSortUnique(xs[1..], ys[1..], key);
    }
  }
}
