/** `Array.prototype.sort` with a comparator of the form `(a, b) => key(b) - key(a)`
    (or `key(a) - key(b)` with the key negated).  Since ECMAScript 2019 the sort
    is stable, so the result is fixed: the elements ordered by non-increasing
    key, elements with equal keys in their original order.  Modelled as a
    stable insertion sort. */
module Sorting {

  /** Non-increasing by key. */
  predicate SortedDesc<T>(xs: seq<T>, key: T -> int) {
    forall i, j :: 0 <= i < j < |xs| ==> key(xs[i]) >= key(xs[j])
  }

  /** The elements of `xs` whose key is `k`, in order. */
  function WithKey<T>(xs: seq<T>, key: T -> int, k: int): (r: seq<T>)
    ensures |r| <= |xs|
    ensures forall i :: 0 <= i < |r| ==> key(r[i]) == k
  {
    if xs == [] then []
    else (if key(xs[0]) == k then [xs[0]] else []) + WithKey(xs[1..], key, k)
  }

  /** Sum of the keys. */
  function SumKeys<T>(xs: seq<T>, key: T -> int): int
  {
    if xs == [] then 0 else key(xs[0]) + SumKeys(xs[1..], key)
  }

  /** Put `x` after every element whose key is at least `key(x)`. */
  function Insert<T>(x: T, xs: seq<T>, key: T -> int): (r: seq<T>)
    ensures |r| == |xs| + 1
  {
    if xs == [] then [x]
    else if key(xs[0]) >= key(x) then [xs[0]] + Insert(x, xs[1..], key)
    else [x] + xs
  }

  /** The stable descending sort: each element, in input order, is inserted
      after all earlier elements with a key at least as large. */
  function Sort<T>(xs: seq<T>, key: T -> int): (r: seq<T>)
    ensures |r| == |xs|
  {
    if xs == [] then [] else Insert(xs[|xs| - 1], Sort(xs[..|xs| - 1], key), key)
  }

  // ---------------------------------------------------------------- insertion

  lemma {:induction false} InsertMultiset<T>(x: T, xs: seq<T>, key: T -> int)
    ensures multiset(Insert(x, xs, key)) == multiset(xs) + multiset{x}
  {
    if xs != [] && key(xs[0]) >= key(x) {
      InsertMultiset(x, xs[1..], key);
      assert xs == [xs[0]] + xs[1..];
    }
  }

  lemma {:induction false} InsertSorted<T>(x: T, xs: seq<T>, key: T -> int)
    requires SortedDesc(xs, key)
    ensures SortedDesc(Insert(x, xs, key), key)
  {
    if xs != [] && key(xs[0]) >= key(x) {
      InsertSorted(x, xs[1..], key);
      InsertMultiset(x, xs[1..], key);
      var r := Insert(x, xs[1..], key);
      forall i | 0 <= i < |r| ensures key(xs[0]) >= key(r[i]) {
        assert r[i] in multiset(r);
        assert r[i] in multiset(xs[1..]) + multiset{x};
        if r[i] != x {
          var j :| 0 <= j < |xs[1..]| && xs[1..][j] == r[i];
          assert xs[j + 1] == r[i];
        }
      }
    }
  }

  lemma {:induction false} InsertSumKeys<T>(x: T, xs: seq<T>, key: T -> int)
    ensures SumKeys(Insert(x, xs, key), key) == key(x) + SumKeys(xs, key)
  {
    if xs != [] && key(xs[0]) >= key(x) {
      InsertSumKeys(x, xs[1..], key);
    }
  }

  lemma {:induction false} WithKeyNone<T>(xs: seq<T>, key: T -> int, k: int)
    requires forall i :: 0 <= i < |xs| ==> key(xs[i]) < k
    ensures WithKey(xs, key, k) == []
  {
    if xs != [] { WithKeyNone(xs[1..], key, k); }
  }

  lemma {:induction false} WithKeyAppend<T>(a: seq<T>, b: seq<T>, key: T -> int, k: int)
    ensures WithKey(a + b, key, k) == WithKey(a, key, k) + WithKey(b, key, k)
  {
    if a == [] {
      assert a + b == b;
    } else {
      assert (a + b)[0] == a[0] && (a + b)[1..] == a[1..] + b;
      WithKeyAppend(a[1..], b, key, k);
    }
  }

  /** Inserting into a sorted list puts `x` after every element with its key. */
  lemma {:induction false} InsertWithKey<T>(x: T, xs: seq<T>, key: T -> int, k: int)
    requires SortedDesc(xs, key)
    ensures WithKey(Insert(x, xs, key), key, k) ==
            WithKey(xs, key, k) + (if key(x) == k then [x] else [])
  {
    if xs == [] {
    } else if key(xs[0]) >= key(x) {
      var r := Insert(x, xs[1..], key);
      SortedTail(xs, key);
      InsertWithKey(x, xs[1..], key, k);
      assert Insert(x, xs, key) == [xs[0]] + r;
      assert ([xs[0]] + r)[1..] == r;
    } else {
      assert Insert(x, xs, key) == [x] + xs;
      assert ([x] + xs)[1..] == xs;
      if key(x) == k {
        assert forall i :: 0 <= i < |xs| ==> key(xs[i]) <= key(xs[0]);
        WithKeyNone(xs, key, k);
      }
    }
  }

  lemma SortedTail<T>(xs: seq<T>, key: T -> int)
    requires xs != [] && SortedDesc(xs, key)
    ensures SortedDesc(xs[1..], key)
  {
    forall i, j | 0 <= i < j < |xs| - 1 ensures key(xs[1..][i]) >= key(xs[1..][j]) {
      assert xs[1..][i] == xs[i + 1] && xs[1..][j] == xs[j + 1];
    }
  }

  // ---------------------------------------------------------------- the sort

  /** The sort reorders and does not add or drop anything. */
  lemma {:induction false} SortPermutes<T>(xs: seq<T>, key: T -> int)
    ensures multiset(Sort(xs, key)) == multiset(xs)
  {
    if xs != [] {
      var n := |xs| - 1;
      SortPermutes(xs[..n], key);
      InsertMultiset(xs[n], Sort(xs[..n], key), key);
      assert xs == xs[..n] + [xs[n]];
    }
  }

  lemma {:induction false} SortSorted<T>(xs: seq<T>, key: T -> int)
    ensures SortedDesc(Sort(xs, key), key)
  {
    if xs != [] {
      var n := |xs| - 1;
      SortSorted(xs[..n], key);
      InsertSorted(xs[n], Sort(xs[..n], key), key);
    }
  }

  /** Stability: elements with equal keys keep their input order. */
  lemma {:induction false} SortStable<T>(xs: seq<T>, key: T -> int, k: int)
    ensures WithKey(Sort(xs, key), key, k) == WithKey(xs, key, k)
  {
    if xs != [] {
      var n := |xs| - 1;
      SortStable(xs[..n], key, k);
      SortSorted(xs[..n], key);
      InsertWithKey(xs[n], Sort(xs[..n], key), key, k);
      WithKeyAppend(xs[..n], [xs[n]], key, k);
      assert xs == xs[..n] + [xs[n]];
    }
  }

  lemma {:induction false} SortSumKeys<T>(xs: seq<T>, key: T -> int)
    ensures SumKeys(Sort(xs, key), key) == SumKeys(xs, key)
  {
    if xs != [] {
      var n := |xs| - 1;
      SortSumKeys(xs[..n], key);
      InsertSumKeys(xs[n], Sort(xs[..n], key), key);
      SumKeysAppend(xs[..n], [xs[n]], key);
      assert xs == xs[..n] + [xs[n]];
    }
  }

  lemma {:induction false} SumKeysAppend<T>(a: seq<T>, b: seq<T>, key: T -> int)
    ensures SumKeys(a + b, key) == SumKeys(a, key) + SumKeys(b, key)
  {
    if a == [] {
      assert a + b == b;
    } else {
      assert (a + b)[0] == a[0] && (a + b)[1..] == a[1..] + b;
      SumKeysAppend(a[1..], b, key);
    }
  }

  /** An already sorted list is left as it is. */
  lemma {:induction false} SortIdentity<T>(xs: seq<T>, key: T -> int)
    requires SortedDesc(xs, key)
    ensures Sort(xs, key) == xs
  {
    if xs != [] {
      var n := |xs| - 1;
      SortIdentity(xs[..n], key);
      InsertAtEnd(xs[n], xs[..n], key);
      assert xs == xs[..n] + [xs[n]];
    }
  }

  lemma {:induction false} InsertAtEnd<T>(x: T, xs: seq<T>, key: T -> int)
    requires forall i :: 0 <= i < |xs| ==> key(xs[i]) >= key(x)
    ensures Insert(x, xs, key) == xs + [x]
  {
    if xs != [] {
      InsertAtEnd(x, xs[1..], key);
      assert xs == [xs[0]] + xs[1..];
    }
  }
}
