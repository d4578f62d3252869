/**
 Byte-wise string order and the stable sort that the DAG code applies to link
 lists (by name) and to pin lists (by CID bytes).

 Go's `sort.Stable` is specified by three facts: the result is sorted, it holds
 the same elements, and elements with equal keys keep their order. The function
 `StableSort` is one algorithm with these facts, and `StableSortIsUnique` shows
 that it is the only possible result.
 */
module Sorting {

  /** Lexicographic order on strings. */
  predicate StrLe(a: string, b: string)
  {
    |a| == 0 || (|b| > 0 && (a[0] < b[0] || (a[0] == b[0] && StrLe(a[1..], b[1..]))))
  }

  lemma {:induction false} StrLeTotal(a: string, b: string)
    ensures StrLe(a, b) || StrLe(b, a)
  {
    if a == [] || b == [] {
    } else {
      StrLeTotal(a[1..], b[1..]);
    }
  }

  lemma {:induction false} StrLeAntisymmetric(a: string, b: string)
    requires StrLe(a, b) && StrLe(b, a)
    ensures a == b
  {
    if a == [] {
    } else {
      StrLeAntisymmetric(a[1..], b[1..]);
      assert a == [a[0]] + a[1..] && b == [b[0]] + b[1..];
    }
  }

  lemma {:induction false} StrLeTransitive(a: string, b: string, c: string)
    requires StrLe(a, b) && StrLe(b, c)
    ensures StrLe(a, c)
  {
    if a == [] {
    } else if a[0] == b[0] && b[0] == c[0] {
      StrLeTransitive(a[1..], b[1..], c[1..]);
    }
  }

  ghost predicate SortedBy<T>(xs: seq<T>, key: T -> string)
  {
    forall i, j :: 0 <= i < j < |xs| ==> StrLe(key(xs[i]), key(xs[j]))
  }

  ghost predicate DistinctKeys<T>(xs: seq<T>, key: T -> string)
  {
    forall i, j :: 0 <= i < j < |xs| ==> key(xs[i]) != key(xs[j])
  }

  /** The elements with key `k`, in order. */
  function WithKey<T>(xs: seq<T>, key: T -> string, k: string): seq<T>
  {
    if xs == [] then []
    else (if key(xs[0]) == k then [xs[0]] else []) + WithKey(xs[1..], key, k)
  }

  /** Puts `x` in front of the first element whose key is not smaller. */
  function Insert<T>(x: T, xs: seq<T>, key: T -> string): seq<T>
  {
    if xs == [] || StrLe(key(x), key(xs[0])) then [x] + xs
    else [xs[0]] + Insert(x, xs[1..], key)
  }

  function StableSort<T>(xs: seq<T>, key: T -> string): seq<T>
  {
    if xs == [] then [] else Insert(xs[0], StableSort(xs[1..], key), key)
  }

  lemma {:induction false} InsertPermutes<T>(x: T, xs: seq<T>, key: T -> string)
    ensures multiset(Insert(x, xs, key)) == multiset([x] + xs)
  {
    if xs == [] || StrLe(key(x), key(xs[0])) {
    } else {
      InsertPermutes(x, xs[1..], key);
      assert xs == [xs[0]] + xs[1..];
    }
  }

  lemma {:induction false} InsertSorts<T>(x: T, xs: seq<T>, key: T -> string)
    requires SortedBy(xs, key)
    ensures SortedBy(Insert(x, xs, key), key)
  {
    var r := Insert(x, xs, key);
    if xs == [] {
    } else if StrLe(key(x), key(xs[0])) {
      forall i, j | 0 <= i < j < |r| ensures StrLe(key(r[i]), key(r[j])) {
        if i == 0 && j > 1 {
          StrLeTransitive(key(x), key(xs[0]), key(xs[j - 1]));
        }
      }
    } else {
      InsertSorts(x, xs[1..], key);
      InsertPermutes(x, xs[1..], key);
      StrLeTotal(key(x), key(xs[0]));
      var t := Insert(x, xs[1..], key);
      forall j | 0 <= j < |t| ensures StrLe(key(xs[0]), key(t[j])) {
        assert t[j] in multiset(t);
        assert t[j] in multiset([x] + xs[1..]);
      }
    }
  }

  lemma {:induction false} InsertStable<T>(x: T, xs: seq<T>, key: T -> string, k: string)
    ensures WithKey(Insert(x, xs, key), key, k) == WithKey([x] + xs, key, k)
  {
    assert ([x] + xs)[1..] == xs;
    if xs == [] || StrLe(key(x), key(xs[0])) {
    } else {
      InsertStable(x, xs[1..], key, k);
      assert ([x] + xs[1..])[1..] == xs[1..];
      var t := Insert(x, xs[1..], key);
      assert ([xs[0]] + t)[1..] == t;
      StrLeTotal(key(x), key(xs[0]));
      if key(x) == key(xs[0]) {
        StrLeReflexive(key(x));
      }
    }
  }

  lemma {:induction false} StrLeReflexive(a: string)
    ensures StrLe(a, a)
  {
    StrLeTotal(a, a);
  }

  /** The sort neither loses nor adds an element. */
  lemma {:induction false} StableSortPermutes<T>(xs: seq<T>, key: T -> string)
    ensures multiset(StableSort(xs, key)) == multiset(xs)
    ensures |StableSort(xs, key)| == |xs|
  {
    if xs == [] {
    } else {
      StableSortPermutes(xs[1..], key);
      InsertPermutes(xs[0], StableSort(xs[1..], key), key);
      assert xs == [xs[0]] + xs[1..];
    }
    assert |multiset(StableSort(xs, key))| == |multiset(xs)|;
  }

  lemma {:induction false} StableSortSorts<T>(xs: seq<T>, key: T -> string)
    ensures SortedBy(StableSort(xs, key), key)
  {
    if xs == [] {
    } else {
      StableSortSorts(xs[1..], key);
      InsertSorts(xs[0], StableSort(xs[1..], key), key);
    }
  }

  /** Elements with equal keys keep their relative order. */
  lemma {:induction false} StableSortStable<T>(xs: seq<T>, key: T -> string, k: string)
    ensures WithKey(StableSort(xs, key), key, k) == WithKey(xs, key, k)
  {
    if xs == [] {
    } else {
      StableSortStable(xs[1..], key, k);
      var t := StableSort(xs[1..], key);
      InsertStable(xs[0], t, key, k);
      assert ([xs[0]] + t)[1..] == t;
    }
  }

  lemma {:induction false} WithKeyElements<T>(xs: seq<T>, key: T -> string, k: string)
    ensures forall x :: x in WithKey(xs, key, k) ==> x in xs && key(x) == k
    ensures forall x :: x in xs && key(x) == k ==> x in WithKey(xs, key, k)
  {
    if xs == [] {
    } else {
      WithKeyElements(xs[1..], key, k);
      assert xs == [xs[0]] + xs[1..];
    }
  }

  /** Two sorted lists that agree on every key class are the same list. */
  lemma {:induction false} SortedListsAgree<T>(xs: seq<T>, ys: seq<T>, key: T -> string)
    requires SortedBy(xs, key) && SortedBy(ys, key)
    requires forall k :: WithKey(xs, key, k) == WithKey(ys, key, k)
    ensures xs == ys
  {
    if xs == [] || ys == [] {
      assert xs != [] ==> WithKey(xs, key, key(xs[0])) != [];
      assert ys != [] ==> WithKey(ys, key, key(ys[0])) != [];
    } else {
      var k, l := key(xs[0]), key(ys[0]);
      WithKeyElements(xs, key, k);
      WithKeyElements(ys, key, k);
      WithKeyElements(xs, key, l);
      WithKeyElements(ys, key, l);
      assert xs[0] in ys && ys[0] in xs;
      assert StrLe(l, k) by { FirstIsLeast(ys, key, xs[0]); }
      assert StrLe(k, l) by { FirstIsLeast(xs, key, ys[0]); }
      StrLeAntisymmetric(k, l);
      assert WithKey(xs, key, k)[0] == xs[0] && WithKey(ys, key, k)[0] == ys[0];
      forall j ensures WithKey(xs[1..], key, j) == WithKey(ys[1..], key, j) {
        assert WithKey(xs, key, j) == WithKey(ys, key, j);
        if j == k {
          assert WithKey(xs, key, k)[1..] == WithKey(xs[1..], key, k);
          assert WithKey(ys, key, k)[1..] == WithKey(ys[1..], key, k);
        } else {
          assert WithKey(xs, key, j) == WithKey(xs[1..], key, j);
          assert WithKey(ys, key, j) == WithKey(ys[1..], key, j);
        }
      }
      SortedListsAgree(xs[1..], ys[1..], key);
      assert xs == [xs[0]] + xs[1..] && ys == [ys[0]] + ys[1..];
    }
  }

  lemma {:induction false} FirstIsLeast<T>(xs: seq<T>, key: T -> string, x: T)
    requires x in xs && SortedBy(xs, key)
    ensures StrLe(key(xs[0]), key(x))
  {
    var i :| 0 <= i < |xs| && xs[i] == x;
    if i == 0 { StrLeReflexive(key(x)); }
  }

  /** Whatever algorithm a stable sort uses, its result is `StableSort`. */
  lemma {:induction false} StableSortIsUnique<T>(xs: seq<T>, ys: seq<T>, key: T -> string)
    requires SortedBy(ys, key)
    requires forall k :: WithKey(ys, key, k) == WithKey(xs, key, k)
    ensures ys == StableSort(xs, key)
  {
    StableSortSorts(xs, key);
    forall k ensures WithKey(ys, key, k) == WithKey(StableSort(xs, key), key, k) {
      StableSortStable(xs, key, k);
    }
    SortedListsAgree(ys, StableSort(xs, key), key);
  }

  /** A sorted list is left as it is, so sorting twice is sorting once. */
  lemma {:induction false} SortedIsFixed<T>(xs: seq<T>, key: T -> string)
    requires SortedBy(xs, key)
    ensures StableSort(xs, key) == xs
  {
    StableSortIsUnique(xs, xs, key);
  }

  lemma {:induction false} EmptyOrInhabited<T>(xs: seq<T>)
    ensures xs == [] || exists x :: x in xs
  {
    if xs != [] { assert xs[0] in xs; }
  }

  lemma {:induction false} WithKeySingleton<T>(xs: seq<T>, key: T -> string, x: T)
    requires x in xs && DistinctKeys(xs, key)
    ensures WithKey(xs, key, key(x)) == [x]
  {
    assert xs == [xs[0]] + xs[1..];
    if xs[0] == x {
      var rest := WithKey(xs[1..], key, key(x));
      WithKeyElements(xs[1..], key, key(x));
      EmptyOrInhabited(rest);
      assert forall y :: y in xs[1..] ==> key(y) != key(x);
    } else {
      var j :| 0 <= j < |xs| && xs[j] == x;
      assert key(xs[0]) != key(xs[j]);
      WithKeySingleton(xs[1..], key, x);
    }
  }

  /** With distinct keys, the order of the input does not matter. */
  lemma {:induction false} PermutationSortsAlike<T>(xs: seq<T>, ys: seq<T>, key: T -> string)
    requires DistinctKeys(xs, key) && DistinctKeys(ys, key)
    requires forall x :: x in xs <==> x in ys
    ensures StableSort(xs, key) == StableSort(ys, key)
  {
    StableSortSorts(ys, key);
    forall k ensures WithKey(StableSort(ys, key), key, k) == WithKey(xs, key, k) {
      StableSortStable(ys, key, k);
      WithKeyElements(xs, key, k);
      WithKeyElements(ys, key, k);
      if WithKey(xs, key, k) + WithKey(ys, key, k) != [] {
        var x := (WithKey(xs, key, k) + WithKey(ys, key, k))[0];
        assert x in WithKey(xs, key, k) || x in WithKey(ys, key, k);
        assert x in xs && x in ys && key(x) == k;
        WithKeySingleton(xs, key, x);
        WithKeySingleton(ys, key, x);
      }
    }
    StableSortIsUnique(xs, StableSort(ys, key), key);
  }
}
