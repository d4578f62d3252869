/** Order-preserving filtering of a sequence, as the source's append loops compute it. */
module Sequences {

  function Filter<T>(xs: seq<T>, p: T -> bool): seq<T>
  {
    if xs == [] then []
    else Filter(xs[..|xs| - 1], p) + (if p(xs[|xs| - 1]) then [xs[|xs| - 1]] else [])
  }

  /** One more round of the loop that appends the elements satisfying `p`. */
  lemma {:induction false} FilterStep<T>(xs: seq<T>, p: T -> bool, i: nat)
    requires i < |xs|
    ensures Filter(xs[..i + 1], p) == Filter(xs[..i], p) + (if p(xs[i]) then [xs[i]] else [])
  {
    assert xs[..i + 1][..i] == xs[..i];
  }

  lemma {:induction false} FilterElements<T>(xs: seq<T>, p: T -> bool)
    ensures forall x :: x in Filter(xs, p) ==> x in xs && p(x)
    ensures forall x :: x in xs && p(x) ==> x in Filter(xs, p)
    ensures |Filter(xs, p)| <= |xs|
  {
    if xs == [] {
    } else {
      FilterElements(xs[..|xs| - 1], p);
      assert xs == xs[..|xs| - 1] + [xs[|xs| - 1]];
    }
  }

  /** Splitting a filter in two disjoint ones loses nothing. */
  lemma {:induction false} FilterSplit<T>(xs: seq<T>, p: T -> bool, q: T -> bool, r: T -> bool)
    requires forall x :: p(x) <==> q(x) || r(x)
    requires forall x :: !(q(x) && r(x))
    ensures multiset(Filter(xs, p)) == multiset(Filter(xs, q)) + multiset(Filter(xs, r))
  {
    if xs == [] {
    } else {
      FilterSplit(xs[..|xs| - 1], p, q, r);
    }
  }

  lemma {:induction false} FilterAll<T>(xs: seq<T>, p: T -> bool)
    requires forall x :: x in xs ==> p(x)
    ensures Filter(xs, p) == xs
  {
    if xs == [] {
    } else {
      FilterAll(xs[..|xs| - 1], p);
      assert xs == xs[..|xs| - 1] + [xs[|xs| - 1]];
    }
  }

  lemma {:induction false} FilterNone<T>(xs: seq<T>, p: T -> bool)
    requires forall x :: x in xs ==> !p(x)
    ensures Filter(xs, p) == []
  {
    if xs == [] {
    } else {
      FilterNone(xs[..|xs| - 1], p);
    }
  }

  /** Filtering twice is filtering once by the conjunction. */
  lemma {:induction false} FilterTwice<T>(xs: seq<T>, p: T -> bool, q: T -> bool, r: T -> bool)
    requires forall x :: x in xs ==> (r(x) <==> p(x) && q(x))
    ensures Filter(Filter(xs, p), q) == Filter(xs, r)
  {
    if xs == [] {
    } else {
      var ys, z := xs[..|xs| - 1], xs[|xs| - 1];
      FilterTwice(ys, p, q, r);
      if p(z) {
        var fs := Filter(ys, p) + [z];
        assert fs[..|fs| - 1] == Filter(ys, p);
      } else {
        assert Filter(xs, p) == Filter(ys, p);
      }
    }
  }

  ghost predicate NoDuplicates<T>(xs: seq<T>) {
    forall i, j :: 0 <= i < j < |xs| ==> xs[i] != xs[j]
  }

  lemma {:induction false} NoDuplicatesAppend<T>(xs: seq<T>, ys: seq<T>)
    requires NoDuplicates(xs) && NoDuplicates(ys)
    requires forall x :: x in xs ==> x !in ys
    ensures NoDuplicates(xs + ys)
  {
    forall i, j | 0 <= i < j < |xs + ys| ensures (xs + ys)[i] != (xs + ys)[j] {
      if i < |xs| <= j {
        assert xs[i] in xs && ys[j - |xs|] in ys;
      }
    }
  }

  lemma {:induction false} NoDuplicatesBound<T>(xs: seq<T>, s: set<T>)
    requires NoDuplicates(xs)
    requires forall x :: x in xs ==> x in s
    ensures |xs| <= |s|
  {
    if xs == [] {
    } else {
      var ys, z := xs[..|xs| - 1], xs[|xs| - 1];
      NoDuplicatesBound(ys, s - {z});
    }
  }

  lemma {:induction false} FilterNoDuplicates<T>(xs: seq<T>, p: T -> bool)
    requires NoDuplicates(xs)
    ensures NoDuplicates(Filter(xs, p))
  {
    if xs == [] {
    } else {
      var ys := xs[..|xs| - 1];
      FilterNoDuplicates(ys, p);
      FilterElements(ys, p);
    }
  }
}
