/** The stored pin set is canonical: it depends on which CIDs it holds and on nothing else. */
module PinTries {
  import opened Sequences
  import opened Sorting
  import opened Dag
  import opened PinSet

  /** Different CIDs have different bytes. */
  ghost predicate Injective(h: Hashing) {
    forall x, y :: h.bytes(x) == h.bytes(y) ==> x == y
  }

  lemma {:induction false} FilterCount(xs: seq<Cid>, p: Cid -> bool, x: Cid)
    ensures multiset(Filter(xs, p))[x] == if p(x) then multiset(xs)[x] else 0
  {
    if xs == [] {
    } else {
      FilterCount(xs[..|xs| - 1], p, x);
      assert xs == xs[..|xs| - 1] + [xs[|xs| - 1]];
    }
  }

  lemma {:induction false} FilterPermutes(xs: seq<Cid>, ys: seq<Cid>, p: Cid -> bool)
    requires multiset(xs) == multiset(ys)
    ensures multiset(Filter(xs, p)) == multiset(Filter(ys, p))
    ensures Filter(xs, p) == [] <==> Filter(ys, p) == []
  {
    forall x ensures multiset(Filter(xs, p))[x] == multiset(Filter(ys, p))[x] {
      FilterCount(xs, p, x);
      FilterCount(ys, p, x);
    }
    assert multiset(Filter(xs, p)) == multiset(Filter(ys, p));
    SameLength(Filter(xs, p), Filter(ys, p));
  }

  lemma {:induction false} SameLength(xs: seq<Cid>, ys: seq<Cid>)
    requires multiset(xs) == multiset(ys)
    ensures |xs| == |ys|
  {
    assert |multiset(xs)| == |xs| && |multiset(ys)| == |ys|;
  }

  /** Two sorted lists of the same links are equal, as no two CIDs have the same bytes. */
  lemma {:induction false} SortedItemsAgree(h: Hashing, xs: seq<Link>, ys: seq<Link>)
    requires Injective(h) && Unnamed(xs) && Unnamed(ys) && SortedBy(xs, CidKey(h)) && SortedBy(ys, CidKey(h))
    requires multiset(LinkCids(xs)) == multiset(LinkCids(ys))
    ensures xs == ys
    decreases |xs|
  {
    SameLength(LinkCids(xs), LinkCids(ys));
    if xs == [] {
    } else {
      FirstIsSmaller(h, xs, ys);
      FirstIsSmaller(h, ys, xs);
      StrLeAntisymmetric(h.bytes(xs[0].cid), h.bytes(ys[0].cid));
      assert xs[0] == ys[0];
      SameTails(xs, ys);
      SortedItemsAgree(h, xs[1..], ys[1..]);
      assert xs == [xs[0]] + xs[1..] && ys == [ys[0]] + ys[1..];
    }
  }

  lemma {:induction false} SameTails(xs: seq<Link>, ys: seq<Link>)
    requires xs != [] && ys != [] && xs[0] == ys[0] && multiset(LinkCids(xs)) == multiset(LinkCids(ys))
    ensures multiset(LinkCids(xs[1..])) == multiset(LinkCids(ys[1..]))
  {
    assert LinkCids(xs) == [xs[0].cid] + LinkCids(xs[1..]) && LinkCids(ys) == [ys[0].cid] + LinkCids(ys[1..]);
    assert multiset(LinkCids(xs[1..])) == multiset(LinkCids(xs)) - multiset{xs[0].cid};
    assert multiset(LinkCids(ys[1..])) == multiset(LinkCids(ys)) - multiset{xs[0].cid};
  }

  lemma {:induction false} FirstIsSmaller(h: Hashing, xs: seq<Link>, ys: seq<Link>)
    requires xs != [] && ys != [] && SortedBy(xs, CidKey(h)) && multiset(LinkCids(xs)) == multiset(LinkCids(ys))
    ensures StrLe(h.bytes(xs[0].cid), h.bytes(ys[0].cid))
  {
    var c := LinkCids(ys)[0];
    assert c in multiset(LinkCids(ys)) && c in multiset(LinkCids(xs));
    var i :| 0 <= i < |xs| && LinkCids(xs)[i] == c;
    FirstIsLeast(xs, CidKey(h), xs[i]);
  }

  /** Lists with the same elements are stored as the same node, at every level of the trie. */
  lemma {:induction false} TrieIsCanonical(h: Hashing, n: Node, m: Node, xs: seq<Cid>, ys: seq<Cid>, depth: uint32)
    requires Injective(h) && multiset(xs) == multiset(ys)
    requires IsTrie(h, n, xs, |xs|, depth) && IsTrie(h, m, ys, |ys|, depth)
    ensures n == m
    decreases n
  {
    PartsPermute(xs, ys);
    SortedItemsAgree(h, n.links[FANOUT..], m.links[FANOUT..]);
    forall b | 0 <= b < FANOUT ensures n.links[b] == m.links[b] {
      SlotIsCanonical(h, n, m, Overflow(xs, |xs|), Overflow(ys, |ys|), depth, b);
    }
    SameHalves(n.links, m.links);
  }

  /** With the right estimate a node keeps all items itself or none. */
  lemma {:induction false} PartsPermute(xs: seq<Cid>, ys: seq<Cid>)
    requires multiset(xs) == multiset(ys)
    ensures multiset(LeafPart(xs, |xs|)) == multiset(LeafPart(ys, |ys|))
    ensures multiset(Overflow(xs, |xs|)) == multiset(Overflow(ys, |ys|))
  {
    SameLength(xs, ys);
  }

  lemma {:induction false} SameHalves(xs: seq<Link>, ys: seq<Link>)
    requires FANOUT <= |xs| && FANOUT <= |ys| && xs[FANOUT..] == ys[FANOUT..]
    requires forall b :: 0 <= b < FANOUT ==> xs[b] == ys[b]
    ensures xs == ys
  {
    assert xs[..FANOUT] == ys[..FANOUT];
    assert xs == xs[..FANOUT] + xs[FANOUT..] && ys == ys[..FANOUT] + ys[FANOUT..];
  }

  lemma {:induction false} SlotIsCanonical(
      h: Hashing, n: Node, m: Node, xs: seq<Cid>, ys: seq<Cid>, depth: uint32, b: nat)
    requires Injective(h) && multiset(xs) == multiset(ys) && b < FANOUT && n.ProtoNode? && m.ProtoNode?
    requires FANOUT <= |n.links| && FANOUT <= |m.links| && n.links[b].name == m.links[b].name
    requires SlotHolds(h, depth, n.links[b].cid, Filter(xs, InBucket(h, depth, b)))
    requires SlotHolds(h, depth, m.links[b].cid, Filter(ys, InBucket(h, depth, b)))
    ensures n.links[b] == m.links[b]
    decreases n, 0
  {
    FilterPermutes(xs, ys, InBucket(h, depth, b));
    var c := n.links[b].cid;
    if Filter(xs, InBucket(h, depth, b)) != [] {
      TrieIsCanonical(h, c.block, m.links[b].cid.block, Filter(xs, InBucket(h, depth, b)),
                      Filter(ys, InBucket(h, depth, b)), NextDepth(depth));
    }
  }

  lemma {:induction false} SameElementsOnce(xs: seq<Cid>, ys: seq<Cid>)
    requires NoDuplicates(xs) && NoDuplicates(ys) && forall x :: x in xs <==> x in ys
    ensures multiset(xs) == multiset(ys)
  {
    forall x ensures multiset(xs)[x] == multiset(ys)[x] {
      CountOnce(xs, x);
      CountOnce(ys, x);
    }
  }

  lemma {:induction false} CountOnce(xs: seq<Cid>, x: Cid)
    requires NoDuplicates(xs)
    ensures multiset(xs)[x] == if x in xs then 1 else 0
  {
    if xs == [] {
    } else {
      CountOnce(xs[1..], x);
      assert xs == [xs[0]] + xs[1..];
    }
  }

  /** The trie of a set, whichever way its elements are listed. */
  ghost predicate IsSetTrie(h: Hashing, n: Node, s: set<Cid>) {
    exists xs :: NoDuplicates(xs) && (forall x :: x in xs <==> x in s) && IsTrie(h, n, xs, |xs|, 0)
  }

  lemma {:induction false} SetTrieIsUnique(h: Hashing, n: Node, m: Node, s: set<Cid>)
    requires Injective(h) && IsSetTrie(h, n, s) && IsSetTrie(h, m, s)
    ensures n == m
  {
    var xs :| NoDuplicates(xs) && (forall x :: x in xs <==> x in s) && IsTrie(h, n, xs, |xs|, 0);
    var ys :| NoDuplicates(ys) && (forall x :: x in ys <==> x in s) && IsTrie(h, m, ys, |ys|, 0);
    SameElementsOnce(xs, ys);
    TrieIsCanonical(h, n, m, xs, ys, 0);
  }
}
