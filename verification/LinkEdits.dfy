/**
 Editing the links of a node: what replacing or removing a named link does to
 the node's CID, seen as a map from names to children.
 */
module LinkEdits {
  import opened Sequences
  import opened Sorting
  import opened Dag

  /** The child a name resolves to. */
  function Child(c: Cid, name: string): Option<Cid> {
    match FindLink(NodeLinks(c.block), name)
    case None => None
    case Some(l) => Some(l.cid)
  }

  function NotNamed(name: string): Link -> bool {
    (l: Link) => l.name != name
  }

  /** `RemoveNodeLink` and a re-encoding. */
  function WithoutLink(c: Cid, name: string): Cid
    requires c.block.ProtoNode?
  {
    CidOf(c.block.(links := Filter(c.block.links, NotNamed(name))))
  }

  /** `RemoveNodeLink`, `AddNodeLink` and a re-encoding. */
  function WithLink(c: Cid, name: string, child: Cid): Cid
    requires c.block.ProtoNode?
  {
    CidOf(c.block.(links := Filter(c.block.links, NotNamed(name)) + [Link(name, child)]))
  }

  /** An encoded protobuf node without two links of the same name. */
  ghost predicate Named(c: Cid) {
    && c.block.ProtoNode? && CidOf(c.block) == c
    && DistinctKeys(c.block.links, LinkName)
  }

  lemma {:induction false} FindLinkFinds(ls: seq<Link>, name: string)
    ensures FindLink(ls, name).Some? ==> FindLink(ls, name).value in ls && FindLink(ls, name).value.name == name
    ensures FindLink(ls, name).None? <==> forall l :: l in ls ==> l.name != name
  {
    if ls == [] {
    } else {
      assert ls == [ls[0]] + ls[1..];
      FindLinkFinds(ls[1..], name);
    }
  }

  /** With distinct names, a name finds the one link that has it. */
  lemma {:induction false} FindLinkOf(ls: seq<Link>, l: Link)
    requires DistinctKeys(ls, LinkName) && l in ls
    ensures FindLink(ls, l.name) == Some(l)
  {
    FindLinkFinds(ls, l.name);
    var f := FindLink(ls, l.name).value;
    var i :| 0 <= i < |ls| && ls[i] == l;
    var j :| 0 <= j < |ls| && ls[j] == f;
    assert LinkName(ls[i]) == LinkName(ls[j]);
  }

  lemma {:induction false} DistinctWithOneMore(x: Link, xs: seq<Link>)
    requires DistinctKeys(xs, LinkName) && forall l :: l in xs ==> l.name != x.name
    ensures DistinctKeys([x] + xs, LinkName) && DistinctKeys(xs + [x], LinkName)
  {
    assert forall i :: 0 <= i < |xs| ==> xs[i] in xs;
  }

  lemma {:induction false} DistinctFilter(ls: seq<Link>, p: Link -> bool)
    requires DistinctKeys(ls, LinkName)
    ensures DistinctKeys(Filter(ls, p), LinkName)
  {
    if ls == [] {
    } else {
      var front := ls[..|ls| - 1];
      DistinctFilter(front, p);
      FilterElements(front, p);
      var fs := Filter(ls, p);
      forall i, j | 0 <= i < j < |fs| ensures LinkName(fs[i]) != LinkName(fs[j]) {
        if j == |fs| - 1 && p(ls[|ls| - 1]) {
          assert fs[i] == Filter(front, p)[i];
          assert fs[i] in front;
        }
      }
    }
  }

  lemma {:induction false} FindLinkSnoc(xs: seq<Link>, x: Link, name: string)
    ensures FindLink(xs + [x], name) ==
            if FindLink(xs, name).Some? then FindLink(xs, name) else if x.name == name then Some(x) else None
  {
    if xs == [] {
      assert [x][1..] == [];
    } else {
      FindLinkSnoc(xs[1..], x, name);
      assert (xs + [x])[1..] == xs[1..] + [x];
    }
  }

  /** Removing the links of one name changes what this name finds and nothing else. */
  lemma {:induction false} FindLinkWithout(ls: seq<Link>, name: string, other: string)
    ensures FindLink(Filter(ls, NotNamed(name)), other) == if other == name then None else FindLink(ls, other)
  {
    if ls == [] {
    } else {
      var front, l := ls[..|ls| - 1], ls[|ls| - 1];
      FindLinkWithout(front, name, other);
      FindLinkSnoc(front, l, other);
      FindLinkSnoc(Filter(front, NotNamed(name)), l, other);
      assert ls == front + [l];
      assert Filter(front, NotNamed(name)) + [] == Filter(front, NotNamed(name));
    }
  }

  /** A name finds the first link that has it. */
  lemma {:induction false} FindLinkIsFirst(ls: seq<Link>, name: string)
    ensures var ms := WithKey(ls, LinkName, name);
            FindLink(ls, name) == if ms == [] then None else Some(ms[0])
  {
    if ls == [] {
    } else {
      FindLinkIsFirst(ls[1..], name);
    }
  }

  /** Encoding resolves every name as before, and keeps names distinct. */
  lemma {:induction false} EncodingKeepsChildren(n: Node, name: string)
    requires n.ProtoNode?
    ensures FindLink(CidOf(n).block.links, name) == FindLink(n.links, name) && CidOf(n).block.data == n.data
    ensures DistinctKeys(n.links, LinkName) ==> Named(CidOf(n))
  {
    var ls := StableSort(n.links, LinkName);
    StableSortStable(n.links, LinkName, name);
    FindLinkIsFirst(n.links, name);
    FindLinkIsFirst(ls, name);
    StableSortSorts(n.links, LinkName);
    SortedIsFixed(ls, LinkName);
    if DistinctKeys(n.links, LinkName) { DistinctAfterSort(n.links); }
  }

  lemma {:induction false} SameElements(xs: seq<Link>, ys: seq<Link>)
    requires multiset(xs) == multiset(ys)
    ensures forall l :: l in xs <==> l in ys
  {
    forall l ensures l in xs <==> l in ys {
      assert l in multiset(xs) <==> l in multiset(ys);
    }
  }

  lemma {:induction false} DistinctAfterSort(ls: seq<Link>)
    requires DistinctKeys(ls, LinkName)
    ensures DistinctKeys(StableSort(ls, LinkName), LinkName)
  {
    if ls == [] {
    } else {
      DistinctAfterSort(ls[1..]);
      var t := StableSort(ls[1..], LinkName);
      StableSortPermutes(ls[1..], LinkName);
      SameElements(t, ls[1..]);
      InsertKeepsDistinct(ls[0], t);
    }
  }

  lemma {:induction false} InsertKeepsDistinct(x: Link, xs: seq<Link>)
    requires DistinctKeys(xs, LinkName) && forall l :: l in xs ==> l.name != x.name
    ensures DistinctKeys(Insert(x, xs, LinkName), LinkName)
  {
    if xs == [] || StrLe(LinkName(x), LinkName(xs[0])) {
    } else {
      InsertKeepsDistinct(x, xs[1..]);
      InsertPermutes(x, xs[1..], LinkName);
      SameElements(Insert(x, xs[1..], LinkName), [x] + xs[1..]);
      forall l | l in Insert(x, xs[1..], LinkName) ensures l.name != xs[0].name {
        assert l == x || l in xs[1..];
      }
      DistinctWithOneMore(xs[0], Insert(x, xs[1..], LinkName));
    }
  }

  /** Removing a link changes what its name resolves to, and nothing else. */
  lemma {:induction false} WithoutLinkChildren(c: Cid, name: string, other: string)
    requires c.block.ProtoNode?
    ensures Child(WithoutLink(c, name), other) == if other == name then None else Child(c, other)
    ensures WithoutLink(c, name).block.data == c.block.data && (Named(c) ==> Named(WithoutLink(c, name)))
  {
    FindLinkWithout(c.block.links, name, other);
    EncodingKeepsChildren(c.block.(links := Filter(c.block.links, NotNamed(name))), other);
    if Named(c) { DistinctFilter(c.block.links, NotNamed(name)); }
  }

  /** Setting a link changes what its name resolves to, and nothing else. */
  lemma {:induction false} WithLinkChildren(c: Cid, name: string, child: Cid, other: string)
    requires c.block.ProtoNode?
    ensures Child(WithLink(c, name, child), other) == if other == name then Some(child) else Child(c, other)
    ensures WithLink(c, name, child).block.data == c.block.data && (Named(c) ==> Named(WithLink(c, name, child)))
  {
    var fs := Filter(c.block.links, NotNamed(name));
    FindLinkWithout(c.block.links, name, other);
    FindLinkSnoc(fs, Link(name, child), other);
    EncodingKeepsChildren(c.block.(links := fs + [Link(name, child)]), other);
    if Named(c) {
      DistinctFilter(c.block.links, NotNamed(name));
      FilterElements(c.block.links, NotNamed(name));
      DistinctWithOneMore(Link(name, child), fs);
    }
  }

  /** A node is determined by its data and what its names resolve to. */
  lemma {:induction false} NamedExtensional(c: Cid, d: Cid)
    requires Named(c) && Named(d) && c.block.data == d.block.data
    requires forall name :: Child(c, name) == Child(d, name)
    ensures c == d
  {
    var xs, ys := c.block.links, d.block.links;
    forall l ensures l in xs <==> l in ys {
      assert Child(c, l.name) == Child(d, l.name);
      FindLinkFinds(xs, l.name);
      FindLinkFinds(ys, l.name);
      if l in xs { FindLinkOf(xs, l); }
      if l in ys { FindLinkOf(ys, l); }
    }
    PermutationSortsAlike(xs, ys, LinkName);
  }

  lemma {:induction false} ChildIsLink(c: Cid, name: string)
    requires Child(c, name).Some?
    ensures Child(c, name).value in Links(c)
  {
    FindLinkFinds(NodeLinks(c.block), name);
    var l := FindLink(NodeLinks(c.block), name).value;
    var i :| 0 <= i < |NodeLinks(c.block)| && NodeLinks(c.block)[i] == l;
    assert Links(c)[i] == l.cid;
  }
}
