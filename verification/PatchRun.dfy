/**
 What the edits listed by `Diff` do to the tree, apart from any store: they turn
 `a` into a node with the links of `b` and the data of `a`.

 The proof follows the list. The changes below the first links of `a` lead to a mixed
 node, in which these links are patched and the others are as in `a`. The removals and
 the additions then make the remaining names those of `b`. All along, the nodes that an
 edit has to read are in the store or were written by the edit before it (`Covered`).
 */
module DiffRuns {
  import opened Sequences
  import opened Sorting
  import opened Dag
  import opened LinkEdits
  import opened Paths
  import opened DagEditor
  import opened DagDiff
  import opened DagPatch

  ghost predicate ValidNames(c: Cid) {
    forall l :: l in NodeLinks(c.block) ==> ValidName(l.name)
  }

  /**
   What a diff asks of its inputs: encoded protobuf nodes with distinct valid link
   names, in every pair of nodes that it descends into, and protobuf nodes among
   the added ones.
   */
  ghost predicate Comparable(a: Cid, b: Cid)
    decreases a
  {
    && Named(a) && Named(b) && ValidNames(a) && ValidNames(b)
    && (forall i :: 0 <= i < |a.block.links| ==>
          var l := a.block.links[i];
          Child(b, l.name).Some? && Child(b, l.name).value != l.cid ==>
            var y := Child(b, l.name).value;
            && l.cid.block.ProtoNode? && y.block.ProtoNode?
            && ((IsLeaf(l.cid) && IsLeaf(y)) || Comparable(l.cid, y)))
    && (forall l :: l in b.block.links && Child(a, l.name).None? ==> l.cid.block.ProtoNode?)
  }

  /** `r` has the links of `b`, patched in turn, and the data of `a`. */
  ghost predicate PatchOf(a: Cid, b: Cid, r: Cid)
    decreases b, 0
  {
    && Named(r) && r.block.data == a.block.data
    && (forall x :: Child(r, x).Some? <==> Child(b, x).Some?)
    && (forall j :: 0 <= j < |NodeLinks(b.block)| ==>
          var l := NodeLinks(b.block)[j];
          Child(r, l.name).Some? && ChildPatched(Child(a, l.name), l.cid, Child(r, l.name).value))
  }

  ghost predicate ChildPatched(before: Option<Cid>, target: Cid, after: Cid)
    decreases target, 1
  {
    if before.None? || before.value == target || (IsLeaf(before.value) && IsLeaf(target)) then after == target
    else PatchOf(before.value, target, after)
  }

  // ----- Lists of edits -----

  lemma {:induction false} EditsAppend(xs: seq<Change>, ys: seq<Change>)
    ensures Edits(xs + ys) == Edits(xs) + Edits(ys)
  {
    if xs == [] {
      assert xs + ys == ys;
    } else {
      assert (xs + ys)[1..] == xs[1..] + ys;
      EditsAppend(xs[1..], ys);
    }
  }

  lemma {:induction false} TreeRunAppend(c: Cid, xs: seq<Edit>, ys: seq<Edit>)
    requires c.block.ProtoNode? && TreeRun(c, xs).Some?
    ensures TreeRun(c, xs + ys) == TreeRun(TreeRun(c, xs).value, ys)
    decreases |xs|
  {
    if xs == [] {
      assert xs + ys == ys;
    } else {
      assert (xs + ys)[1..] == xs[1..] + ys;
      TreeRunAppend(TreeEdit(c, xs[0].path, xs[0].op).value, xs[1..], ys);
    }
  }

  lemma {:induction false} CoveredAppend(c: Cid, xs: seq<Edit>, ys: seq<Edit>, prev: seq<string>, src: set<Cid>)
    requires c.block.ProtoNode? && TreeRun(c, xs).Some? && Covered(c, xs, prev, src)
    requires Covered(TreeRun(c, xs).value, ys, [], src)
    ensures Covered(c, xs + ys, prev, src)
    decreases |xs|
  {
    if xs == [] {
      assert xs + ys == ys;
    } else {
      assert (xs + ys)[1..] == xs[1..] + ys && (xs + ys)[0] == xs[0];
      CoveredAppend(TreeEdit(c, xs[0].path, xs[0].op).value, xs[1..], ys, xs[0].path, src);
      assert CoveredFirst(c, (xs + ys)[0], prev, src);
    }
  }

  lemma {:induction false} AppendRun(a: Cid, c: Cid, r: Cid, xs: seq<Change>, ys: seq<Change>, src: set<Cid>)
    requires a.block.ProtoNode? && c.block.ProtoNode?
    requires TreeRun(a, Edits(xs)) == Some(c) && Covered(a, Edits(xs), [], src)
    requires TreeRun(c, Edits(ys)) == Some(r) && Covered(c, Edits(ys), [], src)
    ensures TreeRun(a, Edits(xs + ys)) == Some(r) && Covered(a, Edits(xs + ys), [], src)
  {
    EditsAppend(xs, ys);
    TreeRunAppend(a, Edits(xs), Edits(ys));
    CoveredAppend(a, Edits(xs), Edits(ys), [], src);
  }

  function Below(name: string, es: seq<Edit>): seq<Edit> {
    seq(|es|, i requires 0 <= i < |es| => es[i].(path := [name] + es[i].path))
  }

  ghost predicate NonemptyPaths(cs: seq<Change>) {
    forall i :: 0 <= i < |cs| ==> cs[i].path != ""
  }

  lemma {:induction false} EditsOfPrefixed(name: string, c: Change, d: Change)
    requires d == c.(path := d.path) && SplitList(d.path) == [name] + SplitList(c.path)
    ensures EditsOf(d) == Below(name, EditsOf(c))
  {
  }

  lemma {:induction false} BelowAppend(name: string, xs: seq<Edit>, ys: seq<Edit>)
    ensures Below(name, xs + ys) == Below(name, xs) + Below(name, ys)
  {
  }

  /** Joining a name in front of each change puts each edit below that name. */
  lemma {:induction false} EditsPrefixed(name: string, cs: seq<Change>)
    requires SlashFree(name) && NonemptyPaths(cs)
    ensures Edits(Prefixed(name, cs)) == Below(name, Edits(cs))
  {
    if cs == [] {
    } else {
      assert Prefixed(name, cs)[1..] == Prefixed(name, cs[1..]);
      EditsPrefixed(name, cs[1..]);
      SplitJoin(name, cs[0].path);
      EditsOfPrefixed(name, cs[0], Prefixed(name, cs)[0]);
      BelowAppend(name, EditsOf(cs[0]), Edits(cs[1..]));
    }
  }

  /** The node differs from `c` only in what one name resolves to. */
  ghost predicate Replaced(c: Cid, r: Cid, name: string, child: Option<Cid>) {
    && Named(r) && r.block.data == c.block.data
    && (forall x :: Child(r, x) == if x == name then child else Child(c, x))
  }

  lemma {:induction false} ReplacedByWithLink(c: Cid, name: string, child: Cid)
    requires Named(c)
    ensures Replaced(c, WithLink(c, name, child), name, Some(child))
  {
    forall x ensures Named(WithLink(c, name, child)) && WithLink(c, name, child).block.data == c.block.data
                     && Child(WithLink(c, name, child), x) == if x == name then Some(child) else Child(c, x)
    {
      WithLinkChildren(c, name, child, x);
    }
    WithLinkChildren(c, name, child, name);
  }

  lemma {:induction false} ReplacedByWithoutLink(c: Cid, name: string)
    requires Named(c)
    ensures Replaced(c, WithoutLink(c, name), name, None)
  {
    forall x ensures Child(WithoutLink(c, name), x) == if x == name then None else Child(c, x) {
      WithoutLinkChildren(c, name, x);
    }
    WithoutLinkChildren(c, name, name);
  }

  /** One edit below a child. */
  lemma {:induction false} EditBelow(c: Cid, name: string, e: Edit)
    requires Named(c) && e.path != [] && Child(c, name).Some? && Child(c, name).value.block.ProtoNode?
    requires TreeEdit(Child(c, name).value, e.path, e.op).Some?
    ensures TreeEdit(c, [name] + e.path, e.op) ==
            Some(WithLink(c, name, TreeEdit(Child(c, name).value, e.path, e.op).value))
  {
    assert ([name] + e.path)[1..] == e.path;
  }

  lemma {:induction false} SpineBelow(c: Cid, name: string, e: Edit)
    requires Named(c) && e.path != [] && Child(c, name).Some? && Child(c, name).value.block.ProtoNode?
    requires TreeEdit(Child(c, name).value, e.path, e.op).Some? && TreeEdit(c, [name] + e.path, e.op).Some?
    ensures Spine(c, [name] + e.path, e.op) == [c] + Spine(Child(c, name).value, e.path, e.op)
  {
    assert ([name] + e.path)[1..] == e.path;
  }

  ghost function OuterPath(name: string, prev: seq<string>): seq<string> {
    if prev == [] then [] else [name] + prev
  }

  lemma {:induction false} CoveredBelowFirst(c: Cid, name: string, x: Cid, e: Edit, prev: seq<string>, src: set<Cid>)
    requires Named(c) && Child(c, name) == Some(x) && x.block.ProtoNode? && (prev == [] ==> x in src)
    requires e.path != [] && TreeEdit(x, e.path, e.op).Some?
    requires TreeEdit(c, [name] + e.path, e.op).Some?
    requires forall d :: 0 < d < |e.path| && !(d < |prev| && SamePrefix(prev, e.path, d)) ==>
                           Spine(x, e.path, e.op)[d] in src
    ensures var path := [name] + e.path;
            var outer := OuterPath(name, prev);
            forall d :: 0 < d < |path| && !(d < |outer| && SamePrefix(outer, path, d)) ==>
                          Spine(c, path, e.op)[d] in src
  {
    SpineBelow(c, name, e);
    var path, outer := [name] + e.path, OuterPath(name, prev);
    forall d | 0 < d < |path| && !(d < |outer| && SamePrefix(outer, path, d)) ensures Spine(c, path, e.op)[d] in src {
      assert Spine(c, path, e.op)[d] == Spine(x, e.path, e.op)[d - 1];
      if prev != [] {
        assert d <= |outer| ==> outer[..d] == [name] + prev[..d - 1];
        assert path[..d] == [name] + e.path[..d - 1];
      }
    }
  }

  /** Edits below a child replace that child by what they make of it. */
  lemma {:induction false} RunBelow(c: Cid, name: string, x: Cid, es: seq<Edit>, prev: seq<string>, src: set<Cid>)
    returns (r: Cid)
    requires Named(c) && Child(c, name) == Some(x) && x.block.ProtoNode? && (prev == [] ==> x in src)
    requires TreeRun(x, es).Some? && Covered(x, es, prev, src)
    ensures TreeRun(c, Below(name, es)) == Some(r) && Replaced(c, r, name, TreeRun(x, es))
    ensures Covered(c, Below(name, es), OuterPath(name, prev), src)
    decreases |es|
  {
    var bs := Below(name, es);
    if es == [] {
      r := c;
    } else {
      var e := es[0];
      var y := TreeEdit(x, e.path, e.op).value;
      var c1 := WithLink(c, name, y);
      EditBelow(c, name, e);
      ReplacedByWithLink(c, name, y);
      r := RunBelow(c1, name, y, es[1..], e.path, src);
      assert bs[1..] == Below(name, es[1..]);
      CoveredBelowFirst(c, name, x, e, prev, src);
    }
  }

  // ----- Removed and added links -----

  lemma {:induction false} RemovalsCons(ls: seq<Link>)
    requires ls != [] && SlashFree(ls[0].name)
    ensures Edits(Removals(ls)) == [Edit([ls[0].name], DelLink)] + Edits(Removals(ls[1..]))
  {
    assert Removals(ls)[1..] == Removals(ls[1..]);
  }

  lemma {:induction false} AdditionsCons(ls: seq<Link>)
    requires ls != [] && SlashFree(ls[0].name)
    ensures Edits(Additions(ls)) == [Edit([ls[0].name], PutLink(ls[0].cid, None))] + Edits(Additions(ls[1..]))
  {
    assert Additions(ls)[1..] == Additions(ls[1..]);
  }

  lemma {:induction false} AdditionStep(c: Cid, c1: Cid, r: Cid, ls: seq<Link>, x: string)
    requires ls != [] && DistinctKeys(ls, LinkName) && Replaced(c, c1, ls[0].name, Some(ls[0].cid))
    requires Child(r, x) == if FindLink(ls[1..], x).Some? then Some(FindLink(ls[1..], x).value.cid) else Child(c1, x)
    ensures Child(r, x) == if FindLink(ls, x).Some? then Some(FindLink(ls, x).value.cid) else Child(c, x)
  {
    FindLinkFinds(ls[1..], x);
    forall m | m in ls[1..] ensures m.name != ls[0].name {
      var j :| 0 <= j < |ls[1..]| && ls[1..][j] == m;
      assert LinkName(ls[0]) != LinkName(ls[j + 1]);
    }
  }

  lemma {:induction false} RemovalStep(c: Cid, c1: Cid, r: Cid, ls: seq<Link>, x: string)
    requires ls != [] && Replaced(c, c1, ls[0].name, None)
    requires Child(r, x) == if FindLink(ls[1..], x).Some? then None else Child(c1, x)
    ensures Child(r, x) == if FindLink(ls, x).Some? then None else Child(c, x)
  {
    assert ls == [ls[0]] + ls[1..];
  }

  lemma {:induction false} DelOne(c: Cid, name: string)
    requires c.block.ProtoNode? && Child(c, name).Some?
    ensures TreeEdit(c, [name], DelLink) == Some(WithoutLink(c, name))
  {
  }

  /** Removing a list of links leaves exactly the other names. */
  lemma {:induction false} RunRemovals(c: Cid, ls: seq<Link>, src: set<Cid>) returns (r: Cid)
    requires Named(c) && DistinctKeys(ls, LinkName)
    requires forall l :: l in ls ==> SlashFree(l.name) && Child(c, l.name).Some?
    ensures TreeRun(c, Edits(Removals(ls))) == Some(r) && Covered(c, Edits(Removals(ls)), [], src)
    ensures Named(r) && r.block.data == c.block.data
    ensures forall x :: Child(r, x) == if FindLink(ls, x).Some? then None else Child(c, x)
    decreases |ls|
  {
    if ls == [] {
      r := c;
    } else {
      var l := ls[0];
      assert l in ls;
      var c1 := WithoutLink(c, l.name);
      ReplacedByWithoutLink(c, l.name);
      assert forall m :: m in ls[1..] ==> m in ls && m.name != l.name;
      r := RunRemovals(c1, ls[1..], src);
      RemovalsCons(ls);
      DelOne(c, l.name);
      RunCons(c, Edit([l.name], DelLink), Edits(Removals(ls[1..])), src);
      forall x ensures Child(r, x) == if FindLink(ls, x).Some? then None else Child(c, x) {
        RemovalStep(c, c1, r, ls, x);
      }
    }
  }

  lemma {:induction false} RunCons(c: Cid, e: Edit, es: seq<Edit>, src: set<Cid>)
    requires c.block.ProtoNode? && |e.path| == 1 && TreeEdit(c, e.path, e.op).Some? && CreateOf(e.op).None?
    requires Covered(TreeEdit(c, e.path, e.op).value, es, [], src)
    ensures TreeRun(c, [e] + es) == TreeRun(TreeEdit(c, e.path, e.op).value, es)
    ensures Covered(c, [e] + es, [], src)
  {
    assert ([e] + es)[1..] == es;
  }

  /** Adding a list of links sets exactly their names. */
  lemma {:induction false} RunAdditions(c: Cid, ls: seq<Link>, src: set<Cid>) returns (r: Cid)
    requires Named(c) && DistinctKeys(ls, LinkName)
    requires forall l :: l in ls ==> SlashFree(l.name) && l.name != ""
    ensures TreeRun(c, Edits(Additions(ls))) == Some(r) && Covered(c, Edits(Additions(ls)), [], src)
    ensures Named(r) && r.block.data == c.block.data
    ensures forall x :: Child(r, x) == if FindLink(ls, x).Some? then Some(FindLink(ls, x).value.cid) else Child(c, x)
    decreases |ls|
  {
    if ls == [] {
      r := c;
    } else {
      var l := ls[0];
      assert l in ls;
      var c1 := WithLink(c, l.name, l.cid);
      ReplacedByWithLink(c, l.name, l.cid);
      assert forall m :: m in ls[1..] ==> m in ls;
      r := RunAdditions(c1, ls[1..], src);
      AdditionsCons(ls);
      RunCons(c, Edit([l.name], PutLink(l.cid, None)), Edits(Additions(ls[1..])), src);
      forall x ensures Child(r, x) ==
        if FindLink(ls, x).Some? then Some(FindLink(ls, x).value.cid) else Child(c, x)
      {
        AdditionStep(c, c1, r, ls, x);
      }
    }
  }

  // ----- The links that both nodes have -----

  ghost predicate NameBefore(a: Cid, i: nat, x: string)
    requires a.block.ProtoNode? && i <= |a.block.links|
  {
    exists j :: 0 <= j < i && a.block.links[j].name == x
  }

  /** The node after the changes that the first `i` links of `a` contribute. */
  ghost predicate Mixed(a: Cid, b: Cid, i: nat, r: Cid)
    requires a.block.ProtoNode? && i <= |a.block.links|
  {
    && Named(r) && r.block.data == a.block.data
    && (forall x :: if NameBefore(a, i, x) && Child(b, x).Some?
                    then Child(r, x).Some? && ChildPatched(Child(a, x), Child(b, x).value, Child(r, x).value)
                    else Child(r, x) == Child(a, x))
  }

  /** All that is known about the changes of one part of a diff. */
  ghost predicate Listed(cs: seq<Change>, ds: set<Cid>) {
    && NonemptyPaths(cs)
    && (forall i :: 0 <= i < |cs| ==> Fetchable(cs[i], ds))
  }

  lemma {:induction false} ListedAppend(xs: seq<Change>, ys: seq<Change>, ds: set<Cid>)
    requires Listed(xs, ds) && Listed(ys, ds)
    ensures Listed(xs + ys, ds)
  {
  }

  lemma {:induction false} MixedStep(a: Cid, b: Cid, i: nat, r: Cid, r': Cid, after: Cid)
    requires Named(a) && i < |a.block.links| && Mixed(a, b, i, r)
    requires var l := a.block.links[i];
             && Child(b, l.name).Some? && Replaced(r, r', l.name, Some(after))
             && ChildPatched(Some(l.cid), Child(b, l.name).value, after)
    ensures Mixed(a, b, i + 1, r')
  {
    var l := a.block.links[i];
    FindLinkOf(a.block.links, l);
    forall x ensures if NameBefore(a, i + 1, x) && Child(b, x).Some?
                     then Child(r', x).Some? && ChildPatched(Child(a, x), Child(b, x).value, Child(r', x).value)
                     else Child(r', x) == Child(a, x)
    {
      if x != l.name {
        assert NameBefore(a, i + 1, x) ==> NameBefore(a, i, x);
        assert NameBefore(a, i, x) ==> NameBefore(a, i + 1, x);
      } else {
        assert NameBefore(a, i + 1, x);
      }
    }
  }

  lemma {:induction false} MixedSame(a: Cid, b: Cid, i: nat, r: Cid)
    requires Named(a) && i < |a.block.links| && Mixed(a, b, i, r)
    requires var l := a.block.links[i]; Child(b, l.name).None? || Child(b, l.name).value == l.cid
    ensures Mixed(a, b, i + 1, r)
  {
    var l := a.block.links[i];
    FindLinkOf(a.block.links, l);
    forall x ensures if NameBefore(a, i + 1, x) && Child(b, x).Some?
                     then Child(r, x).Some? && ChildPatched(Child(a, x), Child(b, x).value, Child(r, x).value)
                     else Child(r, x) == Child(a, x)
    {
      if x != l.name {
        assert NameBefore(a, i + 1, x) ==> NameBefore(a, i, x);
        assert NameBefore(a, i, x) ==> NameBefore(a, i + 1, x);
      }
    }
  }

  lemma {:induction false} ExchangeEdits(name: string, before: Cid, y: Cid)
    requires ValidName(name)
    ensures Edits(Prefixed(name, [Change(Mod, "", Some(before), Some(y))]))
            == [Edit([name], DelLink)] + [Edit([name], PutLink(y, None))]
  {
    var ch := Change(Mod, name, Some(before), Some(y));
    assert Prefixed(name, [Change(Mod, "", Some(before), Some(y))]) == [ch];
    assert [ch][1..] == [];
    assert Edits([ch]) == EditsOf(ch) + [];
  }

  /** The two leaf nodes are exchanged: one removal, one addition. */
  lemma {:induction false} RunExchange(c: Cid, name: string, before: Cid, y: Cid, src: set<Cid>) returns (r: Cid)
    requires Named(c) && Child(c, name).Some? && ValidName(name)
    ensures var es := Edits(Prefixed(name, [Change(Mod, "", Some(before), Some(y))]));
            TreeRun(c, es) == Some(r) && Covered(c, es, [], src)
    ensures Replaced(c, r, name, Some(y))
  {
    var c1 := WithoutLink(c, name);
    ReplacedByWithoutLink(c, name);
    r := WithLink(c1, name, y);
    ReplacedByWithLink(c1, name, y);
    ExchangeEdits(name, before, y);
    RunDelPut(c, name, y, src);
  }

  lemma {:induction false} RunDelPut(c: Cid, name: string, y: Cid, src: set<Cid>)
    requires c.block.ProtoNode? && Child(c, name).Some? && name != ""
    ensures var es := [Edit([name], DelLink)] + [Edit([name], PutLink(y, None))];
            TreeRun(c, es) == Some(WithLink(WithoutLink(c, name), name, y)) && Covered(c, es, [], src)
  {
    var del, put := Edit([name], DelLink), Edit([name], PutLink(y, None));
    var c1 := WithoutLink(c, name);
    var r := WithLink(c1, name, y);
    assert TreeRun(r, []) == Some(r) && Covered(r, [], [], src);
    RunCons(c1, put, [], src);
    assert [put] + [] == [put];
    RunCons(c, del, [put], src);
  }

  // ----- The whole list -----

  lemma {:induction false} ListedPrefixed(name: string, cs: seq<Change>, ds: set<Cid>)
    requires name != "" && forall i :: 0 <= i < |cs| ==> Fetchable(cs[i], ds)
    ensures Listed(Prefixed(name, cs), ds)
  {
  }

  /** The i-th link of `a` leads, under the same name, to another node in `b`. */
  ghost predicate Differs(a: Cid, b: Cid, i: nat, x: Cid, y: Cid)
    requires a.block.ProtoNode? && i < |a.block.links|
  {
    x == a.block.links[i].cid && Child(b, a.block.links[i].name) == Some(y) && x != y
  }

  /** There is a list of changes, and its edits turn `a` into `r` with the nodes of the store. */
  ghost predicate Replays(changes: Option<seq<Change>>, a: Cid, r: Cid, ds: set<Cid>)
    requires a.block.ProtoNode?
  {
    && changes.Some? && Listed(changes.value, ds)
    && TreeRun(a, Edits(changes.value)) == Some(r) && Covered(a, Edits(changes.value), [], ds)
  }

  lemma {:induction false} DifferingLink(a: Cid, b: Cid, i: nat, c: Cid, ds: set<Cid>) returns (x: Cid, y: Cid)
    requires Comparable(a, b) && i < |a.block.links| && Complete(a, ds) && Complete(b, ds) && Mixed(a, b, i, c)
    requires Child(b, a.block.links[i].name).Some? && Child(b, a.block.links[i].name).value != a.block.links[i].cid
    ensures Differs(a, b, i, x, y) && Child(c, a.block.links[i].name) == Some(x) && ValidName(a.block.links[i].name)
    ensures x < a && Complete(x, ds) && Complete(y, ds) && x in ds && y in ds
    ensures x.block.ProtoNode? && y.block.ProtoNode? && ((IsLeaf(x) && IsLeaf(y)) || Comparable(x, y))
  {
    var l := a.block.links[i];
    x, y := l.cid, Child(b, l.name).value;
    FindLinkOf(a.block.links, l);
    LinkInLinks(a, l);
    LinkIsSmaller(a, x);
    CompleteLink(a, x, ds);
    ChildIsLink(b, l.name);
    CompleteLink(b, y, ds);
  }

  lemma {:induction false} DiffLinkBelow(a: Cid, b: Cid, i: nat, x: Cid, y: Cid, ds: set<Cid>)
    requires a.block.ProtoNode? && b.block.ProtoNode? && i < |a.block.links| && Differs(a, b, i, x, y)
    requires x.block.ProtoNode? && y.block.ProtoNode? && x in ds && y in ds && DiffList(x, y, ds).Some?
    ensures DiffLink(a, b, i, ds) == Some(Prefixed(a.block.links[i].name, DiffList(x, y, ds).value))
  {
  }

  lemma {:induction false} RunLeafLink(a: Cid, b: Cid, i: nat, c: Cid, x: Cid, y: Cid, ds: set<Cid>) returns (r: Cid)
    requires Comparable(a, b) && i < |a.block.links| && Mixed(a, b, i, c) && Differs(a, b, i, x, y)
    requires IsLeaf(x) && IsLeaf(y) && x.block.ProtoNode? && y.block.ProtoNode? && x in ds && y in ds
    requires Child(c, a.block.links[i].name) == Some(x) && ValidName(a.block.links[i].name)
    ensures Replays(DiffLink(a, b, i, ds), c, r, ds)
    ensures Mixed(a, b, i + 1, r)
  {
    var name := a.block.links[i].name;
    assert DiffList(x, y, ds) == Some([Change(Mod, "", Some(x), Some(y))]);
    DiffLinkBelow(a, b, i, x, y, ds);
    ListedPrefixed(name, DiffList(x, y, ds).value, ds);
    r := RunExchange(c, name, x, y, ds);
    MixedStep(a, b, i, c, r, y);
  }

  lemma {:induction false} RunDeepLink(a: Cid, b: Cid, i: nat, c: Cid, x: Cid, y: Cid, ds: set<Cid>, rc: Cid)
    returns (r: Cid)
    requires Comparable(a, b) && i < |a.block.links| && Mixed(a, b, i, c) && Differs(a, b, i, x, y)
    requires !(IsLeaf(x) && IsLeaf(y)) && x.block.ProtoNode? && y.block.ProtoNode? && x in ds && y in ds
    requires Child(c, a.block.links[i].name) == Some(x) && ValidName(a.block.links[i].name)
    requires Replays(DiffList(x, y, ds), x, rc, ds) && PatchOf(x, y, rc)
    ensures Replays(DiffLink(a, b, i, ds), c, r, ds)
    ensures Mixed(a, b, i + 1, r)
  {
    var name, sub := a.block.links[i].name, DiffList(x, y, ds).value;
    DiffLinkBelow(a, b, i, x, y, ds);
    ListedPrefixed(name, sub, ds);
    EditsPrefixed(name, sub);
    r := RunBelow(c, name, x, Edits(sub), [], ds);
    MixedStep(a, b, i, c, r, rc);
  }

  /** The changes below one link of `a` replace its child by the patched one. */
  lemma {:induction false} RunLink(a: Cid, b: Cid, i: nat, c: Cid, ds: set<Cid>) returns (r: Cid)
    requires Comparable(a, b) && i < |a.block.links| && Complete(a, ds) && Complete(b, ds)
    requires Mixed(a, b, i, c)
    ensures Replays(DiffLink(a, b, i, ds), c, r, ds)
    ensures Mixed(a, b, i + 1, r)
    decreases a, i, 0
  {
    var l := a.block.links[i];
    if Child(b, l.name).None? || Child(b, l.name).value == l.cid {
      MixedSame(a, b, i, c);
      r := c;
    } else {
      var x, y := DifferingLink(a, b, i, c, ds);
      if IsLeaf(x) && IsLeaf(y) {
        r := RunLeafLink(a, b, i, c, x, y, ds);
      } else {
        var rc := RunDiff(x, y, ds);
        r := RunDeepLink(a, b, i, c, x, y, ds, rc);
      }
    }
  }

  /** `r` is what the changes below the first `i` links of `a` make of it. */
  ghost predicate LinksRunTo(a: Cid, b: Cid, i: nat, r: Cid, ds: set<Cid>)
    requires a.block.ProtoNode? && b.block.ProtoNode? && i <= |a.block.links|
  {
    Mixed(a, b, i, r) && Replays(DiffLinks(a, b, i, ds), a, r, ds)
  }

  lemma {:induction false} NothingDone(a: Cid, b: Cid, ds: set<Cid>)
    requires Comparable(a, b)
    ensures LinksRunTo(a, b, 0, a, ds)
  {
  }

  /** What the first `i` links have done, followed by what the next one does. */
  lemma {:induction false} ReplaysNext(a: Cid, b: Cid, i: nat, c: Cid, r: Cid, ds: set<Cid>)
    requires a.block.ProtoNode? && b.block.ProtoNode? && c.block.ProtoNode? && i < |a.block.links|
    requires Replays(DiffLinks(a, b, i, ds), a, c, ds) && Replays(DiffLink(a, b, i, ds), c, r, ds)
    ensures Replays(DiffLinks(a, b, i + 1, ds), a, r, ds)
  {
    var xs, ys := DiffLinks(a, b, i, ds).value, DiffLink(a, b, i, ds).value;
    ListedAppend(xs, ys, ds);
    AppendRun(a, c, r, xs, ys, ds);
  }

  lemma {:induction false} NextLinkRun(a: Cid, b: Cid, i: nat, c: Cid, r: Cid, ds: set<Cid>, n: nat)
    requires a.block.ProtoNode? && b.block.ProtoNode? && n == i + 1 <= |a.block.links| && LinksRunTo(a, b, i, c, ds)
    requires Mixed(a, b, n, r) && Replays(DiffLink(a, b, i, ds), c, r, ds)
    ensures LinksRunTo(a, b, n, r, ds)
  {
    ReplaysNext(a, b, i, c, r, ds);
  }

  lemma {:induction false} OneMoreLink(a: Cid, b: Cid, i: nat, ds: set<Cid>, n: nat)
    requires Comparable(a, b) && Complete(a, ds) && Complete(b, ds) && n == i + 1 <= |a.block.links|
    requires exists c :: LinksRunTo(a, b, i, c, ds)
    ensures exists r :: LinksRunTo(a, b, n, r, ds)
    decreases a, i, 1
  {
    var c :| LinksRunTo(a, b, i, c, ds);
    var r := RunLink(a, b, i, c, ds);
    NextLinkRun(a, b, i, c, r, ds, n);
  }

  lemma {:induction false} RunLinks(a: Cid, b: Cid, ds: set<Cid>)
    requires Comparable(a, b) && Complete(a, ds) && Complete(b, ds)
    ensures exists r :: LinksRunTo(a, b, |a.block.links|, r, ds)
    decreases a, |a.block.links|
  {
    NothingDone(a, b, ds);
    for i := 0 to |a.block.links|
      invariant exists c :: LinksRunTo(a, b, i, c, ds)
    {
      OneMoreLink(a, b, i, ds, i + 1);
    }
  }

  lemma {:induction false} ListedRemovals(ls: seq<Link>, ds: set<Cid>)
    requires forall l :: l in ls ==> l.name != ""
    ensures Listed(Removals(ls), ds)
  {
    forall i | 0 <= i < |ls| ensures ls[i].name != "" {
      assert ls[i] in ls;
    }
  }

  lemma {:induction false} ListedAdditions(ls: seq<Link>, ds: set<Cid>)
    requires forall l :: l in ls ==> l.name != "" && l.cid in ds && l.cid.block.ProtoNode?
    ensures Listed(Additions(ls), ds)
  {
    forall i | 0 <= i < |ls| ensures ls[i].name != "" && ls[i].cid in ds && ls[i].cid.block.ProtoNode? {
      assert ls[i] in ls;
    }
  }

  lemma {:induction false} ListedLinks(a: Cid, b: Cid, ds: set<Cid>)
    requires Comparable(a, b) && Complete(b, ds)
    ensures Listed(Removals(Filter(a.block.links, MissingIn(b))), ds)
    ensures Listed(Additions(Filter(b.block.links, MissingIn(a))), ds)
  {
    FilterElements(a.block.links, MissingIn(b));
    FilterElements(b.block.links, MissingIn(a));
    ListedRemovals(Filter(a.block.links, MissingIn(b)), ds);
    forall l | l in Filter(b.block.links, MissingIn(a))
      ensures l.name != "" && l.cid in ds && l.cid.block.ProtoNode?
    {
      LinkInLinks(b, l);
      CompleteLink(b, l.cid, ds);
    }
    ListedAdditions(Filter(b.block.links, MissingIn(a)), ds);
  }

  /** After the removals and additions, the node is the patch. */
  lemma {:induction false} MixedIsPatch(a: Cid, b: Cid, m: Cid, c: Cid, r: Cid)
    requires Comparable(a, b) && Mixed(a, b, |a.block.links|, m)
    requires Named(c) && c.block.data == m.block.data && Named(r) && r.block.data == c.block.data
    requires forall x :: Child(c, x) ==
                           if FindLink(Filter(a.block.links, MissingIn(b)), x).Some? then None else Child(m, x)
    requires forall x :: Child(r, x) ==
               var f := FindLink(Filter(b.block.links, MissingIn(a)), x);
               if f.Some? then Some(f.value.cid) else Child(c, x)
    ensures PatchOf(a, b, r)
  {
    forall x ensures Child(r, x).Some? <==> Child(b, x).Some?
             ensures Child(b, x).Some? ==> ChildPatched(Child(a, x), Child(b, x).value, Child(r, x).value)
    {
      PatchedName(a, b, m, x);
      assert Child(c, x) == if FindLink(Filter(a.block.links, MissingIn(b)), x).Some? then None else Child(m, x);
    }
    forall j | 0 <= j < |NodeLinks(b.block)|
      ensures var l := NodeLinks(b.block)[j];
              Child(r, l.name).Some? && ChildPatched(Child(a, l.name), l.cid, Child(r, l.name).value)
    {
      FindLinkOf(b.block.links, b.block.links[j]);
    }
  }

  lemma {:induction false} PatchedName(a: Cid, b: Cid, m: Cid, x: string)
    requires Comparable(a, b) && Mixed(a, b, |a.block.links|, m)
    ensures FindLink(Filter(a.block.links, MissingIn(b)), x).Some? <==> Child(a, x).Some? && Child(b, x).None?
    ensures var f := FindLink(Filter(b.block.links, MissingIn(a)), x);
            && (f.Some? <==> Child(b, x).Some? && Child(a, x).None?)
            && (f.Some? ==> f.value.cid == Child(b, x).value)
    ensures Child(a, x).Some? && Child(b, x).Some? ==>
              Child(m, x).Some? && ChildPatched(Child(a, x), Child(b, x).value, Child(m, x).value)
    ensures Child(a, x).None? ==> Child(m, x).None?
  {
    MissingNames(a, b, x);
    MissingNames(b, a, x);
    FindLinkFinds(a.block.links, x);
    if Child(a, x).Some? {
      var l := FindLink(a.block.links, x).value;
      var j :| 0 <= j < |a.block.links| && a.block.links[j] == l;
      assert NameBefore(a, |a.block.links|, x);
    } else {
      assert forall j :: 0 <= j < |a.block.links| ==> a.block.links[j] in a.block.links;
      assert !NameBefore(a, |a.block.links|, x);
    }
  }

  lemma {:induction false} MissingNames(a: Cid, b: Cid, x: string)
    requires Named(a) && b.block.ProtoNode?
    ensures var f := FindLink(Filter(a.block.links, MissingIn(b)), x);
            && (f.Some? <==> Child(a, x).Some? && Child(b, x).None?)
            && (f.Some? ==> f.value.cid == Child(a, x).value)
  {
    var fs := Filter(a.block.links, MissingIn(b));
    FilterElements(a.block.links, MissingIn(b));
    FindLinkFinds(fs, x);
    FindLinkFinds(a.block.links, x);
    if FindLink(fs, x).Some? { FindLinkOf(a.block.links, FindLink(fs, x).value); }
  }

  /**
   The edits of a diff turn `a` into the patched node; every node they read was in
   the store before, or was written by the edit just before.
   */
  lemma {:induction false} RunDiff(a: Cid, b: Cid, ds: set<Cid>) returns (r: Cid)
    requires Comparable(a, b) && !(IsLeaf(a) && IsLeaf(b)) && Complete(a, ds) && Complete(b, ds)
    ensures Replays(DiffList(a, b, ds), a, r, ds) && PatchOf(a, b, r)
    decreases a, |a.block.links| + 1
  {
    var gone, new_ := Filter(a.block.links, MissingIn(b)), Filter(b.block.links, MissingIn(a));
    RunLinks(a, b, ds);
    var m :| LinksRunTo(a, b, |a.block.links|, m, ds);
    var c := RunGone(a, b, m, ds);
    r := RunNew(a, b, c, ds);
    MixedIsPatch(a, b, m, c, r);
    ListedLinks(a, b, ds);
    var xs, ys, zs := DiffLinks(a, b, |a.block.links|, ds).value, Removals(gone), Additions(new_);
    JoinRuns(a, m, c, xs, ys, zs, ds);
  }

  lemma {:induction false} RunGone(a: Cid, b: Cid, m: Cid, ds: set<Cid>) returns (c: Cid)
    requires Comparable(a, b) && Mixed(a, b, |a.block.links|, m)
    ensures var gone := Filter(a.block.links, MissingIn(b));
            && TreeRun(m, Edits(Removals(gone))) == Some(c) && Covered(m, Edits(Removals(gone)), [], ds)
            && Named(c) && c.block.data == m.block.data
            && forall x :: Child(c, x) == if FindLink(gone, x).Some? then None else Child(m, x)
  {
    var gone := Filter(a.block.links, MissingIn(b));
    FilterElements(a.block.links, MissingIn(b));
    DistinctFilter(a.block.links, MissingIn(b));
    forall l | l in gone ensures SlashFree(l.name) && Child(m, l.name).Some? {
      FindLinkOf(a.block.links, l);
      assert Child(m, l.name) == Child(a, l.name);
    }
    c := RunRemovals(m, gone, ds);
  }

  lemma {:induction false} RunNew(a: Cid, b: Cid, c: Cid, ds: set<Cid>) returns (r: Cid)
    requires Comparable(a, b) && Named(c)
    ensures var new_ := Filter(b.block.links, MissingIn(a));
            && TreeRun(c, Edits(Additions(new_))) == Some(r) && Covered(c, Edits(Additions(new_)), [], ds)
            && Named(r) && r.block.data == c.block.data
            && forall x :: Child(r, x) ==
                 var f := FindLink(new_, x);
                 if f.Some? then Some(f.value.cid) else Child(c, x)
  {
    FilterElements(b.block.links, MissingIn(a));
    DistinctFilter(b.block.links, MissingIn(a));
    r := RunAdditions(c, Filter(b.block.links, MissingIn(a)), ds);
  }

  lemma {:induction false} JoinRuns(
      a: Cid, m: Cid, c: Cid, xs: seq<Change>, ys: seq<Change>, zs: seq<Change>, ds: set<Cid>)
    requires a.block.ProtoNode? && TreeRun(a, Edits(xs)) == Some(m) && TreeRun(m, Edits(ys)) == Some(c)
    requires Covered(a, Edits(xs), [], ds) && Covered(m, Edits(ys), [], ds) && Covered(c, Edits(zs), [], ds)
    requires Listed(xs, ds) && Listed(ys, ds) && Listed(zs, ds)
    ensures TreeRun(a, Edits(xs + ys + zs)) == TreeRun(c, Edits(zs))
    ensures Covered(a, Edits(xs + ys + zs), [], ds) && Listed(xs + ys + zs, ds)
  {
    EditsAppend(xs, ys);
    EditsAppend(xs + ys, zs);
    TreeRunAppend(a, Edits(xs), Edits(ys));
    TreeRunAppend(a, Edits(xs) + Edits(ys), Edits(zs));
    CoveredAppend(a, Edits(xs), Edits(ys), [], ds);
    CoveredAppend(a, Edits(xs) + Edits(ys), Edits(zs), [], ds);
    ListedAppend(xs, ys, ds);
    ListedAppend(xs + ys, zs, ds);
  }
}
