/**
 When `ApplyChange(a, Diff(a, b))` gives `b`.

 The editor deletes old versions of nodes from its scratch store by CID. If a node
 it has just written has the same CID as an old node above it on the path, the new
 one is gone too, and the next change below it cannot be applied. The theorems say
 exactly when this happens and what the result is otherwise.
 */
module DagPatch {
  import opened Sequences
  import opened Sorting
  import opened Dag
  import opened LinkEdits
  import opened DagEditor

  // ----- Which nodes a run of edits reads -----

  ghost predicate SamePrefix(p: seq<string>, q: seq<string>, d: nat) {
    d <= |p| && d <= |q| && p[..d] == q[..d]
  }

  /**
   Every node that an edit reads is in `src`, except those that the edit before has
   just rewritten. `prev` is the path of that edit.
   */
  ghost predicate Covered(c: Cid, es: seq<Edit>, prev: seq<string>, src: set<Cid>)
    requires c.block.ProtoNode?
    decreases |es|
  {
    es == [] ||
    (&& CoveredFirst(c, es[0], prev, src)
     && Covered(TreeEdit(c, es[0].path, es[0].op).value, es[1..], es[0].path, src))
  }

  ghost predicate CoveredFirst(c: Cid, e: Edit, prev: seq<string>, src: set<Cid>)
    requires c.block.ProtoNode?
  {
    && e.path != [] && TreeEdit(c, e.path, e.op).Some? && CreateOf(e.op).None?
    && (forall d :: 0 < d < |e.path| && !(d < |prev| && SamePrefix(prev, e.path, d)) ==>
          Spine(c, e.path, e.op)[d] in src)
  }

  /** The rewritten node at depth `d` does not equal an old node above it, or `src` has it too. */
  ghost predicate Survives(c: Cid, e: Edit, d: nat, src: set<Cid>)
    requires c.block.ProtoNode? && e.path != [] && TreeEdit(c, e.path, e.op).Some? && d < |e.path|
  {
    var n := NewSpine(c, e.path, e.op)[d];
    n in src || n !in Spine(c, e.path, e.op)[..d]
  }

  /** Every rewritten node that the next edit reads again survives. */
  ghost predicate Unshadowed(c: Cid, es: seq<Edit>, src: set<Cid>)
    requires c.block.ProtoNode?
    decreases |es|
  {
    |es| <= 1 ||
    (es[0].path != [] && TreeEdit(c, es[0].path, es[0].op).Some? ==>
       && (forall d :: 0 < d < |es[0].path| && d < |es[1].path| && SamePrefix(es[0].path, es[1].path, d) ==>
             Survives(c, es[0], d, src))
       && Unshadowed(TreeEdit(c, es[0].path, es[0].op).value, es[1..], src))
  }

  lemma {:induction false} ChildOfWithLink(c: Cid, name: string, y: Cid)
    requires c.block.ProtoNode?
    ensures Child(WithLink(c, name, y), name) == Some(y)
  {
    var fs := Filter(c.block.links, NotNamed(name));
    var ls := fs + [Link(name, y)];
    var sorted := StableSort(ls, LinkName);
    StableSortPermutes(ls, LinkName);
    SameElements(sorted, ls);
    FilterElements(c.block.links, NotNamed(name));
    FindLinkFinds(sorted, name);
    assert Link(name, y) in sorted;
    assert FindLink(sorted, name).value in ls;
  }

  lemma {:induction false} PrefixTail(p: seq<string>, q: seq<string>, d: nat)
    requires 0 < d && SamePrefix(p, q, d)
    ensures p[0] == q[0] && SamePrefix(p[1..], q[1..], d - 1)
  {
    assert p[0] == p[..d][0] == q[..d][0] == q[0];
    assert p[1..][..d - 1] == p[..d][1..] == q[..d][1..] == q[1..][..d - 1];
  }

  /** The next edit reads, along a common prefix, the nodes just rewritten. */
  lemma {:induction false} ReadsRewritten(c: Cid, p: seq<string>, op: LinkOp, q: seq<string>, op': LinkOp, d: nat)
    requires c.block.ProtoNode? && p != [] && q != [] && TreeEdit(c, p, op).Some?
    requires TreeEdit(TreeEdit(c, p, op).value, q, op').Some?
    requires d < |p| && d < |q| && SamePrefix(p, q, d)
    ensures Spine(TreeEdit(c, p, op).value, q, op')[d] == NewSpine(c, p, op)[d]
    decreases |p|
  {
    if d == 0 {
    } else {
      PrefixTail(p, q, d);
      var x := SpinesUnfold(c, p, op);
      var z := SpinesUnfold(TreeEdit(c, p, op).value, q, op');
      assert z == TreeEdit(x, p[1..], op).value by {
        ChildOfWithLink(c, p[0], TreeEdit(x, p[1..], op).value);
      }
      ReadsRewritten(x, p[1..], op, q[1..], op', d - 1);
    }
  }

  lemma {:induction false} AvailableIffSpine(c: Cid, path: seq<string>, op: LinkOp, tmp: set<Cid>, src: set<Cid>)
    requires c.block.ProtoNode? && path != [] && TreeEdit(c, path, op).Some? && CreateOf(op).None?
    ensures Available(c, path, op, tmp, src) <==> forall n :: n in Spine(c, path, op)[1..] ==> n in tmp + src
    decreases |path|
  {
    if |path| <= 1 {
    } else {
      var x := SpinesUnfold(c, path, op);
      AvailableIffSpine(x, path[1..], op, tmp, src);
      var t := Spine(x, path[1..], op);
      assert Spine(c, path, op)[1..] == t == [x] + t[1..];
    }
  }

  lemma {:induction false} NextIsAvailable(c: Cid, tmp: set<Cid>, e: Edit, f: Edit, src: set<Cid>)
    requires c.block.ProtoNode? && e.path != [] && f.path != [] && Edited(c, e.path, e.op, tmp, src).Some?
    requires TreeEdit(c, e.path, e.op).Some? && CreateOf(f.op).None?
    requires TreeEdit(TreeEdit(c, e.path, e.op).value, f.path, f.op).Some?
    requires forall d :: 0 < d < |f.path| && !(d < |e.path| && SamePrefix(e.path, f.path, d)) ==>
               Spine(TreeEdit(c, e.path, e.op).value, f.path, f.op)[d] in src
    ensures Available(TreeEdit(c, e.path, e.op).value, f.path, f.op,
                      Edited(c, e.path, e.op, tmp, src).value.1, src) <==>
            forall d :: 0 < d < |e.path| && d < |f.path| && SamePrefix(e.path, f.path, d) ==> Survives(c, e, d, src)
  {
    var y, tmp1 := TreeEdit(c, e.path, e.op).value, Edited(c, e.path, e.op, tmp, src).value.1;
    AvailableIffSpine(y, f.path, f.op, tmp1, src);
    var s := Spine(y, f.path, f.op);
    forall d | 0 < d < |e.path| && d < |f.path| && SamePrefix(e.path, f.path, d)
      ensures s[d] in tmp1 + src <==> Survives(c, e, d, src)
    {
      ReadsRewritten(c, e.path, e.op, f.path, f.op, d);
      NewSpineInScratch(c, e.path, e.op, tmp, src, d);
    }
    if forall n :: n in s[1..] ==> n in tmp1 + src {
      forall d | 0 < d < |e.path| && d < |f.path| && SamePrefix(e.path, f.path, d) ensures Survives(c, e, d, src) {
        assert s[d] == s[1..][d - 1];
      }
    }
    if forall d :: 0 < d < |e.path| && d < |f.path| && SamePrefix(e.path, f.path, d) ==> Survives(c, e, d, src) {
      forall n | n in s[1..] ensures n in tmp1 + src {
        var j :| 0 <= j < |s[1..]| && s[1..][j] == n;
        assert s[j + 1] == n;
      }
    }
  }

  /** Given such a run of possible edits, the editor gets through it exactly when it is unshadowed. */
  lemma {:induction false} RunIffUnshadowed(c: Cid, tmp: set<Cid>, es: seq<Edit>, prev: seq<string>, src: set<Cid>)
    requires c.block.ProtoNode? && TreeRun(c, es).Some? && Covered(c, es, prev, src)
    requires es != [] ==> Available(c, es[0].path, es[0].op, tmp, src)
    ensures EditorRun(c, tmp, es, src).Some? <==> Unshadowed(c, es, src)
    decreases |es|
  {
    if es == [] {
    } else {
      EditedIsTreeEdit(c, es[0].path, es[0].op, tmp, src);
      var (y, tmp1) := Edited(c, es[0].path, es[0].op, tmp, src).value;
      if |es| > 1 {
        assert es[1..][0] == es[1];
        NextIsAvailable(c, tmp, es[0], es[1], src);
        EditedIsTreeEdit(y, es[1].path, es[1].op, tmp1, src);
        if Available(y, es[1].path, es[1].op, tmp1, src) {
          RunIffUnshadowed(y, tmp1, es[1..], es[0].path, src);
        }
      } else {
        assert es[1..] == [];
      }
    }
  }

  // ----- When nothing can be shadowed -----

  lemma {:induction false} LinkPairsOfWithLink(c: Cid, name: string, y: Cid, l: Link)
    requires c.block.ProtoNode? && l in WithLink(c, name, y).block.links
    ensures l == Link(name, y) || l in c.block.links
  {
    var ls := Filter(c.block.links, NotNamed(name)) + [Link(name, y)];
    StableSortPermutes(ls, LinkName);
    SameElements(StableSort(ls, LinkName), ls);
    FilterElements(c.block.links, NotNamed(name));
  }

  lemma {:induction false} LinkPairsOfWithoutLink(c: Cid, name: string, l: Link)
    requires c.block.ProtoNode? && l in WithoutLink(c, name).block.links
    ensures l in c.block.links
  {
    var ls := Filter(c.block.links, NotNamed(name));
    StableSortPermutes(ls, LinkName);
    SameElements(StableSort(ls, LinkName), ls);
    FilterElements(c.block.links, NotNamed(name));
  }

  /** At each depth of the path, a rewritten node has the old links and at most one new one, of the path's name. */
  lemma {:induction false} RewrittenLinks(c: Cid, p: seq<string>, op: LinkOp, d: nat, l: Link)
    requires c.block.ProtoNode? && p != [] && TreeEdit(c, p, op).Some? && d < |p|
    requires l in NodeLinks(NewSpine(c, p, op)[d].block)
    ensures l in NodeLinks(Spine(c, p, op)[d].block) || l.name == p[d]
    decreases |p|
  {
    if |p| == 1 {
      if op.PutLink? {
        LinkPairsOfWithLink(c, p[0], op.child, l);
      } else {
        LinkPairsOfWithoutLink(c, p[0], l);
      }
    } else {
      var x := SpinesUnfold(c, p, op);
      if d > 0 {
        RewrittenLinks(x, p[1..], op, d - 1, l);
      } else {
        LinkPairsOfWithLink(c, p[0], TreeEdit(x, p[1..], op).value, l);
      }
    }
  }

  /** The nodes of `s` are linked by the names of `p`. */
  ghost predicate Chain(p: seq<string>, s: seq<Cid>) {
    |s| == |p| && forall k :: 0 <= k < |s| - 1 ==> Link(p[k], s[k + 1]) in NodeLinks(s[k].block)
  }

  lemma {:induction false} SpineIsChain(c: Cid, p: seq<string>, op: LinkOp)
    requires c.block.ProtoNode? && p != [] && TreeEdit(c, p, op).Some? && CreateOf(op).None?
    ensures Chain(p, Spine(c, p, op))
    decreases |p|
  {
    if |p| <= 1 {
    } else {
      var x := SpinesUnfold(c, p, op);
      assert Link(p[0], x) in NodeLinks(c.block) by {
        FindLinkFinds(c.block.links, p[0]);
      }
      SpineIsChain(x, p[1..], op);
    }
  }

  lemma {:induction false} ChainReaches(p: seq<string>, s: seq<Cid>, k: nat, d: nat)
    requires Chain(p, s) && k <= d < |s|
    ensures s[d] in Reach(s[k])
    decreases d - k
  {
    if k == d {
    } else {
      ChainReaches(p, s, k + 1, d);
      LinkInLinks(s[k], Link(p[k], s[k + 1]));
      LinkDescends(s[k], s[k + 1]);
    }
  }

  /** A rewritten node can only equal an old node above it if the path uses the same name at both depths. */
  lemma {:induction false} ShadowRepeatsName(c: Cid, p: seq<string>, op: LinkOp, k: nat, d: nat)
    requires c.block.ProtoNode? && p != [] && TreeEdit(c, p, op).Some? && CreateOf(op).None?
    requires k < d < |p| && NewSpine(c, p, op)[d] == Spine(c, p, op)[k]
    ensures p[k] == p[d]
  {
    var s := Spine(c, p, op);
    var l := Link(p[k], s[k + 1]);
    SpineIsChain(c, p, op);
    RewrittenLinks(c, p, op, d, l);
    if l in NodeLinks(s[d].block) {
      LinkInLinks(s[d], l);
      LinkDescends(s[d], s[k + 1]);
      ChainReaches(p, s, k + 1, d);
      NoMutualReach(s[k + 1], s[d]);
    }
  }

  lemma {:induction false} NoMutualReach(c: Cid, d: Cid)
    requires c in Descendants(d)
    ensures d !in Reach(c)
  {
    DescendantIsLower(d, c);
    if d in Descendants(c) { DescendantIsLower(c, d); }
  }

  ghost predicate NoNameTwice(es: seq<Edit>) {
    forall i :: 0 <= i < |es| ==> NoDuplicates(es[i].path)
  }

  /** If no path repeats a name, no rewritten node is lost. */
  lemma {:induction false} DistinctNamesUnshadowed(c: Cid, es: seq<Edit>, prev: seq<string>, src: set<Cid>)
    requires c.block.ProtoNode? && Covered(c, es, prev, src) && NoNameTwice(es)
    ensures Unshadowed(c, es, src)
    decreases |es|
  {
    if |es| <= 1 {
    } else {
      var e := es[0];
      assert NoDuplicates(e.path);
      forall d | 0 < d < |e.path| ensures Survives(c, e, d, src) {
        var n, s := NewSpine(c, e.path, e.op)[d], Spine(c, e.path, e.op);
        if n in s[..d] {
          var k :| 0 <= k < d && s[..d][k] == n;
          ShadowRepeatsName(c, e.path, e.op, k, d);
          assert false;
        }
      }
      assert NoNameTwice(es[1..]) by {
        assert forall i :: 0 <= i < |es[1..]| ==> es[1..][i] == es[i + 1];
      }
      DistinctNamesUnshadowed(TreeEdit(c, e.path, e.op).value, es[1..], e.path, src);
    }
  }
}
