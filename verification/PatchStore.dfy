/**
 What is left in the scratch store after a run of edits, and when copying the result out
 of it gives a complete tree.
 */
module PatchStores {
  import opened Dag
  import opened DagEditor

  // ----- The scratch store after one edit -----

  /** The node `x` is among the rewritten ones `t`, below no equal old node of `s`. */
  ghost predicate WrittenLast(s: seq<Cid>, t: seq<Cid>, x: Cid) {
    exists d :: 0 <= d < |t| && d <= |s| && t[d] == x && x !in s[..d]
  }

  /** The old nodes that the edit deletes; the removal of a link does not delete the node it edits. */
  ghost function Deleted(s: seq<Cid>, op: LinkOp): seq<Cid>
    requires s != []
  {
    if op.PutLink? then s else s[..|s| - 1]
  }

  /**
   After the edit the scratch store has `x`: it was written after the last deletion of an equal
   node, or was there before and is not deleted. `held` says whether it was there before.
   */
  ghost predicate KeptBy(c: Cid, e: Edit, held: bool, x: Cid)
    requires c.block.ProtoNode? && e.path != [] && TreeEdit(c, e.path, e.op).Some?
  {
    var s := Spine(c, e.path, e.op);
    || WrittenLast(s, NewSpine(c, e.path, e.op), x)
    || ((held || (e.op.PutLink? && e.op.child == x)) && x !in Deleted(s, e.op))
  }

  lemma {:induction false} WrittenLastCons(c: Cid, r: Cid, s: seq<Cid>, t: seq<Cid>, x: Cid)
    ensures WrittenLast([c] + s, [r] + t, x) <==> x == r || (x != c && WrittenLast(s, t, x))
  {
    if x == r {
      assert ([r] + t)[0] == x && x !in ([c] + s)[..0];
    }
    if x != c && WrittenLast(s, t, x) {
      var d :| 0 <= d < |t| && d <= |s| && t[d] == x && x !in s[..d];
      assert ([r] + t)[d + 1] == x && ([c] + s)[..d + 1] == [c] + s[..d];
    }
    if WrittenLast([c] + s, [r] + t, x) && x != r {
      var d :| 0 <= d < |[r] + t| && d <= |[c] + s| && ([r] + t)[d] == x && x !in ([c] + s)[..d];
      assert ([c] + s)[..d] == [c] + s[..d - 1] && t[d - 1] == x;
    }
  }

  lemma {:induction false} DeletedCons(c: Cid, s: seq<Cid>, op: LinkOp, x: Cid)
    requires s != []
    ensures x in Deleted([c] + s, op) <==> x == c || x in Deleted(s, op)
  {
    assert ([c] + s)[..|s|] == [c] + s[..|s| - 1];
  }

  /** The scratch store that the editor is left with, as a fact about the old and the new nodes on the path. */
  lemma {:induction false} ScratchAfterEdit(c: Cid, path: seq<string>, op: LinkOp, tmp: set<Cid>, src: set<Cid>, x: Cid)
    requires c.block.ProtoNode? && path != []
    requires Edited(c, path, op, tmp, src).Some? && TreeEdit(c, path, op).Some?
    ensures x in Edited(c, path, op, tmp, src).value.1 <==> KeptBy(c, Edit(path, op), x in tmp, x)
    decreases |path|
  {
    EditedIsTreeEdit(c, path, op, tmp, src);
    if |path| == 1 {
      var r := TreeEdit(c, path, op).value;
      assert Spine(c, path, op) == [c] + [] && NewSpine(c, path, op) == [r] + [];
      WrittenLastCons(c, r, [], [], x);
    } else {
      var z := EditUnfolds(c, path, op, tmp, src);
      ScratchAfterEdit(z, path[1..], op, tmp, src, x);
      WrittenLastCons(c, TreeEdit(c, path, op).value, Spine(z, path[1..], op), NewSpine(z, path[1..], op), x);
      DeletedCons(c, Spine(z, path[1..], op), op, x);
    }
  }

  // ----- The scratch store after a run -----

  /** After the whole run the scratch store has `x`. Only the tree and the edits matter. */
  ghost predicate Kept(c: Cid, es: seq<Edit>, held: bool, x: Cid)
    requires c.block.ProtoNode? && TreeRun(c, es).Some?
    decreases |es|
  {
    if es == [] then held
    else Kept(TreeEdit(c, es[0].path, es[0].op).value, es[1..], KeptBy(c, es[0], held, x), x)
  }

  lemma {:induction false} ScratchAfterRun(c: Cid, tmp: set<Cid>, es: seq<Edit>, src: set<Cid>, x: Cid)
    requires c.block.ProtoNode? && TreeRun(c, es).Some? && EditorRun(c, tmp, es, src).Some?
    ensures x in EditorRun(c, tmp, es, src).value.1 <==> Kept(c, es, x in tmp, x)
    decreases |es|
  {
    if es == [] {
    } else {
      EditedIsTreeEdit(c, es[0].path, es[0].op, tmp, src);
      ScratchAfterEdit(c, es[0].path, es[0].op, tmp, src, x);
      var (y, tmp1) := Edited(c, es[0].path, es[0].op, tmp, src).value;
      ScratchAfterRun(y, tmp1, es[1..], src, x);
    }
  }

  // ----- Copying the result -----

  lemma {:induction false} CopiedIsScratch(c: Cid, tmp: set<Cid>, x: Cid)
    requires x in Copied(c, tmp) && x != c
    ensures x in tmp
    decreases c, |NodeLinks(c.block)| + 1
  {
    CopiedBelowIsScratch(c, |NodeLinks(c.block)|, tmp, x);
  }

  lemma {:induction false} CopiedBelowIsScratch(c: Cid, i: nat, tmp: set<Cid>, x: Cid)
    requires i <= |NodeLinks(c.block)| && x in CopiedBelow(c, i, tmp)
    ensures x in tmp
    decreases c, i
  {
    var l := NodeLinks(c.block)[i - 1].cid;
    if x in CopiedBelow(c, i - 1, tmp) {
      CopiedBelowIsScratch(c, i - 1, tmp, x);
    } else if x != l {
      CopiedIsScratch(l, tmp, x);
    }
  }

  /** The chain `p` leads from `c` to `x` along links, through nodes of `via` only. */
  ghost predicate LeadsTo(p: seq<Cid>, c: Cid, x: Cid, via: set<Cid>)
    decreases |p|
  {
    if p == [] then c == x else p[0] in Links(c) && p[0] in via && LeadsTo(p[1..], p[0], x, via)
  }

  /** What is copied is what such chains lead to. */
  lemma {:induction false} CopiedIffLedTo(c: Cid, via: set<Cid>, x: Cid)
    ensures x in Copied(c, via) <==> exists p :: LeadsTo(p, c, x, via)
  {
    if x in Copied(c, via) {
      CopiedIsLedTo(c, via, x);
    }
    forall p | LeadsTo(p, c, x, via) ensures x in Copied(c, via) {
      LedToIsCopied(p, c, x, via);
    }
  }

  lemma {:induction false} LedToIsCopied(p: seq<Cid>, c: Cid, x: Cid, via: set<Cid>)
    requires LeadsTo(p, c, x, via)
    ensures x in Copied(c, via)
    decreases |p|
  {
    if p == [] {
    } else {
      LedToIsCopied(p[1..], p[0], x, via);
      var i :| 0 <= i < |Links(c)| && Links(c)[i] == p[0];
      CopiedLink(c, i, |NodeLinks(c.block)|, via);
    }
  }

  lemma {:induction false} CopiedIsLedTo(c: Cid, via: set<Cid>, x: Cid)
    requires x in Copied(c, via)
    ensures exists p :: LeadsTo(p, c, x, via)
    decreases c, |NodeLinks(c.block)| + 1
  {
    if x == c {
      assert LeadsTo([], c, x, via);
    } else {
      CopiedBelowIsLedTo(c, |NodeLinks(c.block)|, via, x);
    }
  }

  lemma {:induction false} CopiedBelowIsLedTo(c: Cid, i: nat, via: set<Cid>, x: Cid)
    requires i <= |NodeLinks(c.block)| && x in CopiedBelow(c, i, via)
    ensures exists p :: LeadsTo(p, c, x, via)
    decreases c, i
  {
    if x in CopiedBelow(c, i - 1, via) {
      CopiedBelowIsLedTo(c, i - 1, via, x);
    } else {
      var l := NodeLinks(c.block)[i - 1].cid;
      LinkInLinks(c, NodeLinks(c.block)[i - 1]);
      CopiedIsLedTo(l, via, x);
      var p :| LeadsTo(p, l, x, via);
      assert ([l] + p)[1..] == p;
      assert LeadsTo([l] + p, c, x, via);
    }
  }

  /** What is copied depends only on which nodes below the root the scratch store has. */
  lemma {:induction false} CopiedSame(c: Cid, s: set<Cid>, t: set<Cid>)
    requires forall x :: x in Descendants(c) ==> (x in s <==> x in t)
    ensures Copied(c, s) == Copied(c, t)
    decreases c, |NodeLinks(c.block)| + 1
  {
    CopiedBelowSame(c, |NodeLinks(c.block)|, s, t);
  }

  lemma {:induction false} CopiedBelowSame(c: Cid, i: nat, s: set<Cid>, t: set<Cid>)
    requires i <= |NodeLinks(c.block)| && forall x :: x in Descendants(c) ==> (x in s <==> x in t)
    ensures CopiedBelow(c, i, s) == CopiedBelow(c, i, t)
    decreases c, i
  {
    if i == 0 {
    } else {
      var l := NodeLinks(c.block)[i - 1].cid;
      LinkInLinks(c, NodeLinks(c.block)[i - 1]);
      LinkDescends(c, l);
      CopiedBelowSame(c, i - 1, s, t);
      CopiedSame(l, s, t);
    }
  }

  /** Whatever of the tree the store has, it has with everything below it. */
  ghost predicate WholeIn(c: Cid, store: set<Cid>) {
    forall x :: x in Descendants(c) && x in store ==> Complete(x, store)
  }

  /** Copying a tree out of the scratch store completes it exactly when each of its nodes is there or in the target. */
  lemma {:induction false} CopyCompletesIff(c: Cid, tmp: set<Cid>, target: set<Cid>)
    ensures (forall x :: x in Descendants(c) ==> x in tmp || Complete(x, target)) ==>
              Complete(c, target + Copied(c, tmp))
    ensures Complete(c, target + Copied(c, tmp)) ==> forall x :: x in Descendants(c) ==> x in tmp || x in target
  {
    if forall x :: x in Descendants(c) ==> x in tmp || Complete(x, target) {
      CopyCompletesFrom(c, tmp, target);
    }
    if Complete(c, target + Copied(c, tmp)) {
      forall x | x in Descendants(c) && x !in target ensures x in tmp {
        DescendantIsLower(c, x);
        CopiedIsScratch(c, tmp, x);
      }
    }
  }
}
