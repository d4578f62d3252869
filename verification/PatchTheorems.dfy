/** The patch theorems: when replaying a diff succeeds, what it gives, and when that is complete in the store. */
module PatchTheorems {
  import opened Dag
  import opened LinkEdits
  import opened DagEditor
  import opened DagDiff
  import opened DagPatch
  import opened DiffRuns
  import opened PatchStores

  /** The nodes that a diff descends into have the same data, unless both are leaves. */
  ghost predicate SameData(a: Cid, b: Cid)
    decreases b
  {
    && a.block.data == b.block.data
    && (forall j :: 0 <= j < |NodeLinks(b.block)| ==>
          var l := NodeLinks(b.block)[j];
          Child(a, l.name).Some? && Child(a, l.name).value != l.cid
          && !(IsLeaf(Child(a, l.name).value) && IsLeaf(l.cid)) ==>
            SameData(Child(a, l.name).value, l.cid))
  }

  /** The patched node is the target exactly when the data agree. */
  lemma {:induction false} PatchIsTarget(a: Cid, b: Cid, r: Cid)
    requires Comparable(a, b) && PatchOf(a, b, r)
    ensures r == b <==> SameData(a, b)
    decreases b
  {
    var ls := NodeLinks(b.block);
    forall j | 0 <= j < |ls|
      ensures var l := ls[j];
              Child(a, l.name).Some? && Child(a, l.name).value != l.cid &&
              !(IsLeaf(Child(a, l.name).value) && IsLeaf(l.cid)) ==>
                (Child(r, l.name).value == l.cid <==> SameData(Child(a, l.name).value, l.cid))
    {
      var l := ls[j];
      if && Child(a, l.name).Some? && Child(a, l.name).value != l.cid
         && !(IsLeaf(Child(a, l.name).value) && IsLeaf(l.cid))
      {
        assert Comparable(Child(a, l.name).value, l.cid) by {
          FindLinkOf(b.block.links, l);
          FindLinkFinds(a.block.links, l.name);
          var f := FindLink(a.block.links, l.name).value;
          var i :| 0 <= i < |a.block.links| && a.block.links[i] == f;
        }
        PatchIsTarget(Child(a, l.name).value, l.cid, Child(r, l.name).value);
      }
    }
    if SameData(a, b) {
      forall x ensures Child(r, x) == Child(b, x) {
        FindLinkFinds(ls, x);
        if Child(b, x).Some? {
          var l := FindLink(ls, x).value;
          var j :| 0 <= j < |ls| && ls[j] == l;
        }
      }
      NamedExtensional(r, b);
    }
    if r == b {
      forall j | 0 <= j < |ls| ensures Child(r, ls[j].name) == Some(ls[j].cid) {
        FindLinkOf(ls, ls[j]);
      }
    }
  }

  lemma {:induction false} EditorRunAppend(c: Cid, tmp: set<Cid>, xs: seq<Edit>, ys: seq<Edit>, src: set<Cid>)
    requires c.block.ProtoNode?
    ensures EditorRun(c, tmp, xs + ys, src) ==
            match EditorRun(c, tmp, xs, src)
            case None => None
            case Some((y, tmp1)) => EditorRun(y, tmp1, ys, src)
    decreases |xs|
  {
    if xs == [] {
      assert xs + ys == ys;
    } else {
      assert (xs + ys)[1..] == xs[1..] + ys;
      if xs[0].path != [] && Edited(c, xs[0].path, xs[0].op, tmp, src).Some? {
        var (y, tmp1) := Edited(c, xs[0].path, xs[0].op, tmp, src).value;
        EditorRunAppend(y, tmp1, xs[1..], ys, src);
      }
    }
  }

  /** A replay is the run of all its edits, if every node it inserts can be read, and fails otherwise. */
  lemma {:induction false} ReplayIsRun(c: Cid, tmp: set<Cid>, cs: seq<Change>, ds: set<Cid>)
    requires c.block.ProtoNode?
    ensures Replay(c, tmp, cs, ds) ==
            if forall i :: 0 <= i < |cs| && cs[i].kind != Remove ==>
                 cs[i].after.Some? && cs[i].after.value in ds && cs[i].after.value.block.ProtoNode?
            then EditorRun(c, tmp, Edits(cs), ds) else None
    decreases |cs|
  {
    if cs == [] {
    } else {
      assert forall i :: 0 < i < |cs| ==> cs[1..][i - 1] == cs[i];
      EditorRunAppend(c, tmp, EditsOf(cs[0]), Edits(cs[1..]), ds);
      match EditorRun(c, tmp, EditsOf(cs[0]), ds)
      case None =>
      case Some((y, tmp1)) => ReplayIsRun(y, tmp1, cs[1..], ds);
    }
  }

  /** Every node of the result that the store does not have is still in the scratch store after the run. */
  ghost predicate NothingDropped(a: Cid, es: seq<Edit>, r: Cid, ds: set<Cid>)
    requires a.block.ProtoNode? && TreeRun(a, es).Some?
  {
    forall x :: x in Descendants(r) && x !in ds ==> Kept(a, es, false, x)
  }

  /** The nodes below `r` that were not deleted after they were last written. */
  ghost function KeptBelow(a: Cid, es: seq<Edit>, r: Cid): set<Cid>
    requires a.block.ProtoNode? && TreeRun(a, es).Some?
  {
    set x | x in Descendants(r) && Kept(a, es, false, x)
  }

  /** To every node of the result that the store does not have, a chain of kept nodes leads from the root. */
  ghost predicate NothingCutOff(a: Cid, es: seq<Edit>, r: Cid, ds: set<Cid>)
    requires a.block.ProtoNode? && TreeRun(a, es).Some?
  {
    forall x :: x in Descendants(r) && x !in ds ==> exists p :: LeadsTo(p, r, x, KeptBelow(a, es, r))
  }

  /**
   When a result that the editor gets to is complete in the store it is finalized into. If
   the store has each node of the result only together with what is below it, it is enough
   to look at each node by itself.
   */
  lemma {:induction false} ResultCompleteIff(a: Cid, es: seq<Edit>, ds: set<Cid>)
    requires a.block.ProtoNode? && EditorRun(a, {}, es, ds).Some?
    ensures TreeRun(a, es) == Some(EditorRun(a, {}, es, ds).value.0)
    ensures var (r, tmp) := EditorRun(a, {}, es, ds).value;
            && (Complete(r, ds + Copied(r, tmp)) <==> NothingCutOff(a, es, r, ds))
            && (NothingCutOff(a, es, r, ds) ==> NothingDropped(a, es, r, ds))
            && (NothingDropped(a, es, r, ds) && WholeIn(r, ds) ==> NothingCutOff(a, es, r, ds))
  {
    EditorNeverWrong(a, {}, es, ds);
    var (r, tmp) := EditorRun(a, {}, es, ds).value;
    forall x ensures x in tmp <==> Kept(a, es, false, x) {
      ScratchAfterRun(a, {}, es, ds, x);
    }
    CopiedSame(r, tmp, KeptBelow(a, es, r));
    forall x ensures x in Copied(r, tmp) <==> exists p :: LeadsTo(p, r, x, KeptBelow(a, es, r)) {
      CopiedIffLedTo(r, KeptBelow(a, es, r), x);
    }
    CopyCompletesIff(r, tmp, ds);
  }

  lemma {:induction false} ReplaySucceedsIff(a: Cid, b: Cid, ds: set<Cid>) returns (r: Cid)
    requires Comparable(a, b) && !(IsLeaf(a) && IsLeaf(b)) && Complete(a, ds) && Complete(b, ds)
    ensures DiffList(a, b, ds).Some? && PatchOf(a, b, r)
    ensures var cs := DiffList(a, b, ds).value;
            && TreeRun(a, Edits(cs)) == Some(r)
            && Replay(a, {}, cs, ds) == EditorRun(a, {}, Edits(cs), ds)
            && (Replay(a, {}, cs, ds).Some? <==> Unshadowed(a, Edits(cs), ds))
  {
    r := RunDiff(a, b, ds);
    var cs := DiffList(a, b, ds).value;
    var es := Edits(cs);
    ReplayIsRun(a, {}, cs, ds);
    if es != [] { FirstIsAvailable(a, es, ds); }
    RunIffUnshadowed(a, {}, es, [], ds);
  }

  /**
   For comparable trees that the store holds, the diff exists, and replaying it
   succeeds exactly when no node that is still needed gets shadowed. The result has
   the links of `b` and the data of `a`, so it is `b` exactly when the data agree. It is
   complete in the store exactly when none of its nodes is cut off by one that was deleted
   after it was last written.
   */
  lemma {:induction false} PatchIff(a: Cid, b: Cid, ds: set<Cid>)
    requires Comparable(a, b) && !(IsLeaf(a) && IsLeaf(b)) && Complete(a, ds) && Complete(b, ds)
    ensures DiffList(a, b, ds).Some?
    ensures var cs := DiffList(a, b, ds).value;
            Replay(a, {}, cs, ds).Some? <==> Unshadowed(a, Edits(cs), ds)
    ensures var e := Replay(a, {}, DiffList(a, b, ds).value, ds);
            e.Some? ==> PatchOf(a, b, e.value.0) && (e.value.0 == b <==> SameData(a, b))
    ensures var es := Edits(DiffList(a, b, ds).value);
            var e := Replay(a, {}, DiffList(a, b, ds).value, ds);
            e.Some? ==>
              && TreeRun(a, es) == Some(e.value.0)
              && (Complete(e.value.0, ds + Copied(e.value.0, e.value.1)) <==> NothingCutOff(a, es, e.value.0, ds))
              && (WholeIn(e.value.0, ds) ==>
                    (NothingCutOff(a, es, e.value.0, ds) <==> NothingDropped(a, es, e.value.0, ds)))
  {
    var r := ReplaySucceedsIff(a, b, ds);
    var es := Edits(DiffList(a, b, ds).value);
    if EditorRun(a, {}, es, ds).Some? {
      ResultCompleteIff(a, es, ds);
    }
    PatchIsTarget(a, b, r);
  }

  /** How a replay comes out, when the diff, its edits and the run of the tree are known. */
  lemma {:induction false} ReplayGives(a: Cid, b: Cid, ds: set<Cid>, cs: seq<Change>, es: seq<Edit>, r: Cid)
    requires Comparable(a, b) && !(IsLeaf(a) && IsLeaf(b)) && Complete(a, ds) && Complete(b, ds)
    requires DiffList(a, b, ds) == Some(cs) && Edits(cs) == es
    requires TreeRun(a, es) == Some(r) && Unshadowed(a, es, ds)
    ensures Replay(a, {}, cs, ds).Some? && Replay(a, {}, cs, ds).value.0 == r
    ensures forall x :: x in Replay(a, {}, cs, ds).value.1 <==> Kept(a, es, false, x)
  {
    var r' := ReplaySucceedsIff(a, b, ds);
    EditorNeverWrong(a, {}, es, ds);
    forall x ensures x in Replay(a, {}, cs, ds).value.1 <==> Kept(a, es, false, x) {
      ScratchAfterRun(a, {}, es, ds, x);
    }
  }

  lemma {:induction false} FirstIsAvailable(c: Cid, es: seq<Edit>, ds: set<Cid>)
    requires c.block.ProtoNode? && es != [] && Covered(c, es, [], ds)
    ensures Available(c, es[0].path, es[0].op, {}, ds)
  {
    var s := Spine(c, es[0].path, es[0].op);
    AvailableIffSpine(c, es[0].path, es[0].op, {}, ds);
    forall n | n in s[1..] ensures n in {} + ds {
      var j :| 0 <= j < |s[1..]| && s[1..][j] == n;
      assert n == s[j + 1];
    }
  }

  /**
   Patch correctness: replaying the diff of `a` and `b` on `a` gives `b` exactly when the
   data agree and nothing that is still needed gets shadowed. No changed path that repeats a
   name is enough for the latter. The store has then all of `b`.
   */
  lemma {:induction false} PatchCorrect(a: Cid, b: Cid, ds: set<Cid>)
    requires Comparable(a, b) && !(IsLeaf(a) && IsLeaf(b)) && Complete(a, ds) && Complete(b, ds)
    ensures DiffList(a, b, ds).Some?
    ensures var es := Edits(DiffList(a, b, ds).value);
            var e := Replay(a, {}, DiffList(a, b, ds).value, ds);
            && (e.Some? && CidOf(e.value.0.block) == b <==> SameData(a, b) && Unshadowed(a, es, ds))
            && (NoNameTwice(es) ==> Unshadowed(a, es, ds))
            && (e.Some? && e.value.0 == b ==> Complete(b, ds + Copied(b, e.value.1)))
  {
    PatchIff(a, b, ds);
    var r := RunDiff(a, b, ds);
    var es := Edits(DiffList(a, b, ds).value);
    if NoNameTwice(es) { DistinctNamesUnshadowed(a, es, [], ds); }
  }

  /** The diff of two different leaves names no link, so it can never be applied. */
  lemma {:induction false} LeafRootsFail(a: Cid, b: Cid, ds: set<Cid>)
    requires a.block.ProtoNode? && IsLeaf(a) && IsLeaf(b) && a != b
    ensures DiffList(a, b, ds).Some? && Replay(a, {}, DiffList(a, b, ds).value, ds).None?
  {
    var c := Change(Mod, "", Some(a), Some(b));
    assert EditsOf(c)[0] == Edit([""], DelLink);
    assert Child(a, "").None?;
  }
}
