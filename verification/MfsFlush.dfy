/**
 What flushing does to the objects of the mutable file system: writing cached children
 into the entries, and carrying a new node up to the root.
 */
module MfsFlush {
  import opened MfsNodes
  import opened MfsObjects

  // ----- Writing cached children into the entries -----

  /** Only entries that a cached child overrides have changed. */
  ghost predicate SyncedAt(a: Directory, b: Directory) {
    && b == a.(entries := b.entries)
    && forall n :: n !in a.childDirs && n !in a.files ==>
                     && (n in a.entries <==> n in b.entries)
                     && (n in a.entries ==> a.entries[n] == b.entries[n])
  }

  ghost predicate OnlySynced(s: Objects, t: Objects) {
    && |s.dirs| == |t.dirs| && s.inodes == t.inodes
    && forall d :: 0 <= d < |s.dirs| ==> SyncedAt(s.dirs[d], t.dirs[d])
  }

  lemma {:induction false} SyncedAgrees(s: Objects, t: Objects)
    requires Formed(s) && OnlySynced(s, t)
    ensures AgreesExcept(s, t, {})
  {
    forall d | 0 <= d < |t.dirs| ensures FormedAt(t, d) {
      assert FormedAt(s, d) && SyncedAt(s.dirs[d], t.dirs[d]);
      ChildrenStay(s, t, d);
    }
    forall d | 0 <= d < |s.dirs| ensures Agrees(s, t, d) {
      assert FormedAt(s, d) && SyncedAt(s.dirs[d], t.dirs[d]);
      assert NamesOf(s, d) == NamesOf(t, d);
      forall n | n in NamesOf(s, d) ensures AgreesAt(s, t, d, n) {
      }
    }
  }

  /** Writing cached children into the entries changes no tree. */
  lemma {:induction false} SyncedTree(s: Objects, t: Objects, d: Ref)
    requires Formed(s) && OnlySynced(s, t) && d < |s.dirs|
    ensures Formed(t) && TreeOf(s, d) == TreeOf(t, d)
  {
    SyncedAgrees(s, t);
    TreeStays(s, t, d, {});
  }

  lemma {:induction false} SyncedTransitive(s: Objects, t: Objects, u: Objects)
    requires OnlySynced(s, t) && OnlySynced(t, u)
    ensures OnlySynced(s, u)
  {
    forall d | 0 <= d < |s.dirs| ensures SyncedAt(s.dirs[d], u.dirs[d]) {
      assert SyncedAt(s.dirs[d], t.dirs[d]) && SyncedAt(t.dirs[d], u.dirs[d]);
    }
  }

  lemma {:induction false} CachedEntryIsSynced(o: Objects, d: Ref, n: string, e: Entry)
    requires d < |o.dirs| && !Uncached(o, d, n)
    ensures OnlySynced(o, WithEntry(o, d, n, e))
  {
  }

  /** Once every cached child is written, the entries are the tree. */
  lemma {:induction false} AllWritten(s: Objects, t: Objects, d: Ref)
    requires Formed(s) && OnlySynced(s, t) && d < |s.dirs|
    requires forall n :: n in NamesOf(s, d) && !Uncached(s, d, n) ==>
                           n in t.dirs[d].entries && t.dirs[d].entries[n] == ViewAt(s, d, n)
    ensures Folder(t.dirs[d].entries) == TreeOf(s, d)
  {
    assert SyncedAt(s.dirs[d], t.dirs[d]);
    assert t.dirs[d].entries.Keys == NamesOf(s, d);
    forall n | n in NamesOf(s, d) ensures t.dirs[d].entries[n] == ViewAt(s, d, n) {
    }
  }

  /** Forgetting the cached children of a directory whose entries are its tree changes no tree. */
  function Forgotten(o: Objects, d: Ref): Objects
    requires d < |o.dirs|
  {
    o.(dirs := o.dirs[d := o.dirs[d].(childDirs := map[], files := map[])])
  }

  lemma {:induction false} ForgettingKeepsTree(o: Objects, d: Ref)
    requires Formed(o) && d < |o.dirs| && Folder(o.dirs[d].entries) == TreeOf(o, d)
    ensures AgreesExcept(o, Forgotten(o, d), {})
    ensures TreeOf(Forgotten(o, d), d) == TreeOf(o, d)
  {
    var t := Forgotten(o, d);
    assert FormedAt(o, d);
    assert t == Objects(o.dirs[d := t.dirs[d]] + [], o.inodes + []);
    FieldsChange(o, d, t.dirs[d], [], []);
    SameButAgrees(o, t, d);
    assert TreeOf(o, d).entries.Keys == NamesOf(o, d);
    forall n | n in NamesOf(o, d) ensures AgreesAt(o, t, d, n) {
      assert TreeOf(o, d).entries[n] == ViewAt(o, d, n);
    }
    assert Agrees(o, t, d);
    TreeStays(o, t, d, {});
  }

  lemma {:induction false} ForgettingAfterSync(s: Objects, t: Objects)
    requires Formed(s) && OnlySynced(s, t) && Folder(t.dirs[0].entries) == TreeOf(s, 0)
    ensures AgreesExcept(s, Forgotten(t, 0), {})
  {
    var u := Forgotten(t, 0);
    SyncedTree(s, t, 0);
    SyncedAgrees(s, t);
    ForgettingKeepsTree(t, 0);
    forall d | 0 <= d < |s.dirs| ensures Agrees(s, u, d) {
      assert Agrees(s, t, d) && Agrees(t, u, d) && SyncedAt(s.dirs[d], t.dirs[d]);
      forall n | n in NamesOf(s, d) ensures AgreesAt(s, u, d, n) {
        assert AgreesAt(s, t, d, n) && AgreesAt(t, u, d, n);
        if n in s.dirs[d].childDirs && n !in u.dirs[d].childDirs {
          assert FormedAt(s, d);
          assert IsChild(s, d, n, s.dirs[d].childDirs[n]);
          SyncedTree(s, t, s.dirs[d].childDirs[n]);
        }
      }
    }
  }

  // ----- A new node for an open file -----

  function WithNode(o: Objects, f: Ref, node: Entry): Objects
    requires f < |o.inodes|
  {
    o.(inodes := o.inodes[f := o.inodes[f].(node := node)])
  }

  /** The file object is the one its parent has cached. */
  predicate IsCachedFile(o: Objects, f: Ref)
    requires f < |o.inodes|
  {
    var file := o.inodes[f];
    file.parent < |o.dirs| && file.name in o.dirs[file.parent].files && o.dirs[file.parent].files[file.name] == f
  }

  lemma {:induction false} WithNodeFormed(o: Objects, f: Ref, node: Entry)
    requires Formed(o) && f < |o.inodes|
    ensures Grows(o, WithNode(o, f, node))
  {
    var t := WithNode(o, f, node);
    forall d | 0 <= d < |t.dirs| ensures FormedAt(t, d) {
      assert FormedAt(o, d);
      ChildrenStay(o, t, d);
    }
  }

  lemma {:induction false} OtherDirsAgree(o: Objects, f: Ref, node: Entry, d: Ref)
    requires Formed(o) && f < |o.inodes| && d < |o.dirs| && d != o.inodes[f].parent
    ensures Formed(WithNode(o, f, node)) && Agrees(o, WithNode(o, f, node), d)
  {
    var t := WithNode(o, f, node);
    WithNodeFormed(o, f, node);
    assert FormedAt(o, d);
    forall n | n in NamesOf(o, d) ensures AgreesAt(o, t, d, n) {
      assert n in o.dirs[d].files ==> IsInode(o, d, n, o.dirs[d].files[n]);
    }
  }

  lemma {:induction false} SetNode(o: Objects, f: Ref, node: Entry)
    requires Formed(o) && f < |o.inodes| && IsCachedFile(o, f)
    ensures var file := o.inodes[f];
            Rewrites(o, WithNode(o, f, node), file.parent, TreeOf(o, file.parent).entries[file.name := node])
  {
    var t := WithNode(o, f, node);
    var p, name := o.inodes[f].parent, o.inodes[f].name;
    WithNodeFormed(o, f, node);
    forall d | 0 <= d < |o.dirs| && d != p ensures Agrees(o, t, d) {
      OtherDirsAgree(o, f, node, d);
    }
    assert FormedAt(o, p);
    forall n | n in NamesOf(o, p) && n != name ensures ViewAt(t, p, n) == ViewAt(o, p, n) {
      NameInParentStays(o, f, node, n);
    }
    assert ViewAt(t, p, name) == node;
  }

  lemma {:induction false} NameInParentStays(o: Objects, f: Ref, node: Entry, n: string)
    requires Formed(o) && f < |o.inodes| && IsCachedFile(o, f)
    requires n in NamesOf(o, o.inodes[f].parent) && n != o.inodes[f].name
    ensures Formed(WithNode(o, f, node))
    ensures ViewAt(WithNode(o, f, node), o.inodes[f].parent, n) == ViewAt(o, o.inodes[f].parent, n)
  {
    var t := WithNode(o, f, node);
    var p := o.inodes[f].parent;
    WithNodeFormed(o, f, node);
    forall d | 0 <= d < |o.dirs| && d != p ensures Agrees(o, t, d) {
      OtherDirsAgree(o, f, node, d);
    }
    assert FormedAt(o, p);
    if n in o.dirs[p].childDirs {
      var c := o.dirs[p].childDirs[n];
      assert IsChild(o, p, n, c);
      if IsUnder(o, p, c) {
        UnderIsLater(o, p, c);
      }
      TreeStays(o, t, c, {p});
    } else if n in o.dirs[p].files {
      assert IsInode(o, p, n, o.dirs[p].files[n]);
    }
  }

  // ----- Carrying a new node up to the root -----

  /** The entries and names of a directory and of all those above it. */
  function LevelsOf(o: Objects, d: Ref): seq<Level>
    requires Formed(o) && d < |o.dirs|
    decreases d
  {
    assert FormedAt(o, d);
    [Level(o.dirs[d].entries, o.dirs[d].name)]
    + (if o.dirs[d].parent.Top? then [] else LevelsOf(o, o.dirs[d].parent.dir))
  }

  /** The root node that setting one entry of directory `d` leads to. */
  function NewRoot(o: Objects, d: Ref, name: string, node: Entry): Entry
    requires Formed(o) && d < |o.dirs|
  {
    Lift(LevelsOf(o, d), name, node)
  }

  lemma {:induction false} LevelsPath(o: Objects, d: Ref)
    requires Formed(o) && d < |o.dirs|
    ensures PathOf(LevelsOf(o, d)) == PathTo(o, d)
    decreases d
  {
    assert FormedAt(o, d);
    if o.dirs[d].parent.Top? {
    } else {
      assert LevelsOf(o, d)[1..] == LevelsOf(o, o.dirs[d].parent.dir);
      LevelsPath(o, o.dirs[d].parent.dir);
    }
  }

  /** The flushed path resolves to the flushed node, and paths below it as in that node. */
  lemma {:induction false} FlushResolves(o: Objects, d: Ref, name: string, node: Entry, q: Path)
    requires Formed(o) && d < |o.dirs|
    ensures Resolve(NewRoot(o, d, name, node), PathTo(o, d) + [name] + q) == Resolve(node, q)
  {
    LevelsPath(o, d);
    LiftResolves(LevelsOf(o, d), name, node, q);
  }

  /** The name that leads from `a`, above `d`, towards the entry `name` of `d`. */
  function StepFrom(o: Objects, d: Ref, name: string, a: Ref): string
    requires Formed(o) && d < |o.dirs| && IsUnder(o, d, a)
    decreases d
  {
    assert FormedAt(o, d);
    if a == d then name else StepFrom(o, o.dirs[d].parent.dir, o.dirs[d].name, a)
  }

  /** A path that leaves the flushed one at directory `a` resolves as in the entries that `a` has. */
  lemma {:induction false} FlushKeepsOthers(
      o: Objects, d: Ref, name: string, node: Entry, a: Ref, other: string, q: Path)
    requires Formed(o) && d < |o.dirs| && IsUnder(o, d, a) && other != StepFrom(o, d, name, a)
    ensures a < |o.dirs|
    ensures Resolve(NewRoot(o, d, name, node), PathTo(o, a) + [other] + q)
            == Resolve(Folder(o.dirs[a].entries), [other] + q)
    decreases d
  {
    assert FormedAt(o, d);
    LevelsPath(o, d);
    if a == d {
      assert LevelsOf(o, d)[0..] == LevelsOf(o, d);
      LiftKeepsOthers(LevelsOf(o, d), name, node, 0, other, q);
    } else {
      var p := o.dirs[d].parent.dir;
      assert LevelsOf(o, d)[1..] == LevelsOf(o, p);
      FlushKeepsOthers(o, p, o.dirs[d].name, Folder(o.dirs[d].entries[name := node]), a, other, q);
    }
  }

  /** Every directory from `d` up takes the new version of the one below it as an entry. */
  function Propagated(o: Objects, d: Ref, name: string, node: Entry): Objects
    requires Formed(o) && d < |o.dirs|
    decreases d
  {
    assert FormedAt(o, d);
    WithEntryChanges(o, d, name, node);
    var t := WithEntry(o, d, name, node);
    if o.dirs[d].parent.Top? then t
    else Propagated(t, o.dirs[d].parent.dir, o.dirs[d].name, Folder(t.dirs[d].entries))
  }

  /** The objects `t` are what an interrupted propagation leaves: some of the directories from `d` up are done. */
  predicate PartlyPropagated(o: Objects, d: Ref, name: string, node: Entry, t: Objects)
    requires Formed(o) && d < |o.dirs|
    decreases d
  {
    assert FormedAt(o, d);
    WithEntryChanges(o, d, name, node);
    var o1 := WithEntry(o, d, name, node);
    || t == o1
    || (o.dirs[d].parent.Under?
        && PartlyPropagated(o1, o.dirs[d].parent.dir, o.dirs[d].name, Folder(o1.dirs[d].entries), t))
  }

  lemma {:induction false} LevelsStay(s: Objects, t: Objects, d: Ref)
    requires Formed(s) && Formed(t) && d < |s.dirs| == |t.dirs|
    requires forall e :: 0 <= e <= d ==> s.dirs[e] == t.dirs[e]
    ensures LevelsOf(s, d) == LevelsOf(t, d)
    decreases d
  {
    assert FormedAt(s, d);
    if s.dirs[d].parent.Top? {
    } else {
      LevelsStay(s, t, s.dirs[d].parent.dir);
    }
  }

  /** The top directory's entries become those of the new root. */
  lemma {:induction false} PropagatedReachesRoot(o: Objects, d: Ref, name: string, node: Entry)
    requires Formed(o) && d < |o.dirs|
    ensures var t := Propagated(o, d, name, node);
            |t.dirs| == |o.dirs| && t.inodes == o.inodes && Folder(t.dirs[0].entries) == NewRoot(o, d, name, node)
    decreases d
  {
    assert FormedAt(o, d);
    if o.dirs[d].parent.Top? {
    } else {
      var p := o.dirs[d].parent.dir;
      WithEntryChanges(o, d, name, node);
      var t := WithEntry(o, d, name, node);
      LevelsStay(o, t, p);
      assert LevelsOf(o, d)[1..] == LevelsOf(o, p);
      PropagatedReachesRoot(t, p, o.dirs[d].name, Folder(t.dirs[d].entries));
    }
  }

  lemma {:induction false} PropagatedIsPart(o: Objects, d: Ref, name: string, node: Entry)
    requires Formed(o) && d < |o.dirs|
    ensures PartlyPropagated(o, d, name, node, Propagated(o, d, name, node))
    decreases d
  {
    assert FormedAt(o, d);
    WithEntryChanges(o, d, name, node);
    if o.dirs[d].parent.Top? {
    } else {
      var t := WithEntry(o, d, name, node);
      PropagatedIsPart(t, o.dirs[d].parent.dir, o.dirs[d].name, Folder(t.dirs[d].entries));
    }
  }

  /** For an attached object all the changed entries are overridden by caches: however far it got, no tree changes. */
  lemma {:induction false} PropagatedIsSynced(o: Objects, d: Ref, name: string, node: Entry, t: Objects)
    requires Formed(o) && d < |o.dirs| && Attached(o, d) && !Uncached(o, d, name)
    requires PartlyPropagated(o, d, name, node, t)
    ensures OnlySynced(o, t)
    decreases d
  {
    assert FormedAt(o, d);
    WithEntryChanges(o, d, name, node);
    var o1 := WithEntry(o, d, name, node);
    CachedEntryIsSynced(o, d, name, node);
    if t == o1 {
    } else {
      var p := o.dirs[d].parent.dir;
      AttachedStays(o, o1, p);
      PropagatedIsSynced(o1, p, o.dirs[d].name, Folder(o1.dirs[d].entries), t);
      SyncedTransitive(o, o1, t);
    }
  }

  /** One step of the way up. */
  lemma {:induction false} StepUp(o: Objects, d: Ref, name: string, node: Entry)
    requires Formed(o) && d < |o.dirs|
    ensures Formed(WithEntry(o, d, name, node))
    ensures o.dirs[d].parent.Top? ==>
              && NewRoot(o, d, name, node) == Folder(o.dirs[d].entries[name := node])
              && Propagated(o, d, name, node) == WithEntry(o, d, name, node)
    ensures o.dirs[d].parent.Under? ==>
              var t, p := WithEntry(o, d, name, node), o.dirs[d].parent.dir;
              var mine := Folder(o.dirs[d].entries[name := node]);
              && p < d
              && NewRoot(o, d, name, node) == NewRoot(t, p, o.dirs[d].name, mine)
              && Propagated(o, d, name, node) == Propagated(t, p, o.dirs[d].name, mine)
  {
    assert FormedAt(o, d);
    WithEntryChanges(o, d, name, node);
    if o.dirs[d].parent.Under? {
      var p := o.dirs[d].parent.dir;
      LevelsStay(o, WithEntry(o, d, name, node), p);
      assert LevelsOf(o, d)[1..] == LevelsOf(o, p);
    }
  }

  /** Flushing an open file of an attached directory puts its node at its path and changes nothing else. */
  lemma {:induction false} FlushedFileInTree(o: Objects, f: Ref, node: Entry, t: Objects)
    requires Formed(o) && f < |o.inodes| && IsCachedFile(o, f) && Attached(o, o.inodes[f].parent)
    requires OnlySynced(WithNode(o, f, node), t)
    ensures Formed(t)
    ensures TreeOf(t, 0) == Put(TreeOf(o, 0), PathTo(o, o.inodes[f].parent) + [o.inodes[f].name], node)
  {
    var p, name := o.inodes[f].parent, o.inodes[f].name;
    var m := WithNode(o, f, node);
    SetNode(o, f, node);
    RewritesWhole(o, m, p, TreeOf(o, p).entries[name := node]);
    assert name in NamesOf(o, p);
    AttachedResolves(o, p);
    PutAppend(TreeOf(o, 0), PathTo(o, p), [name], node);
    SyncedTree(m, t, 0);
  }

  lemma {:induction false} FlushedFile(o: Objects, f: Ref, node: Entry, t: Objects)
    requires Formed(o) && f < |o.inodes| && IsCachedFile(o, f) && Attached(o, o.inodes[f].parent)
    requires var m, p, name := WithNode(o, f, node), o.inodes[f].parent, o.inodes[f].name;
             Formed(m) && PartlyPropagated(m, p, name, node, t)
    ensures Formed(t)
    ensures TreeOf(t, 0) == Put(TreeOf(o, 0), PathTo(o, o.inodes[f].parent) + [o.inodes[f].name], node)
  {
    var m, p, name := WithNode(o, f, node), o.inodes[f].parent, o.inodes[f].name;
    WithNodeFormed(o, f, node);
    AttachedStays(o, m, p);
    PropagatedIsSynced(m, p, name, node, t);
    FlushedFileInTree(o, f, node, t);
  }
}
