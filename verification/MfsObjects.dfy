/**
 The directory and file objects of the mutable file system, and the tree they stand for.

 An object is named by a reference, its place in the order of allocation.
 */
module MfsObjects {
  import opened Dag
  import opened MfsNodes

  type Ref = nat

  datatype Parent = Top | Under(dir: Ref)

  /** A directory with the children it has opened, over the entries of its own DAG node. */
  datatype Directory = Directory(
    parent: Parent,
    name: string,
    childDirs: map<string, Ref>,
    files: map<string, Ref>,
    entries: map<string, Entry>)

  datatype File = File(parent: Ref, name: string, node: Entry)

  datatype Objects = Objects(dirs: seq<Directory>, inodes: seq<File>)

  /** Cached children know their parent and their name and come after it; object 0 is the top directory. */
  predicate FormedAt(o: Objects, d: Ref)
    requires d < |o.dirs|
  {
    && (if o.dirs[d].parent.Top? then d == 0 else o.dirs[d].parent.dir < d)
    && (forall n :: n in o.dirs[d].childDirs ==> IsChild(o, d, n, o.dirs[d].childDirs[n]))
    && (forall n :: n in o.dirs[d].files ==> IsInode(o, d, n, o.dirs[d].files[n]))
    && o.dirs[d].childDirs.Keys !! o.dirs[d].files.Keys
  }

  predicate IsChild(o: Objects, d: Ref, n: string, c: Ref) {
    d < c < |o.dirs| && o.dirs[c].parent == Under(d) && o.dirs[c].name == n
  }

  predicate IsInode(o: Objects, d: Ref, n: string, f: Ref) {
    f < |o.inodes| && o.inodes[f].parent == d && o.inodes[f].name == n
  }

  predicate Formed(o: Objects) {
    && o.dirs != []
    && (forall d :: 0 <= d < |o.dirs| ==> FormedAt(o, d))
    && (forall f :: 0 <= f < |o.inodes| ==> o.inodes[f].parent < |o.dirs|)
  }

  // ----- The tree of a directory -----

  function NamesOf(o: Objects, d: Ref): set<string>
    requires d < |o.dirs|
  {
    o.dirs[d].childDirs.Keys + o.dirs[d].files.Keys + o.dirs[d].entries.Keys
  }

  /** The tree a directory stands for: its DAG entries overridden by its cached children. */
  ghost function TreeOf(o: Objects, d: Ref): Entry
    requires Formed(o) && d < |o.dirs|
    decreases |o.dirs| - d
  {
    Folder(map n | n in NamesOf(o, d) :: ViewAt(o, d, n))
  }

  ghost function ViewAt(o: Objects, d: Ref, n: string): Entry
    requires Formed(o) && d < |o.dirs| && n in NamesOf(o, d)
    decreases |o.dirs| - d, 0
  {
    assert FormedAt(o, d);
    if n in o.dirs[d].childDirs then TreeOf(o, o.dirs[d].childDirs[n])
    else if n in o.dirs[d].files then o.inodes[o.dirs[d].files[n]].node
    else o.dirs[d].entries[n]
  }

  // ----- Position in the tree -----

  /** Directory `a` is `x` or one above it. */
  predicate IsUnder(o: Objects, x: Ref, a: Ref)
    requires Formed(o) && x < |o.dirs|
    decreases x
  {
    assert FormedAt(o, x);
    x == a || (o.dirs[x].parent.Under? && IsUnder(o, o.dirs[x].parent.dir, a))
  }

  function PathTo(o: Objects, d: Ref): Path
    requires Formed(o) && d < |o.dirs|
    decreases d
  {
    assert FormedAt(o, d);
    if o.dirs[d].parent.Top? then [] else PathTo(o, o.dirs[d].parent.dir) + [o.dirs[d].name]
  }

  /** Reached from the top through cached directories. */
  predicate Attached(o: Objects, d: Ref)
    requires Formed(o) && d < |o.dirs|
    decreases d
  {
    assert FormedAt(o, d);
    o.dirs[d].parent.Top? || (IsCached(o, d) && Attached(o, o.dirs[d].parent.dir))
  }

  /** The parent has this very object in its cache. */
  predicate IsCached(o: Objects, d: Ref)
    requires Formed(o) && d < |o.dirs|
  {
    assert FormedAt(o, d);
    var dir := o.dirs[d];
    && dir.parent.Under?
    && dir.name in o.dirs[dir.parent.dir].childDirs
    && o.dirs[dir.parent.dir].childDirs[dir.name] == d
  }

  lemma {:induction false} UnderIsLater(o: Objects, x: Ref, a: Ref)
    requires Formed(o) && x < |o.dirs| && IsUnder(o, x, a)
    ensures a <= x
    decreases x
  {
    assert FormedAt(o, x);
    if x == a {
    } else {
      UnderIsLater(o, o.dirs[x].parent.dir, a);
    }
  }

  lemma {:induction false} UnderIsLinear(o: Objects, x: Ref, a: Ref, b: Ref)
    requires Formed(o) && x < |o.dirs| && a < |o.dirs| && b < |o.dirs|
    requires IsUnder(o, x, a) && IsUnder(o, x, b)
    ensures IsUnder(o, a, b) || IsUnder(o, b, a)
    decreases x
  {
    assert FormedAt(o, x);
    if x != a && x != b {
      UnderIsLinear(o, o.dirs[x].parent.dir, a, b);
    }
  }

  lemma {:induction false} UnderStep(o: Objects, x: Ref, c: Ref)
    requires Formed(o) && x < |o.dirs| && c < |o.dirs| && IsUnder(o, x, c) && o.dirs[c].parent.Under?
    ensures IsUnder(o, x, o.dirs[c].parent.dir)
    decreases x
  {
    assert FormedAt(o, x) && FormedAt(o, c);
    if x == c {
    } else {
      UnderStep(o, o.dirs[x].parent.dir, c);
    }
  }

  /** Two children of one directory have nothing below them in common. */
  lemma {:induction false} SiblingsAreApart(o: Objects, x: Ref, a: Ref, b: Ref)
    requires Formed(o) && x < |o.dirs| && a < |o.dirs| && b < |o.dirs| && a != b
    requires o.dirs[a].parent.Under? && o.dirs[a].parent == o.dirs[b].parent
    requires IsUnder(o, x, a)
    ensures !IsUnder(o, x, b)
  {
    if IsUnder(o, x, b) {
      var p := o.dirs[a].parent.dir;
      assert FormedAt(o, a) && FormedAt(o, b);
      UnderIsLinear(o, x, a, b);
      UnderIsLater(o, p, if IsUnder(o, a, b) then b else a);
    }
  }

  // ----- What a change leaves alone -----

  /** Objects are only added, and keep their parent and their name. */
  predicate Grows(s: Objects, t: Objects) {
    && Formed(s) && Formed(t)
    && |s.dirs| <= |t.dirs| && |s.inodes| <= |t.inodes|
    && (forall d :: 0 <= d < |s.dirs| ==> t.dirs[d].parent == s.dirs[d].parent && t.dirs[d].name == s.dirs[d].name)
    && (forall f :: 0 <= f < |s.inodes| ==>
                      t.inodes[f].parent == s.inodes[f].parent && t.inodes[f].name == s.inodes[f].name)
  }

  /** The same cached directory, or else the same node. */
  ghost predicate AgreesAt(s: Objects, t: Objects, d: Ref, n: string)
    requires Formed(s) && Formed(t) && d < |s.dirs| && d < |t.dirs|
    requires n in NamesOf(s, d) && n in NamesOf(t, d)
  {
    if n in s.dirs[d].childDirs && n in t.dirs[d].childDirs then s.dirs[d].childDirs[n] == t.dirs[d].childDirs[n]
    else ViewAt(s, d, n) == ViewAt(t, d, n)
  }

  ghost predicate Agrees(s: Objects, t: Objects, d: Ref)
    requires Formed(s) && Formed(t) && d < |s.dirs| && d < |t.dirs|
  {
    && NamesOf(s, d) == NamesOf(t, d)
    && forall n :: n in NamesOf(s, d) ==> AgreesAt(s, t, d, n)
  }

  /** Only the directories in `changed` have changed in more than representation. */
  ghost predicate AgreesExcept(s: Objects, t: Objects, changed: set<Ref>) {
    && Grows(s, t)
    && forall d :: 0 <= d < |s.dirs| && d !in changed ==> Agrees(s, t, d)
  }

  /** A directory keeps its tree when nothing in its subtree is changed. */
  lemma {:induction false} TreeStays(s: Objects, t: Objects, d: Ref, changed: set<Ref>)
    requires AgreesExcept(s, t, changed) && d < |s.dirs|
    requires forall x :: x in changed ==> x < |s.dirs| && !IsUnder(s, x, d)
    ensures TreeOf(s, d) == TreeOf(t, d)
    decreases |s.dirs| - d
  {
    assert Agrees(s, t, d);
    forall n | n in NamesOf(s, d) ensures ViewAt(s, d, n) == ViewAt(t, d, n) {
      assert AgreesAt(s, t, d, n);
      if n in s.dirs[d].childDirs && n in t.dirs[d].childDirs {
        NothingUnderChild(s, d, n, changed);
        TreeStays(s, t, s.dirs[d].childDirs[n], changed);
      }
    }
  }

  lemma {:induction false} NothingUnderChild(o: Objects, d: Ref, n: string, changed: set<Ref>)
    requires Formed(o) && d < |o.dirs| && n in o.dirs[d].childDirs
    requires forall x :: x in changed ==> x < |o.dirs| && !IsUnder(o, x, d)
    ensures d < o.dirs[d].childDirs[n] < |o.dirs|
    ensures forall x :: x in changed ==> !IsUnder(o, x, o.dirs[d].childDirs[n])
  {
    assert FormedAt(o, d);
    var c := o.dirs[d].childDirs[n];
    assert IsChild(o, d, n, c);
    forall x | x in changed ensures !IsUnder(o, x, c) {
      if IsUnder(o, x, c) {
        UnderStep(o, x, c);
      }
    }
  }

  // ----- What a change does to the whole tree -----

  lemma {:induction false} AttachedResolves(o: Objects, d: Ref)
    requires Formed(o) && d < |o.dirs| && Attached(o, d)
    ensures Resolve(TreeOf(o, 0), PathTo(o, d)) == Some(TreeOf(o, d))
    decreases d
  {
    assert FormedAt(o, d);
    if o.dirs[d].parent.Top? {
    } else {
      var p := o.dirs[d].parent.dir;
      AttachedResolves(o, p);
      ResolveAppend(TreeOf(o, 0), PathTo(o, p), [o.dirs[d].name]);
      CachedResolves(o, d);
    }
  }

  lemma {:induction false} CachedResolves(o: Objects, d: Ref)
    requires Formed(o) && d < |o.dirs| && IsCached(o, d)
    ensures o.dirs[d].parent.dir < |o.dirs|
    ensures Resolve(TreeOf(o, o.dirs[d].parent.dir), [o.dirs[d].name]) == Some(TreeOf(o, d))
    ensures o.dirs[d].name in TreeOf(o, o.dirs[d].parent.dir).entries
  {
    assert FormedAt(o, d);
    assert ViewAt(o, o.dirs[d].parent.dir, o.dirs[d].name) == TreeOf(o, d);
  }

  /** One step up: the parent's tree changes under the child's name only. */
  lemma {:induction false} ParentReplaced(s: Objects, t: Objects, x: Ref, d: Ref)
    requires AgreesExcept(s, t, {x}) && x < |s.dirs| && d < |s.dirs| && IsUnder(s, x, d)
    requires IsCached(s, d) && IsCached(t, d)
    ensures s.dirs[d].parent.dir < d
    ensures TreeOf(t, s.dirs[d].parent.dir) == Put(TreeOf(s, s.dirs[d].parent.dir), [s.dirs[d].name], TreeOf(t, d))
  {
    var p, name := s.dirs[d].parent.dir, s.dirs[d].name;
    assert FormedAt(s, d);
    UnderIsLater(s, x, d);
    assert Agrees(s, t, p);
    CachedResolves(s, d);
    CachedResolves(t, d);
    forall n | n in NamesOf(s, p) && n != name ensures ViewAt(s, p, n) == ViewAt(t, p, n) {
      SiblingStays(s, t, x, d, n);
    }
    assert TreeOf(t, p).entries == TreeOf(s, p).entries[name := TreeOf(t, d)];
  }

  lemma {:induction false} SiblingStays(s: Objects, t: Objects, x: Ref, d: Ref, n: string)
    requires AgreesExcept(s, t, {x}) && x < |s.dirs| && d < |s.dirs| && IsUnder(s, x, d)
    requires s.dirs[d].parent.Under? && s.dirs[d].parent.dir < d <= x
    requires n in NamesOf(s, s.dirs[d].parent.dir) && n != s.dirs[d].name
    ensures var p := s.dirs[d].parent.dir;
            n in NamesOf(t, p) && ViewAt(s, p, n) == ViewAt(t, p, n)
  {
    var p := s.dirs[d].parent.dir;
    assert Agrees(s, t, p);
    assert AgreesAt(s, t, p, n);
    if n in s.dirs[p].childDirs && n in t.dirs[p].childDirs {
      assert FormedAt(s, p);
      var c := s.dirs[p].childDirs[n];
      assert IsChild(s, p, n, c);
      SiblingsAreApart(s, x, d, c);
      TreeStays(s, t, c, {x});
    }
  }

  /** A change in one attached directory replaces exactly its subtree in the whole tree. */
  lemma {:induction false} WholeTreeReplaced(s: Objects, t: Objects, x: Ref, d: Ref)
    requires AgreesExcept(s, t, {x}) && x < |s.dirs| && d < |s.dirs| && IsUnder(s, x, d)
    requires Attached(s, d) && Attached(t, d)
    ensures TreeOf(t, 0) == Put(TreeOf(s, 0), PathTo(s, d), TreeOf(t, d))
    decreases d
  {
    assert FormedAt(s, d);
    if s.dirs[d].parent.Top? {
    } else {
      var p := s.dirs[d].parent.dir;
      UnderStep(s, x, d);
      WholeTreeReplaced(s, t, x, p);
      ParentReplaced(s, t, x, d);
      AttachedResolves(s, p);
      PutAppend(TreeOf(s, 0), PathTo(s, p), [s.dirs[d].name], TreeOf(t, d));
    }
  }

  lemma {:induction false} AttachedStays(s: Objects, t: Objects, d: Ref)
    requires Grows(s, t) && d < |s.dirs|
    requires forall e :: 0 <= e < d ==> s.dirs[e] == t.dirs[e]
    ensures Attached(s, d) == Attached(t, d)
    decreases d
  {
    assert FormedAt(s, d);
    if s.dirs[d].parent.Top? {
    } else {
      AttachedStays(s, t, s.dirs[d].parent.dir);
    }
  }

  // ----- Changes in one directory -----

  /** Directory `d` now shows `view`; no other directory and nothing before it has changed. */
  ghost predicate Rewrites(s: Objects, t: Objects, d: Ref, view: map<string, Entry>) {
    && AgreesExcept(s, t, {d}) && d < |s.dirs|
    && (forall e :: 0 <= e < d ==> s.dirs[e] == t.dirs[e])
    && TreeOf(t, d) == Folder(view)
  }

  /** In the whole tree exactly the node at the directory's path is replaced. */
  lemma {:induction false} RewritesWhole(s: Objects, t: Objects, d: Ref, view: map<string, Entry>)
    requires Rewrites(s, t, d, view) && Attached(s, d)
    ensures TreeOf(t, 0) == Put(TreeOf(s, 0), PathTo(s, d), Folder(view))
  {
    AttachedStays(s, t, d);
    WholeTreeReplaced(s, t, d, d);
  }

  /** Nothing but directory `x` has changed; there may be new objects. */
  predicate SameBut(s: Objects, t: Objects, x: Ref) {
    && Grows(s, t) && x < |s.dirs|
    && (forall d :: 0 <= d < |s.dirs| && d != x ==> s.dirs[d] == t.dirs[d])
    && (forall f :: 0 <= f < |s.inodes| ==> s.inodes[f] == t.inodes[f])
  }

  lemma {:induction false} SameAgrees(s: Objects, t: Objects, d: Ref)
    requires Grows(s, t) && d < |s.dirs| && s.dirs[d] == t.dirs[d]
    requires forall f :: 0 <= f < |s.inodes| ==> s.inodes[f] == t.inodes[f]
    ensures Agrees(s, t, d)
  {
    assert FormedAt(s, d);
    forall n | n in NamesOf(s, d) ensures AgreesAt(s, t, d, n) {
    }
  }

  lemma {:induction false} SameButAgrees(s: Objects, t: Objects, x: Ref)
    requires SameBut(s, t, x)
    ensures AgreesExcept(s, t, {x})
    ensures Agrees(s, t, x) ==> AgreesExcept(s, t, {})
  {
    forall d | 0 <= d < |s.dirs| && d != x ensures Agrees(s, t, d) {
      SameAgrees(s, t, d);
    }
  }

  /** Replacing the fields of one directory, with new objects for its new children. */
  lemma {:induction false} FieldsChange(
      s: Objects, x: Ref, dir: Directory, newDirs: seq<Directory>, newInodes: seq<File>)
    requires Formed(s) && x < |s.dirs| && dir.parent == s.dirs[x].parent && dir.name == s.dirs[x].name
    requires var t := Objects(s.dirs[x := dir] + newDirs, s.inodes + newInodes);
             && FormedAt(t, x)
             && (forall d :: |s.dirs| <= d < |t.dirs| ==> FormedAt(t, d))
             && (forall f :: 0 <= f < |newInodes| ==> newInodes[f].parent < |s.dirs|)
    ensures SameBut(s, Objects(s.dirs[x := dir] + newDirs, s.inodes + newInodes), x)
  {
    var t := Objects(s.dirs[x := dir] + newDirs, s.inodes + newInodes);
    forall d | 0 <= d < |t.dirs| ensures FormedAt(t, d) {
      if d < |s.dirs| && d != x {
        assert FormedAt(s, d);
        forall n | n in s.dirs[d].childDirs ensures IsChild(t, d, n, s.dirs[d].childDirs[n]) {
          assert IsChild(s, d, n, s.dirs[d].childDirs[n]);
        }
      }
    }
  }

  function WithEntry(o: Objects, d: Ref, n: string, e: Entry): Objects
    requires d < |o.dirs|
  {
    o.(dirs := o.dirs[d := o.dirs[d].(entries := o.dirs[d].entries[n := e])])
  }

  function WithoutName(o: Objects, d: Ref, n: string): Objects
    requires d < |o.dirs|
  {
    var dir := o.dirs[d];
    o.(dirs := o.dirs[d := dir.(childDirs := dir.childDirs - {n},
                                files := dir.files - {n},
                                entries := dir.entries - {n})])
  }

  /** A new directory object with the given entries, cached under its name. */
  function WithDir(o: Objects, d: Ref, n: string, entries: map<string, Entry>): Objects
    requires d < |o.dirs|
  {
    var dir := o.dirs[d];
    o.(dirs := o.dirs[d := dir.(childDirs := dir.childDirs[n := |o.dirs|])]
               + [Directory(Under(d), n, map[], map[], entries)])
  }

  /** A new file object for the given node, cached under its name. */
  function WithFile(o: Objects, d: Ref, n: string, node: Entry): Objects
    requires d < |o.dirs|
  {
    var dir := o.dirs[d];
    Objects(o.dirs[d := dir.(files := dir.files[n := |o.inodes|])], o.inodes + [File(d, n, node)])
  }

  predicate Uncached(o: Objects, d: Ref, n: string)
    requires d < |o.dirs|
  {
    n !in o.dirs[d].childDirs && n !in o.dirs[d].files
  }

  lemma {:induction false} WithEntryChanges(o: Objects, d: Ref, n: string, e: Entry)
    requires Formed(o) && d < |o.dirs|
    ensures SameBut(o, WithEntry(o, d, n, e), d)
  {
    var t := WithEntry(o, d, n, e);
    assert FormedAt(o, d);
    assert t == Objects(o.dirs[d := t.dirs[d]] + [], o.inodes + []);
    ChildrenStay(o, t, d);
    FieldsChange(o, d, t.dirs[d], [], []);
  }

  lemma {:induction false} ChildrenStay(s: Objects, t: Objects, d: Ref)
    requires Formed(s) && d < |s.dirs| <= |t.dirs| && |s.inodes| <= |t.inodes|
    requires forall e :: 0 <= e < |s.dirs| ==> t.dirs[e].parent == s.dirs[e].parent && t.dirs[e].name == s.dirs[e].name
    requires forall f :: 0 <= f < |s.inodes| ==>
                           t.inodes[f].parent == s.inodes[f].parent && t.inodes[f].name == s.inodes[f].name
    ensures forall n :: n in s.dirs[d].childDirs ==> IsChild(t, d, n, s.dirs[d].childDirs[n])
    ensures forall n :: n in s.dirs[d].files ==> IsInode(t, d, n, s.dirs[d].files[n])
  {
    assert FormedAt(s, d);
    forall n | n in s.dirs[d].childDirs ensures IsChild(t, d, n, s.dirs[d].childDirs[n]) {
      assert IsChild(s, d, n, s.dirs[d].childDirs[n]);
    }
    forall n | n in s.dirs[d].files ensures IsInode(t, d, n, s.dirs[d].files[n]) {
      assert IsInode(s, d, n, s.dirs[d].files[n]);
    }
  }

  lemma {:induction false} WithoutNameChanges(o: Objects, d: Ref, n: string)
    requires Formed(o) && d < |o.dirs|
    ensures SameBut(o, WithoutName(o, d, n), d)
  {
    var t := WithoutName(o, d, n);
    assert FormedAt(o, d);
    assert t == Objects(o.dirs[d := t.dirs[d]] + [], o.inodes + []);
    ChildrenStay(o, t, d);
    FieldsChange(o, d, t.dirs[d], [], []);
  }

  lemma {:induction false} WithDirChanges(o: Objects, d: Ref, n: string, entries: map<string, Entry>)
    requires Formed(o) && d < |o.dirs| && Uncached(o, d, n)
    ensures SameBut(o, WithDir(o, d, n, entries), d)
    ensures TreeOf(WithDir(o, d, n, entries), |o.dirs|) == Folder(entries)
  {
    var t := WithDir(o, d, n, entries);
    assert FormedAt(o, d);
    assert t == Objects(o.dirs[d := t.dirs[d]] + [t.dirs[|o.dirs|]], o.inodes + []);
    ChildrenStay(o, t, d);
    FieldsChange(o, d, t.dirs[d], [t.dirs[|o.dirs|]], []);
  }

  lemma {:induction false} WithFileChanges(o: Objects, d: Ref, n: string, node: Entry)
    requires Formed(o) && d < |o.dirs| && Uncached(o, d, n)
    ensures SameBut(o, WithFile(o, d, n, node), d)
  {
    var t := WithFile(o, d, n, node);
    assert FormedAt(o, d);
    assert t == Objects(o.dirs[d := t.dirs[d]] + [], o.inodes + [File(d, n, node)]);
    ChildrenStay(o, t, d);
    FieldsChange(o, d, t.dirs[d], [], [File(d, n, node)]);
  }

  /** The other names of a directory show the same when their cached object or entry is the same. */
  lemma {:induction false} OtherNamesStay(s: Objects, t: Objects, d: Ref, n: string)
    requires SameBut(s, t, d) && n in NamesOf(s, d) && n in NamesOf(t, d)
    requires n in s.dirs[d].childDirs <==> n in t.dirs[d].childDirs
    requires n in s.dirs[d].childDirs ==> s.dirs[d].childDirs[n] == t.dirs[d].childDirs[n]
    requires n in s.dirs[d].files <==> n in t.dirs[d].files
    requires n in s.dirs[d].files ==> s.dirs[d].files[n] == t.dirs[d].files[n]
    requires Uncached(s, d, n) ==> s.dirs[d].entries[n] == t.dirs[d].entries[n]
    ensures AgreesAt(s, t, d, n) && ViewAt(s, d, n) == ViewAt(t, d, n)
  {
    assert FormedAt(s, d);
    if n in s.dirs[d].childDirs {
      var c := s.dirs[d].childDirs[n];
      assert IsChild(s, d, n, c);
      if IsUnder(s, d, c) {
        UnderIsLater(s, d, c);
      }
      SameButAgrees(s, t, d);
      TreeStays(s, t, c, {d});
    }
  }

  // ----- The effect of each operation on the tree -----

  /** Opening a child from the entries changes no tree. */
  lemma {:induction false} OpeningDir(o: Objects, d: Ref, n: string, entries: map<string, Entry>)
    requires Formed(o) && d < |o.dirs| && Uncached(o, d, n)
    requires n in o.dirs[d].entries && o.dirs[d].entries[n] == Folder(entries)
    ensures AgreesExcept(o, WithDir(o, d, n, entries), {})
  {
    var t := WithDir(o, d, n, entries);
    WithDirChanges(o, d, n, entries);
    SameButAgrees(o, t, d);
    assert NamesOf(t, d) == NamesOf(o, d);
    forall m | m in NamesOf(o, d) && m != n ensures AgreesAt(o, t, d, m) {
      OtherNamesStay(o, t, d, m);
    }
  }

  lemma {:induction false} OpeningFile(o: Objects, d: Ref, n: string, node: Entry)
    requires Formed(o) && d < |o.dirs| && Uncached(o, d, n)
    requires n in o.dirs[d].entries && o.dirs[d].entries[n] == node
    ensures AgreesExcept(o, WithFile(o, d, n, node), {})
  {
    var t := WithFile(o, d, n, node);
    WithFileChanges(o, d, n, node);
    SameButAgrees(o, t, d);
    assert NamesOf(t, d) == NamesOf(o, d);
    forall m | m in NamesOf(o, d) && m != n ensures AgreesAt(o, t, d, m) {
      OtherNamesStay(o, t, d, m);
    }
  }

  lemma {:induction false} AddingEntry(o: Objects, d: Ref, n: string, e: Entry)
    requires Formed(o) && d < |o.dirs| && Uncached(o, d, n)
    ensures Rewrites(o, WithEntry(o, d, n, e), d, TreeOf(o, d).entries[n := e])
  {
    var t := WithEntry(o, d, n, e);
    WithEntryChanges(o, d, n, e);
    SameButAgrees(o, t, d);
    assert NamesOf(t, d) == NamesOf(o, d) + {n};
    forall m | m in NamesOf(o, d) && m != n ensures ViewAt(t, d, m) == ViewAt(o, d, m) {
      OtherNamesStay(o, t, d, m);
    }
    assert ViewAt(t, d, n) == e;
    assert TreeOf(t, d).entries == TreeOf(o, d).entries[n := e];
  }

  lemma {:induction false} Unlinking(o: Objects, d: Ref, n: string)
    requires Formed(o) && d < |o.dirs|
    ensures Rewrites(o, WithoutName(o, d, n), d, TreeOf(o, d).entries - {n})
  {
    var t := WithoutName(o, d, n);
    WithoutNameChanges(o, d, n);
    SameButAgrees(o, t, d);
    assert NamesOf(t, d) == NamesOf(o, d) - {n};
    forall m | m in NamesOf(o, d) && m != n ensures ViewAt(t, d, m) == ViewAt(o, d, m) {
      OtherNamesStay(o, t, d, m);
    }
  }

  /** Caching an object for the entry that was just added changes nothing more. */
  lemma {:induction false} MakingDir(o: Objects, d: Ref, n: string)
    requires Formed(o) && d < |o.dirs| && Uncached(o, d, n)
    ensures var t := WithDir(WithEntry(o, d, n, EMPTY_FOLDER), d, n, map[]);
            Rewrites(o, t, d, TreeOf(o, d).entries[n := EMPTY_FOLDER])
  {
    var m := WithEntry(o, d, n, EMPTY_FOLDER);
    var t := WithDir(m, d, n, map[]);
    AddingEntry(o, d, n, EMPTY_FOLDER);
    WithEntryChanges(o, d, n, EMPTY_FOLDER);
    OpeningDir(m, d, n, map[]);
    WithDirChanges(m, d, n, map[]);
    TreeStays(m, t, d, {});
    SameButAgrees(o, t, d);
  }
}
