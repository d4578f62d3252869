/**
 The mutable file system: the root with its directory and file objects, which cache opened
 children over their DAG entries and hand new versions of the root to the republisher.
 */
module Mfs {
  import opened Dag
  import opened MfsNodes
  import opened MfsObjects
  import opened MfsFlush

  datatype Child = SubDir(dir: Ref) | Inode(file: Ref)

  datatype Status = Done | Existed | StoreFailed

  /** The node in the directory's entries under the name, if there is one. */
  function EntryAt(o: Objects, d: Ref, name: string): set<Entry>
    requires d < |o.dirs|
  {
    if name in o.dirs[d].entries then {o.dirs[d].entries[name]} else {}
  }

  /** The name leads to a cached child, or to a node that is in the store and can be opened. */
  predicate CanOpen(o: Objects, d: Ref, name: string, blocks: set<Entry>)
    requires d < |o.dirs|
  {
    || name in o.dirs[d].childDirs
    || name in o.dirs[d].files
    || exists e :: e in EntryAt(o, d, name) && e in blocks && !e.Unsupported?
  }

  // ----- What the DAG service holds -----

  ghost predicate Held(blocks: set<Entry>, e: Entry) {
    && e in blocks
    && (e.Folder? ==> forall n :: n in e.entries ==> Held(blocks, e.entries[n]))
  }

  lemma {:induction false} HeldGrows(blocks: set<Entry>, more: set<Entry>, e: Entry)
    requires blocks <= more && Held(blocks, e)
    ensures Held(more, e)
    decreases e
  {
    if !e.Folder? {
    } else {
      forall n | n in e.entries ensures Held(more, e.entries[n]) {
        HeldGrows(blocks, more, e.entries[n]);
      }
    }
  }

  /** Everything below any entry or open file is in the store. */
  ghost predicate Anchored(o: Objects, blocks: set<Entry>) {
    && (forall d, n :: 0 <= d < |o.dirs| && n in o.dirs[d].entries ==> Held(blocks, o.dirs[d].entries[n]))
    && (forall f :: 0 <= f < |o.inodes| ==> Held(blocks, o.inodes[f].node))
  }

  lemma {:induction false} AnchoredGrows(o: Objects, blocks: set<Entry>, more: set<Entry>)
    requires Anchored(o, blocks) && blocks <= more
    ensures Anchored(o, more)
  {
    forall d, n | 0 <= d < |o.dirs| && n in o.dirs[d].entries ensures Held(more, o.dirs[d].entries[n]) {
      HeldGrows(blocks, more, o.dirs[d].entries[n]);
    }
    forall f | 0 <= f < |o.inodes| ensures Held(more, o.inodes[f].node) {
      HeldGrows(blocks, more, o.inodes[f].node);
    }
  }

  /** A directory whose own node has just been added is held with all below it. */
  lemma {:induction false} FolderHeld(o: Objects, blocks: set<Entry>, d: Ref)
    requires Anchored(o, blocks) && d < |o.dirs|
    ensures Anchored(o, blocks + {Folder(o.dirs[d].entries)})
    ensures Held(blocks + {Folder(o.dirs[d].entries)}, Folder(o.dirs[d].entries))
  {
    AnchoredGrows(o, blocks, blocks + {Folder(o.dirs[d].entries)});
  }

  class Root {
    var dirs: seq<Directory>
    var inodes: seq<File>
    // The nodes held by the DAG service that all directories share.
    var blocks: set<Entry>
    // How many writes to it have failed. A call that fails has one of these as its cause.
    ghost var faults: nat
    // The value last handed to the republisher, if there is one.
    const republishing: bool
    var val: Option<Entry>

    ghost function Now(): Objects
      reads this`dirs, this`inodes
    {
      Objects(dirs, inodes)
    }

    ghost predicate Valid()
      reads this`dirs, this`inodes
    {
      Formed(Now())
    }

    ghost predicate Live(d: Ref)
      reads this`dirs, this`inodes
    {
      Formed(Now()) && d < |dirs|
    }

    constructor (name: string, entries: map<string, Entry>, blocks: set<Entry>, republishing: bool)
      ensures Valid() && TreeOf(Now(), 0) == Folder(entries) && this.blocks == blocks
      ensures this.republishing == republishing && val == if republishing then Some(Folder(entries)) else None
    {
      dirs := [Directory(Top, name, map[], map[], entries)];
      inodes := [];
      this.blocks := blocks;
      this.republishing := republishing;
      val := if republishing then Some(Folder(entries)) else None;
    }

    /** Adds a node to the DAG service. A failed call may or may not have stored it. */
    method Store(node: Entry) returns (ok: bool)
      modifies this`blocks, this`faults
      ensures old(blocks) <= blocks <= old(blocks) + {node}
      ensures ok ==> blocks == old(blocks) + {node}
      ensures old(Anchored(Now(), blocks)) ==> Anchored(Now(), blocks)
      ensures old(faults) <= faults && (!ok ==> old(faults) < faults)
    {
      ghost var before := blocks;
      var stored: bool := *;
      var announced: bool := *;
      if stored {
        blocks := blocks + {node};
      }
      ok := stored && announced;
      if !ok { faults := faults + 1; }
      if Anchored(Now(), before) {
        AnchoredGrows(Now(), before, blocks);
      }
    }

    // ----- Opening children -----

    /** Reads a node. One that is not stored may or may not be found elsewhere, and is stored then. */
    method Fetch(node: Entry) returns (ok: bool)
      modifies this`blocks
      ensures ok <==> node in blocks
      ensures old(blocks) <= blocks <= old(blocks) + {node}
      ensures old(Anchored(Now(), blocks)) ==> Anchored(Now(), blocks)
    {
      ghost var before := blocks;
      var found: bool := *;
      if found {
        blocks := blocks + {node};
      }
      ok := node in blocks;
      if Anchored(Now(), before) {
        AnchoredGrows(Now(), before, blocks);
      }
    }

    /** The child object is cached under the name. */
    predicate Holds(d: Ref, name: string, child: Child)
      requires d < |dirs|
      reads this
    {
      match child
      case SubDir(c) => name in dirs[d].childDirs && dirs[d].childDirs[name] == c
      case Inode(f) => name in dirs[d].files && dirs[d].files[name] == f
    }

    /** Returns the cached child, or opens the child from the DAG entries and caches it. */
    method ChildUnsync(d: Ref, name: string) returns (child: Option<Child>)
      requires Live(d)
      modifies this`dirs, this`inodes, this`blocks
      ensures Live(d) && AgreesExcept(old(Now()), Now(), {})
      ensures child.Some? <==> CanOpen(old(Now()), d, name, blocks)
      ensures old(blocks) <= blocks <= old(blocks) + EntryAt(old(Now()), d, name)
      ensures child.Some? ==> Holds(d, name, child.value)
      ensures child.None? ==> Now() == old(Now())
      ensures old(Anchored(Now(), blocks)) ==> Anchored(Now(), blocks)
    {
      if name in dirs[d].childDirs {
        return Some(SubDir(dirs[d].childDirs[name]));
      }
      if name in dirs[d].files {
        return Some(Inode(dirs[d].files[name]));
      }
      if name !in dirs[d].entries {
        return None;
      }
      var found := Fetch(dirs[d].entries[name]);
      if !found {
        return None;
      }
      child := CacheNode(d, name, dirs[d].entries[name]);
    }

    method CacheNode(d: Ref, name: string, node: Entry) returns (child: Option<Child>)
      requires Live(d) && Uncached(Now(), d, name) && name in dirs[d].entries && dirs[d].entries[name] == node
      modifies this`dirs, this`inodes
      ensures Live(d) && AgreesExcept(old(Now()), Now(), {})
      ensures child.None? <==> node.Unsupported?
      ensures child.Some? ==> Holds(d, name, child.value)
      ensures child.None? ==> Now() == old(Now())
      ensures old(Anchored(Now(), blocks)) ==> Anchored(Now(), blocks)
    {
      match node
      case Folder(entries) =>
        OpeningDir(Now(), d, name, entries);
        child := Some(SubDir(|dirs|));
        NewDirectory(d, name, entries);
      case Blob(_) =>
        OpeningFile(Now(), d, name, node);
        child := Some(Inode(|inodes|));
        dirs := dirs[d := dirs[d].(files := dirs[d].files[name := |inodes|])];
        inodes := inodes + [File(d, name, node)];
      case Unsupported(_) =>
        child := None;
    }

    /** Makes a directory object and caches it in its parent. */
    method NewDirectory(d: Ref, name: string, entries: map<string, Entry>)
      requires Live(d) && Uncached(Now(), d, name)
      modifies this`dirs
      ensures Live(d) && Now() == WithDir(old(Now()), d, name, entries)
      ensures old(Anchored(Now(), blocks)) && (forall n :: n in entries ==> Held(blocks, entries[n])) ==>
                Anchored(Now(), blocks)
    {
      WithDirChanges(Now(), d, name, entries);
      dirs := dirs[d := dirs[d].(childDirs := dirs[d].childDirs[name := |dirs|])]
              + [Directory(Under(d), name, map[], map[], entries)];
    }

    // ----- Changing a directory -----

    method AddUnixFSChild(d: Ref, name: string, node: Entry)
      requires Live(d)
      modifies this`dirs
      ensures Live(d) && Now() == WithEntry(old(Now()), d, name, node)
      ensures old(Anchored(Now(), blocks)) && Held(blocks, node) ==> Anchored(Now(), blocks)
    {
      WithEntryChanges(Now(), d, name, node);
      dirs := dirs[d := dirs[d].(entries := dirs[d].entries[name := node])];
    }

    /**
     A name that cannot be opened, whether free or not, becomes an empty directory. No tree
     changes when it can be opened or the directory cannot be stored.
     */
    method Mkdir(d: Ref, name: string) returns (dir: Option<Ref>, status: Status)
      requires Live(d)
      modifies this`dirs, this`inodes, this`blocks, this`faults
      ensures Live(d) && (old(CanOpen(Now(), d, name, blocks)) ==> status == Existed)
      ensures old(blocks) <= blocks <= old(blocks) + EntryAt(old(Now()), d, name) + {EMPTY_FOLDER}
      ensures status == Existed ==> CanOpen(old(Now()), d, name, blocks) && AgreesExcept(old(Now()), Now(), {})
      ensures status == Existed ==> blocks <= old(blocks) + EntryAt(old(Now()), d, name)
      ensures status == StoreFailed ==> Now() == old(Now())
      ensures status == Done ==>
                && Rewrites(old(Now()), Now(), d, old(TreeOf(Now(), d)).entries[name := EMPTY_FOLDER])
                && EMPTY_FOLDER in blocks
      ensures dir.Some? ==> Holds(d, name, SubDir(dir.value))
      ensures dir.None? <==> status == StoreFailed || (status == Existed && name in dirs[d].files)
      ensures old(Anchored(Now(), blocks)) ==> Anchored(Now(), blocks)
      ensures old(faults) <= faults && (status == StoreFailed ==> old(faults) < faults)
    {
      var child := ChildUnsync(d, name);
      if child.Some? {
        assert FormedAt(Now(), d);
        match child.value
        case SubDir(c) => return Some(c), Existed;
        case Inode(_) => return None, Existed;
      }
      MakingDir(Now(), d, name);
      var ok := Store(EMPTY_FOLDER);
      if !ok {
        return None, StoreFailed;
      }
      AddUnixFSChild(d, name, EMPTY_FOLDER);
      dir, status := Some(|dirs|), Done;
      NewDirectory(d, name, map[]);
    }

    /** Puts the node under the name, unless the name can be opened or the node cannot be stored. */
    method AddChild(d: Ref, name: string, node: Entry) returns (status: Status)
      requires Live(d)
      modifies this`dirs, this`inodes, this`blocks, this`faults
      ensures Live(d) && (old(CanOpen(Now(), d, name, blocks)) ==> status == Existed)
      ensures old(blocks) <= blocks <= old(blocks) + EntryAt(old(Now()), d, name) + {node}
      ensures status == Existed ==> CanOpen(old(Now()), d, name, blocks) && AgreesExcept(old(Now()), Now(), {})
      ensures status == Existed ==> blocks <= old(blocks) + EntryAt(old(Now()), d, name)
      ensures status == StoreFailed ==> Now() == old(Now())
      ensures status == Done ==>
                && Rewrites(old(Now()), Now(), d, old(TreeOf(Now(), d)).entries[name := node])
                && node in blocks
      ensures old(Anchored(Now(), blocks)) && (status == Done ==> Held(blocks, node)) ==> Anchored(Now(), blocks)
      ensures old(faults) <= faults && (status == StoreFailed ==> old(faults) < faults)
    {
      var child := ChildUnsync(d, name);
      if child.Some? {
        return Existed;
      }
      AddingEntry(Now(), d, name, node);
      var ok := Store(node);
      if !ok {
        return StoreFailed;
      }
      AddUnixFSChild(d, name, node);
      status := Done;
    }

    /** Removes the name from the tree; it is an error when the entries do not have it. */
    method Unlink(d: Ref, name: string) returns (ok: bool)
      requires Live(d)
      modifies this`dirs
      ensures Live(d) && Rewrites(old(Now()), Now(), d, old(TreeOf(Now(), d)).entries - {name})
      ensures ok <==> name in old(dirs[d].entries)
      ensures old(Anchored(Now(), blocks)) ==> Anchored(Now(), blocks)
    {
      Unlinking(Now(), d, name);
      WithoutNameChanges(Now(), d, name);
      dirs := dirs[d := dirs[d].(childDirs := dirs[d].childDirs - {name}, files := dirs[d].files - {name})];
      ok := name in dirs[d].entries;
      dirs := dirs[d := dirs[d].(entries := dirs[d].entries - {name})];
      assert Now() == WithoutName(old(Now()), d, name);
    }

    // ----- Flushing -----

    /** Writes the current node of every cached child into the entries. A failure leaves some of them unwritten. */
    method Sync(d: Ref) returns (ok: bool)
      requires Live(d)
      modifies this`dirs, this`blocks, this`faults
      ensures OnlySynced(old(Now()), Now()) && Live(d)
      ensures forall e :: 0 <= e < d ==> dirs[e] == old(dirs[e])
      ensures ok ==> Folder(dirs[d].entries) == old(TreeOf(Now(), d))
      ensures old(blocks) <= blocks
      ensures old(Anchored(Now(), blocks)) ==> Anchored(Now(), blocks)
      ensures old(faults) <= faults && (!ok ==> old(faults) < faults)
      decreases |dirs| - d, 1
    {
      ghost var s := Now();
      ok := SyncDirs(d);
      if !ok {
        return;
      }
      SyncFiles(d, s);
      AllWritten(s, Now(), d);
    }

    method SyncDirs(d: Ref) returns (ok: bool)
      requires Live(d)
      modifies this`dirs, this`blocks, this`faults
      ensures OnlySynced(old(Now()), Now()) && Live(d)
      ensures forall e :: 0 <= e < d ==> dirs[e] == old(dirs[e])
      ensures ok ==> forall n :: n in old(dirs[d].childDirs) ==> Written(old(Now()), d, n)
      ensures old(blocks) <= blocks
      ensures old(Anchored(Now(), blocks)) ==> Anchored(Now(), blocks)
      ensures old(faults) <= faults && (!ok ==> old(faults) < faults)
      decreases |dirs| - d, 0
    {
      ghost var s := Now();
      ghost var anchored := Anchored(s, blocks);
      var todo := dirs[d].childDirs.Keys;
      while todo != {}
        invariant todo <= s.dirs[d].childDirs.Keys
        invariant OnlySynced(s, Now()) && Formed(Now())
        invariant forall e :: 0 <= e < d ==> dirs[e] == s.dirs[e]
        invariant forall n :: n in s.dirs[d].childDirs && n !in todo ==> Written(s, d, n)
        invariant old(blocks) <= blocks && old(faults) <= faults
        invariant anchored ==> Anchored(Now(), blocks)
        decreases |todo|
      {
        var n :| n in todo;
        ok := SyncChild(d, n, s);
        if !ok {
          return;
        }
        todo := todo - {n};
      }
      ok := true;
    }

    method SyncChild(d: Ref, n: string, ghost s: Objects) returns (ok: bool)
      requires Live(d) && Formed(s) && d < |s.dirs| && OnlySynced(s, Now()) && n in s.dirs[d].childDirs
      modifies this`dirs, this`blocks, this`faults
      ensures OnlySynced(s, Now()) && Formed(Now())
      ensures forall e :: 0 <= e < d ==> dirs[e] == old(dirs[e])
      ensures ok ==> Written(s, d, n) && forall m :: m in NamesOf(s, d) && old(Written(s, d, m)) ==> Written(s, d, m)
      ensures old(blocks) <= blocks
      ensures old(Anchored(Now(), blocks)) ==> Anchored(Now(), blocks)
      ensures old(faults) <= faults && (!ok ==> old(faults) < faults)
      decreases |dirs| - d - 1, 3
    {
      assert FormedAt(s, d);
      assert IsChild(s, d, n, s.dirs[d].childDirs[n]);
      SyncedTree(s, Now(), s.dirs[d].childDirs[n]);
      assert SyncedAt(s.dirs[d], dirs[d]);
      ghost var before := Now();
      var node := GetNode(dirs[d].childDirs[n]);
      SyncedTransitive(s, before, Now());
      if node.None? {
        return false;
      }
      WriteChild(d, n, node.value, s);
      ok := true;
    }

    method SyncFiles(d: Ref, ghost s: Objects)
      requires Live(d) && Formed(s) && d < |s.dirs| && OnlySynced(s, Now())
      modifies this`dirs
      ensures OnlySynced(s, Now()) && Live(d)
      ensures forall e :: 0 <= e < d ==> dirs[e] == old(dirs[e])
      ensures forall n :: n in s.dirs[d].files ==> Written(s, d, n)
      ensures forall n :: n in NamesOf(s, d) && old(Written(s, d, n)) ==> Written(s, d, n)
      ensures old(Anchored(Now(), blocks)) ==> Anchored(Now(), blocks)
    {
      ghost var anchored := Anchored(Now(), blocks);
      assert SyncedAt(s.dirs[d], dirs[d]);
      var todo := dirs[d].files.Keys;
      while todo != {}
        invariant todo <= s.dirs[d].files.Keys
        invariant OnlySynced(s, Now()) && Formed(Now())
        invariant forall e :: 0 <= e < d ==> dirs[e] == old(dirs[e])
        invariant forall n :: n in s.dirs[d].files && n !in todo ==> Written(s, d, n)
        invariant forall n :: n in NamesOf(s, d) && old(Written(s, d, n)) ==> Written(s, d, n)
        invariant anchored ==> Anchored(Now(), blocks)
        decreases |todo|
      {
        var n :| n in todo;
        SyncFile(d, n, s);
        todo := todo - {n};
      }
    }

    method SyncFile(d: Ref, n: string, ghost s: Objects)
      requires Live(d) && Formed(s) && d < |s.dirs| && OnlySynced(s, Now()) && n in s.dirs[d].files
      modifies this`dirs
      ensures OnlySynced(s, Now()) && Formed(Now())
      ensures forall e :: 0 <= e < d ==> dirs[e] == old(dirs[e])
      ensures Written(s, d, n) && forall m :: m in NamesOf(s, d) && old(Written(s, d, m)) ==> Written(s, d, m)
      ensures old(Anchored(Now(), blocks)) ==> Anchored(Now(), blocks)
    {
      assert SyncedAt(s.dirs[d], dirs[d]) && FormedAt(s, d);
      assert IsInode(s, d, n, s.dirs[d].files[n]);
      WriteChild(d, n, inodes[dirs[d].files[n]].node, s);
    }

    /** The entry under the name is what the cached child stood for. */
    ghost predicate Written(s: Objects, d: Ref, n: string)
      requires Formed(s) && d < |s.dirs| && n in NamesOf(s, d)
      reads this`dirs
    {
      d < |dirs| && n in dirs[d].entries && dirs[d].entries[n] == ViewAt(s, d, n)
    }

    method WriteChild(d: Ref, n: string, node: Entry, ghost s: Objects)
      requires Live(d) && Formed(s) && d < |s.dirs| && OnlySynced(s, Now()) && !Uncached(s, d, n)
      requires node == ViewAt(s, d, n)
      modifies this`dirs
      ensures OnlySynced(s, Now()) && Formed(Now())
      ensures forall e :: 0 <= e < d ==> dirs[e] == old(dirs[e])
      ensures Written(s, d, n) && forall m :: m in NamesOf(s, d) && old(Written(s, d, m)) ==> Written(s, d, m)
      ensures old(Anchored(Now(), blocks)) && Held(blocks, node) ==> Anchored(Now(), blocks)
    {
      assert SyncedAt(s.dirs[d], dirs[d]);
      CachedEntryIsSynced(Now(), d, n, node);
      SyncedTransitive(s, Now(), WithEntry(Now(), d, n, node));
      AddUnixFSChild(d, n, node);
    }

    /** The DAG node of the whole tree of the directory, at every depth. Even when it fails, no tree changes. */
    method GetNode(d: Ref) returns (node: Option<Entry>)
      requires Live(d)
      modifies this`dirs, this`blocks, this`faults
      ensures OnlySynced(old(Now()), Now()) && Live(d)
      ensures forall e :: 0 <= e < d ==> dirs[e] == old(dirs[e])
      ensures node.Some? ==> node.value == old(TreeOf(Now(), d)) == Folder(dirs[d].entries) && node.value in blocks
      ensures old(blocks) <= blocks
      ensures old(Anchored(Now(), blocks)) ==> Anchored(Now(), blocks) && (node.Some? ==> Held(blocks, node.value))
      ensures old(faults) <= faults && (node.None? ==> old(faults) < faults)
      decreases |dirs| - d, 2
    {
      var ok := Sync(d);
      if !ok {
        return None;
      }
      node := FlushCurrentNode(d);
    }

    /** Stores the node that the entries make up. */
    method FlushCurrentNode(d: Ref) returns (node: Option<Entry>)
      requires Live(d)
      modifies this`blocks, this`faults
      ensures old(blocks) <= blocks <= old(blocks) + {Folder(dirs[d].entries)}
      ensures node.Some? ==> node.value == Folder(dirs[d].entries) && blocks == old(blocks) + {node.value}
      ensures old(Anchored(Now(), blocks)) ==> Anchored(Now(), blocks) && (node.Some? ==> Held(blocks, node.value))
      ensures old(faults) <= faults && (node.None? ==> old(faults) < faults)
    {
      if Anchored(Now(), blocks) {
        FolderHeld(Now(), blocks, d);
      }
      var ok := Store(Folder(dirs[d].entries));
      node := if ok then Some(Folder(dirs[d].entries)) else None;
    }

    /**
     Takes the new node of a child as an entry and, when asked, carries the change up to the
     root. On a failure the change has come part of the way and nothing is published.
     */
    method CloseChild(d: Ref, name: string, node: Entry, sync: bool) returns (ok: bool)
      requires Live(d)
      modifies this`dirs, this`blocks, this`faults, this`val
      ensures Valid() && |dirs| == old(|dirs|) && inodes == old(inodes) && old(blocks) <= blocks
      ensures !sync ==> ok && Now() == WithEntry(old(Now()), d, name, node) && val == old(val) && blocks == old(blocks)
      ensures PartlyPropagated(old(Now()), d, name, node, Now())
      ensures ok && sync ==> Now() == Propagated(old(Now()), d, name, node)
      ensures ok && sync && republishing ==> val == Some(old(NewRoot(Now(), d, name, node)))
      ensures !ok ==> val == old(val)
      ensures old(Anchored(Now(), blocks) && Held(blocks, node)) ==>
                && Anchored(Now(), blocks)
                && (ok && sync ==> Held(blocks, old(NewRoot(Now(), d, name, node))))
      ensures old(faults) <= faults && (!ok ==> old(faults) < faults)
      decreases d
    {
      StepUp(Now(), d, name, node);
      AddUnixFSChild(d, name, node);
      if !sync {
        return true;
      }
      var mine := FlushCurrentNode(d);
      if mine.None? {
        return false;
      }
      match dirs[d].parent
      case Top => ok := CloseTop(mine.value);
      case Under(p) => ok := CloseChild(p, dirs[d].name, mine.value, true);
    }

    /** The root stores the new node and hands it to the republisher. */
    method CloseTop(node: Entry) returns (ok: bool)
      modifies this`blocks, this`faults, this`val
      ensures old(blocks) <= blocks <= old(blocks) + {node}
      ensures ok ==> blocks == old(blocks) + {node} && val == if republishing then Some(node) else old(val)
      ensures !ok ==> val == old(val)
      ensures old(Anchored(Now(), blocks)) ==> Anchored(Now(), blocks)
      ensures old(Held(blocks, node)) ==> Held(blocks, node)
      ensures old(faults) <= faults && (!ok ==> old(faults) < faults)
    {
      ghost var before := blocks;
      ok := Store(node);
      if Held(before, node) {
        HeldGrows(before, blocks, node);
      }
      if ok && republishing {
        val := Some(node);
      }
    }

    /**
     Flushes the node of an open file. If it is still part of the tree, the tree has it at the
     file's path and is the same elsewhere, unless the node could not even be stored. A full sync
     that succeeds hands over the new root.
     */
    method FlushUp(f: Ref, node: Entry, fullsync: bool) returns (ok: bool)
      requires Valid() && f < |inodes|
      modifies this`dirs, this`inodes, this`blocks, this`faults, this`val
      ensures Valid() && old(blocks) <= blocks && (ok ==> node in blocks)
      ensures ok && fullsync && republishing ==>
                val == Some(old(NewRoot(Now(), inodes[f].parent, inodes[f].name, node)))
      ensures !ok ==> val == old(val)
      ensures old(IsCachedFile(Now(), f) && Attached(Now(), inodes[f].parent)) ==>
                || (!ok && Now() == old(Now()))
                || TreeOf(Now(), 0)
                   == Put(old(TreeOf(Now(), 0)), old(PathTo(Now(), inodes[f].parent)) + [old(inodes[f].name)], node)
      ensures old(Anchored(Now(), blocks)) && Held(old(blocks) + {node}, node) ==>
                && Anchored(Now(), blocks)
                && (ok && fullsync ==> Held(blocks, old(NewRoot(Now(), inodes[f].parent, inodes[f].name, node))))
      ensures old(faults) <= faults && (!ok ==> old(faults) < faults)
    {
      ghost var s := Now();
      var p, name := inodes[f].parent, inodes[f].name;
      ok := Store(node);
      if !ok {
        return;
      }
      WithNodeFormed(s, f, node);
      LevelsStay(s, WithNode(s, f, node), p);
      inodes := inodes[f := inodes[f].(node := node)];
      assert Now() == WithNode(s, f, node);
      ok := CloseChild(p, name, node, fullsync);
      if IsCachedFile(s, f) && Attached(s, p) {
        FlushedFile(s, f, node, Now());
      }
    }

    /**
     Flushes a directory with all its cached children. If it is part of the tree, no tree changes,
     even when it fails; a failure publishes nothing.
     */
    method FlushDir(d: Ref) returns (ok: bool)
      requires Live(d)
      modifies this`dirs, this`blocks, this`faults, this`val
      ensures Live(d) && old(blocks) <= blocks
      ensures ok && republishing ==> val == Some(old(FlushedRoot(Now(), d)))
      ensures !ok ==> val == old(val)
      ensures old(Attached(Now(), d)) ==> OnlySynced(old(Now()), Now())
      ensures ok ==> Folder(dirs[d].entries) == old(TreeOf(Now(), d))
      ensures old(Anchored(Now(), blocks)) ==>
                Anchored(Now(), blocks) && (ok ==> Held(blocks, old(FlushedRoot(Now(), d))))
      ensures old(faults) <= faults && (!ok ==> old(faults) < faults)
    {
      ghost var s := Now();
      assert FormedAt(s, d);
      var node := GetNode(d);
      if node.None? {
        return false;
      }
      ghost var m := Now();
      assert SyncedAt(s.dirs[d], m.dirs[d]);
      match dirs[d].parent
      case Top => ok := CloseTop(node.value);
      case Under(p) =>
        SyncedAgrees(s, m);
        LevelsStay(s, m, p);
        AttachedStays(s, m, d);
        ok := CloseChild(p, dirs[d].name, node.value, true);
        if Attached(s, d) {
          PropagatedIsSynced(m, p, m.dirs[d].name, node.value, Now());
          SyncedTransitive(s, m, Now());
        }
        if ok {
          PropagatedStays(m, p, m.dirs[d].name, node.value, d);
        }
    }

    /** Hands the whole tree to the republisher. */
    method Flush() returns (ok: bool)
      requires Valid()
      modifies this`dirs, this`blocks, this`faults, this`val
      ensures OnlySynced(old(Now()), Now()) && Valid() && old(blocks) <= blocks
      ensures ok && republishing ==> val == Some(old(TreeOf(Now(), 0)))
      ensures !ok ==> val == old(val)
      ensures old(Anchored(Now(), blocks)) ==>
                Anchored(Now(), blocks) && (ok ==> Held(blocks, old(TreeOf(Now(), 0))))
      ensures old(faults) <= faults && (!ok ==> old(faults) < faults)
    {
      var node := GetNode(0);
      if node.None? {
        return false;
      }
      if republishing {
        val := node;
      }
      ok := true;
    }

    /** Flushes the top directory and forgets its cached children; no tree changes. A failed flush forgets nothing. */
    method FlushMemFree() returns (ok: bool)
      requires Valid()
      modifies this`dirs, this`blocks, this`faults, this`val
      ensures AgreesExcept(old(Now()), Now(), {}) && TreeOf(Now(), 0) == old(TreeOf(Now(), 0))
      ensures ok ==>
                && TreeOf(Now(), 0) == Folder(dirs[0].entries)
                && dirs[0].childDirs == map[] && dirs[0].files == map[]
                && (republishing ==> val == Some(old(TreeOf(Now(), 0))))
      ensures !ok ==> OnlySynced(old(Now()), Now()) && val == old(val)
      ensures old(Anchored(Now(), blocks)) ==>
                Anchored(Now(), blocks) && (ok ==> Held(blocks, old(TreeOf(Now(), 0))))
      ensures old(faults) <= faults && (!ok ==> old(faults) < faults)
    {
      ghost var s := Now();
      assert FormedAt(s, 0);
      ok := FlushDir(0);
      ghost var m := Now();
      SyncedTree(s, m, 0);
      SyncedAgrees(s, m);
      if !ok {
        return;
      }
      ForgettingKeepsTree(m, 0);
      dirs := dirs[0 := dirs[0].(files := map[])];
      dirs := dirs[0 := dirs[0].(childDirs := map[])];
      assert Now() == Forgotten(m, 0);
      ForgettingAfterSync(s, m);
    }
  }

  /** The root that flushing directory `d` leads to. */
  ghost function FlushedRoot(o: Objects, d: Ref): Entry
    requires Formed(o) && d < |o.dirs|
  {
    assert FormedAt(o, d);
    if o.dirs[d].parent.Top? then TreeOf(o, d)
    else NewRoot(o, o.dirs[d].parent.dir, o.dirs[d].name, TreeOf(o, d))
  }

  /** What is not above the changed directory stays. */
  lemma {:induction false} PropagatedStays(o: Objects, d: Ref, name: string, node: Entry, x: Ref)
    requires Formed(o) && d < x < |o.dirs|
    ensures x < |Propagated(o, d, name, node).dirs|
    ensures Propagated(o, d, name, node).dirs[x] == o.dirs[x]
    decreases d
  {
    assert FormedAt(o, d);
    WithEntryChanges(o, d, name, node);
    if o.dirs[d].parent.Top? {
    } else {
      var t := WithEntry(o, d, name, node);
      PropagatedStays(t, o.dirs[d].parent.dir, o.dirs[d].name, Folder(t.dirs[d].entries), x);
    }
  }
}
