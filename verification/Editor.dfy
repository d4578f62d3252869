/**
 The DAG editor: edits a tree of content-addressed nodes along a path. New nodes
 go to a scratch store, old versions are deleted from it by CID, and nodes not in
 it are read from a source store.

 A node is identified by its CID. Next to the editor's own behaviour there is the
 behaviour it should have, `TreeEdit`, which edits the tree and knows no stores.
 */
module DagEditor {
  import opened Sequences
  import opened Sorting
  import opened Dag
  import opened LinkEdits
  import opened Paths
  import opened DagServices

  /**
   What happens at the end of the path. `create` is what the callback for missing
   directories returns, if there is one.
   */
  datatype LinkOp =
    | PutLink(child: Cid, create: Option<Cid>)
    | DelLink

  datatype Edit = Edit(path: seq<string>, op: LinkOp)

  function CreateOf(op: LinkOp): Option<Cid> {
    if op.PutLink? then op.create else None
  }

  /** The node an edit continues in: the named child, or a created one. */
  function Descend(c: Cid, name: string, op: LinkOp): Option<Cid> {
    var x := if Child(c, name).Some? then Child(c, name) else CreateOf(op);
    if x.Some? && x.value.block.ProtoNode? then x else None
  }

  /** The edit at the end of the path; None is an error. */
  function LeafEdit(c: Cid, name: string, op: LinkOp): Option<Cid>
    requires c.block.ProtoNode?
  {
    if op.PutLink? then
      if name == "" then None else Some(WithLink(c, name, op.child))
    else
      if Child(c, name).None? then None else Some(WithoutLink(c, name))
  }

  /** The edit of the tree below `c`, without stores. */
  function TreeEdit(c: Cid, path: seq<string>, op: LinkOp): (r: Option<Cid>)
    requires c.block.ProtoNode? && path != []
    ensures r.Some? ==> r.value.block.ProtoNode?
    decreases |path|
  {
    if |path| == 1 then LeafEdit(c, path[0], op)
    else
      match Descend(c, path[0], op)
      case None => None
      case Some(x) =>
        match TreeEdit(x, path[1..], op)
        case None => None
        case Some(y) => Some(WithLink(c, path[0], y))
  }

  /**
   The editor's own edit: the new node and the new scratch store. Each level
   deletes the old version of its node and then adds the new one; only the
   removal of a link does not delete the node it edits.
   */
  function Edited(c: Cid, path: seq<string>, op: LinkOp, tmp: set<Cid>, src: set<Cid>): (r: Option<(Cid, set<Cid>)>)
    requires c.block.ProtoNode? && path != []
    ensures r.Some? ==> r.value.0.block.ProtoNode?
    decreases |path|
  {
    if |path| == 1 then
      match LeafEdit(c, path[0], op)
      case None => None
      case Some(y) => Some((y, (if op.PutLink? then tmp + {op.child} - {c} else tmp) + {y}))
    else if Child(c, path[0]).Some? && Child(c, path[0]).value !in tmp + src then None
    else
      match Descend(c, path[0], op)
      case None => None
      case Some(x) =>
        match Edited(x, path[1..], op, tmp, src)
        case None => None
        case Some((y, tmp1)) =>
          var r := WithLink(c, path[0], y);
          Some((r, tmp1 - {c} + {r}))
  }

  /** Every node the edit has to read is in one of the stores. */
  ghost predicate Available(c: Cid, path: seq<string>, op: LinkOp, tmp: set<Cid>, src: set<Cid>)
    decreases |path|
  {
    |path| <= 1 ||
    (&& (Child(c, path[0]).Some? ==> Child(c, path[0]).value in tmp + src)
     && (Descend(c, path[0], op).Some? ==> Available(Descend(c, path[0], op).value, path[1..], op, tmp, src)))
  }

  /**
   The editor never edits wrongly: it succeeds exactly when the edit of the tree is
   possible and every node on the way can be read, and then gives that tree.
   */
  lemma {:induction false} EditedIsTreeEdit(c: Cid, path: seq<string>, op: LinkOp, tmp: set<Cid>, src: set<Cid>)
    requires c.block.ProtoNode? && path != []
    ensures Edited(c, path, op, tmp, src).Some? <==>
            TreeEdit(c, path, op).Some? && Available(c, path, op, tmp, src)
    ensures Edited(c, path, op, tmp, src).Some? ==> Edited(c, path, op, tmp, src).value.0 == TreeEdit(c, path, op).value
    decreases |path|
  {
    if |path| == 1 {
    } else if Descend(c, path[0], op).Some? {
      EditedIsTreeEdit(Descend(c, path[0], op).value, path[1..], op, tmp, src);
    }
  }

  /** The nodes an edit rewrites, from the top down. */
  ghost function Spine(c: Cid, path: seq<string>, op: LinkOp): (s: seq<Cid>)
    requires c.block.ProtoNode? && path != [] && TreeEdit(c, path, op).Some?
    ensures |s| == |path| && s[0] == c
    decreases |path|
  {
    if |path| == 1 then [c] else [c] + Spine(Descend(c, path[0], op).value, path[1..], op)
  }

  /** What it rewrites them to. */
  ghost function NewSpine(c: Cid, path: seq<string>, op: LinkOp): (s: seq<Cid>)
    requires c.block.ProtoNode? && path != [] && TreeEdit(c, path, op).Some?
    ensures |s| == |path| && s[0] == TreeEdit(c, path, op).value
    decreases |path|
  {
    [TreeEdit(c, path, op).value] +
    (if |path| == 1 then [] else NewSpine(Descend(c, path[0], op).value, path[1..], op))
  }

  /** One level of both spines. */
  lemma {:induction false} SpinesUnfold(c: Cid, path: seq<string>, op: LinkOp) returns (x: Cid)
    requires c.block.ProtoNode? && |path| > 1 && TreeEdit(c, path, op).Some?
    ensures Descend(c, path[0], op) == Some(x) && TreeEdit(x, path[1..], op).Some?
    ensures TreeEdit(c, path, op).value == WithLink(c, path[0], TreeEdit(x, path[1..], op).value)
    ensures Spine(c, path, op) == [c] + Spine(x, path[1..], op)
    ensures NewSpine(c, path, op) == [TreeEdit(c, path, op).value] + NewSpine(x, path[1..], op)
  {
    x := Descend(c, path[0], op).value;
  }

  // ----- The edit of the tree, seen along paths -----

  /** The node a path of names leads to. */
  function At(c: Cid, path: seq<string>): Option<Cid>
    decreases |path|
  {
    if path == [] then Some(c)
    else
      match Child(c, path[0])
      case None => None
      case Some(x) => At(x, path[1..])
  }

  /** What one level of an edit does to what is seen along paths. */
  lemma {:induction false} AtWithLink(c: Cid, name: string, y: Cid, q: seq<string>)
    requires c.block.ProtoNode? && q != []
    ensures At(WithLink(c, name, y), q) == if q[0] == name then At(y, q[1..]) else At(c, q)
  {
    WithLinkChildren(c, name, y, q[0]);
  }

  /** At the edited path and below it there is the new child, or nothing. */
  lemma {:induction false} EditedPathResolves(c: Cid, path: seq<string>, op: LinkOp, q: seq<string>)
    requires c.block.ProtoNode? && path != [] && TreeEdit(c, path, op).Some?
    ensures At(TreeEdit(c, path, op).value, path + q) == if op.PutLink? then At(op.child, q) else None
    decreases |path|
  {
    assert (path + q)[1..] == path[1..] + q;
    if |path| == 1 {
      assert path[1..] + q == q;
      if op.PutLink? {
        AtWithLink(c, path[0], op.child, path + q);
      } else {
        WithoutLinkChildren(c, path[0], path[0]);
      }
    } else {
      var x := SpinesUnfold(c, path, op);
      AtWithLink(c, path[0], TreeEdit(x, path[1..], op).value, path + q);
      EditedPathResolves(x, path[1..], op, q);
    }
  }

  /** Above it there are the rewritten nodes. */
  lemma {:induction false} PrefixResolves(c: Cid, path: seq<string>, op: LinkOp, d: nat)
    requires c.block.ProtoNode? && path != [] && TreeEdit(c, path, op).Some? && d < |path|
    ensures At(TreeEdit(c, path, op).value, path[..d]) == Some(NewSpine(c, path, op)[d])
    decreases |path|
  {
    if d == 0 {
    } else {
      var x := SpinesUnfold(c, path, op);
      AtWithLink(c, path[0], TreeEdit(x, path[1..], op).value, path[..d]);
      PrefixResolves(x, path[1..], op, d - 1);
      assert path[..d][1..] == path[1..][..d - 1];
    }
  }

  /**
   A path that leaves the edited one, at depth `d`, leads where it led from the old node
   there. If it led somewhere, or no directory was created, this is where it led before.
   */
  lemma {:induction false} OtherPathsStay(c: Cid, path: seq<string>, op: LinkOp, q: seq<string>, d: nat)
    requires c.block.ProtoNode? && path != [] && TreeEdit(c, path, op).Some?
    requires d < |path| && d < |q| && q[..d] == path[..d] && q[d] != path[d]
    ensures At(TreeEdit(c, path, op).value, q) == At(Spine(c, path, op)[d], q[d..])
    ensures At(c, q).Some? || CreateOf(op).None? ==> At(TreeEdit(c, path, op).value, q) == At(c, q)
    decreases |path|
  {
    if |path| == 1 {
      if op.PutLink? {
        AtWithLink(c, path[0], op.child, q);
      } else {
        WithoutLinkChildren(c, path[0], q[0]);
      }
    } else {
      var x := SpinesUnfold(c, path, op);
      AtWithLink(c, path[0], TreeEdit(x, path[1..], op).value, q);
      if d > 0 {
        assert q[0] == q[..d][0] == path[0];
        assert q[1..][..d - 1] == q[..d][1..] == path[1..][..d - 1];
        OtherPathsStay(x, path[1..], op, q[1..], d - 1);
        assert q[1..][d - 1..] == q[d..];
      }
    }
  }

  lemma {:induction false} AtPrefix(c: Cid, path: seq<string>, k: nat)
    requires 0 < k <= |path|
    ensures At(c, path[..k]) ==
            match Child(c, path[0])
            case None => None
            case Some(x) => At(x, path[1..][..k - 1])
  {
    assert path[..k][1..] == path[1..][..k - 1];
  }

  /** The node at depth `k` of the path is a protobuf node, or is missing and can be created. */
  ghost predicate Passes(c: Cid, path: seq<string>, k: nat, create: Option<Cid>)
    requires k <= |path|
  {
    match At(c, path[..k])
    case None => create.Some?
    case Some(x) => x.block.ProtoNode?
  }

  /** A link can be removed exactly when the path leads to something. */
  lemma {:induction false} RemovalPossibleIff(c: Cid, path: seq<string>)
    requires c.block.ProtoNode? && path != []
    ensures TreeEdit(c, path, DelLink).Some? <==> At(c, path).Some?
    decreases |path|
  {
    if |path| == 1 {
      assert path[1..] == [];
    } else if Child(c, path[0]).Some? {
      var x := Child(c, path[0]).value;
      if x.block.ProtoNode? {
        RemovalPossibleIff(x, path[1..]);
      } else {
        assert Child(x, path[1..][0]).None?;
      }
    }
  }

  /**
   A node can be inserted exactly when its name is not empty and every node above it is a
   protobuf node or is missing and can be created. What the callers create has no links.
   */
  lemma {:induction false} InsertionPossibleIff(c: Cid, path: seq<string>, child: Cid, create: Option<Cid>)
    requires c.block.ProtoNode? && path != []
    requires create.Some? ==> create.value.block.ProtoNode? && IsLeaf(create.value)
    ensures TreeEdit(c, path, PutLink(child, create)).Some? <==>
            path[|path| - 1] != "" && forall k :: 0 < k < |path| ==> Passes(c, path, k, create)
    decreases |path|
  {
    if |path| == 1 {
    } else {
      PassesBelow(c, path, create);
      var x := Descend(c, path[0], PutLink(child, create));
      if x.Some? {
        InsertionPossibleIff(x.value, path[1..], child, create);
      }
    }
  }

  lemma {:induction false} PassesBelow(c: Cid, path: seq<string>, create: Option<Cid>)
    requires |path| > 1
    requires create.Some? ==> create.value.block.ProtoNode? && IsLeaf(create.value)
    ensures (forall k :: 0 < k < |path| ==> Passes(c, path, k, create)) <==>
            var x := if Child(c, path[0]).Some? then Child(c, path[0]) else create;
            && x.Some? && x.value.block.ProtoNode?
            && forall k :: 0 < k < |path[1..]| ==> Passes(x.value, path[1..], k, create)
  {
    var x := if Child(c, path[0]).Some? then Child(c, path[0]) else create;
    AtPrefix(c, path, 1);
    if x.None? || !x.value.block.ProtoNode? {
      assert !Passes(c, path, 1, create);
    } else {
      assert Passes(c, path, 1, create);
      forall k | 0 < k < |path[1..]| ensures Passes(x.value, path[1..], k, create) <==> Passes(c, path, k + 1, create) {
        AtPrefix(c, path, k + 1);
        AtPrefix(x.value, path[1..], k);
      }
      if forall k :: 0 < k < |path[1..]| ==> Passes(x.value, path[1..], k, create) {
        forall k | 1 < k < |path| ensures Passes(c, path, k, create) {
          assert Passes(x.value, path[1..], k - 1, create);
        }
      }
    }
  }

  /** The nodes that an edit rewrites are the old ones along the path, and created ones where there were none. */
  lemma {:induction false} RewritesOldNodes(c: Cid, path: seq<string>, op: LinkOp, k: nat)
    requires c.block.ProtoNode? && path != [] && TreeEdit(c, path, op).Some? && k < |path|
    requires CreateOf(op).Some? ==> IsLeaf(CreateOf(op).value)
    ensures At(c, path[..k]).None? ==> CreateOf(op).Some?
    ensures Spine(c, path, op)[k] == if At(c, path[..k]).Some? then At(c, path[..k]).value else CreateOf(op).value
    ensures NewSpine(c, path, op)[k].block.data == Spine(c, path, op)[k].block.data
    decreases |path|
  {
    if k == 0 {
      if |path| > 1 {
        var x := SpinesUnfold(c, path, op);
        WithLinkChildren(c, path[0], TreeEdit(x, path[1..], op).value, "");
      } else if op.PutLink? {
        WithLinkChildren(c, path[0], op.child, "");
      } else {
        WithoutLinkChildren(c, path[0], "");
      }
    } else {
      var x := SpinesUnfold(c, path, op);
      AtPrefix(c, path, k);
      RewritesOldNodes(x, path[1..], op, k - 1);
      if Child(c, path[0]).None? && k > 1 {
        AtPrefix(x, path[1..], k - 1);
      }
    }
  }

  lemma {:induction false} LinksOfWithLink(c: Cid, name: string, y: Cid)
    requires c.block.ProtoNode?
    ensures y in Links(WithLink(c, name, y))
    ensures forall l :: l in Links(WithLink(c, name, y)) ==> l == y || l in Links(c)
  {
    var ls := Filter(c.block.links, NotNamed(name)) + [Link(name, y)];
    var sorted := StableSort(ls, LinkName);
    StableSortPermutes(ls, LinkName);
    SameElements(sorted, ls);
    FilterElements(c.block.links, NotNamed(name));
    assert Link(name, y) in sorted;
    var i :| 0 <= i < |sorted| && sorted[i] == Link(name, y);
    assert Links(WithLink(c, name, y))[i] == y;
    forall l | l in Links(WithLink(c, name, y)) ensures l == y || l in Links(c) {
      var j :| 0 <= j < |sorted| && sorted[j].cid == l;
      assert sorted[j] in ls;
      if sorted[j] != Link(name, y) { LinkInLinks(c, sorted[j]); }
    }
  }

  lemma {:induction false} LinkInLinks(c: Cid, l: Link)
    requires l in NodeLinks(c.block)
    ensures l.cid in Links(c)
  {
    var i :| 0 <= i < |NodeLinks(c.block)| && NodeLinks(c.block)[i] == l;
    assert Links(c)[i] == l.cid;
  }

  lemma {:induction false} LinksOfWithoutLink(c: Cid, name: string)
    requires c.block.ProtoNode?
    ensures forall l :: l in Links(WithoutLink(c, name)) ==> l in Links(c)
  {
    var ls := Filter(c.block.links, NotNamed(name));
    var sorted := StableSort(ls, LinkName);
    StableSortPermutes(ls, LinkName);
    SameElements(sorted, ls);
    FilterElements(c.block.links, NotNamed(name));
    forall l | l in Links(WithoutLink(c, name)) ensures l in Links(c) {
      var j :| 0 <= j < |sorted| && sorted[j].cid == l;
      assert sorted[j] in ls;
      LinkInLinks(c, sorted[j]);
    }
  }

  /** The new root leads to the new node one level down. */
  lemma {:induction false} NewRootLeadsDown(c: Cid, path: seq<string>, op: LinkOp) returns (x: Cid)
    requires c.block.ProtoNode? && |path| > 1 && TreeEdit(c, path, op).Some?
    ensures x.block.ProtoNode? && TreeEdit(x, path[1..], op).Some?
    ensures Reach(TreeEdit(x, path[1..], op).value) <= Descendants(TreeEdit(c, path, op).value)
    ensures NewSpine(c, path, op) == [TreeEdit(c, path, op).value] + NewSpine(x, path[1..], op)
  {
    x := SpinesUnfold(c, path, op);
    var y := TreeEdit(x, path[1..], op).value;
    LinksOfWithLink(c, path[0], y);
    LinkDescends(TreeEdit(c, path, op).value, y);
  }

  lemma {:induction false} NewSpineDescends(c: Cid, path: seq<string>, op: LinkOp, d: nat)
    requires c.block.ProtoNode? && path != [] && TreeEdit(c, path, op).Some? && d < |path|
    ensures NewSpine(c, path, op)[d] in Reach(TreeEdit(c, path, op).value)
    ensures d > 0 ==> NewSpine(c, path, op)[d] in Descendants(TreeEdit(c, path, op).value)
    decreases |path|
  {
    if d == 0 {
    } else {
      var x := NewRootLeadsDown(c, path, op);
      NewSpineDescends(x, path[1..], op, d - 1);
    }
  }

  lemma {:induction false} NewSpineIsBelow(c: Cid, path: seq<string>, op: LinkOp, d: nat)
    requires c.block.ProtoNode? && path != [] && TreeEdit(c, path, op).Some? && 0 < d < |path|
    ensures NewSpine(c, path, op)[d] != TreeEdit(c, path, op).value
  {
    NewSpineDescends(c, path, op, d);
    DescendantIsLower(TreeEdit(c, path, op).value, NewSpine(c, path, op)[d]);
  }

  lemma {:induction false} PrefixOfCons(c: Cid, cs: seq<Cid>, d: nat, x: Cid)
    requires 0 < d <= |cs|
    ensures x in ([c] + cs)[..d] <==> x == c || x in cs[..d - 1]
  {
    assert ([c] + cs)[..d] == [c] + cs[..d - 1];
  }

  /** One level of an edit of a longer path. */
  lemma {:induction false} EditUnfolds(c: Cid, path: seq<string>, op: LinkOp, tmp: set<Cid>, src: set<Cid>)
    returns (x: Cid)
    requires c.block.ProtoNode? && |path| > 1
    requires Edited(c, path, op, tmp, src).Some? && TreeEdit(c, path, op).Some?
    ensures Descend(c, path[0], op) == Some(x)
    ensures TreeEdit(x, path[1..], op).Some? && Edited(x, path[1..], op, tmp, src).Some?
    ensures Edited(c, path, op, tmp, src).value.1 ==
            Edited(x, path[1..], op, tmp, src).value.1 - {c} + {TreeEdit(c, path, op).value}
    ensures Spine(c, path, op) == [c] + Spine(x, path[1..], op)
    ensures NewSpine(c, path, op) == [TreeEdit(c, path, op).value] + NewSpine(x, path[1..], op)
  {
    EditedIsTreeEdit(c, path, op, tmp, src);
    x := Descend(c, path[0], op).value;
    EditedIsTreeEdit(x, path[1..], op, tmp, src);
  }

  /**
   A rewritten node is in the scratch store after the edit unless it is equal to an
   old node further up, because that one is deleted later.
   */
  lemma {:induction false} NewSpineInScratch(
      c: Cid, path: seq<string>, op: LinkOp, tmp: set<Cid>, src: set<Cid>, d: nat)
    requires c.block.ProtoNode? && path != [] && d < |path|
    requires Edited(c, path, op, tmp, src).Some? && TreeEdit(c, path, op).Some?
    ensures NewSpine(c, path, op)[d] in Edited(c, path, op, tmp, src).value.1 <==>
            NewSpine(c, path, op)[d] !in Spine(c, path, op)[..d]
    decreases |path|
  {
    if d == 0 {
      EditedIsTreeEdit(c, path, op, tmp, src);
    } else {
      NewSpineIsBelow(c, path, op, d);
      var x := EditUnfolds(c, path, op, tmp, src);
      NewSpineInScratch(x, path[1..], op, tmp, src, d - 1);
      PrefixOfCons(c, Spine(x, path[1..], op), d, NewSpine(x, path[1..], op)[d - 1]);
    }
  }

  /** Only old nodes on the path ever leave the scratch store. */
  lemma {:induction false} ScratchKeeps(c: Cid, path: seq<string>, op: LinkOp, tmp: set<Cid>, src: set<Cid>, x: Cid)
    requires c.block.ProtoNode? && path != []
    requires Edited(c, path, op, tmp, src).Some? && TreeEdit(c, path, op).Some?
    requires x in tmp || (op.PutLink? && x == op.child) || x in NewSpine(c, path, op)
    requires x !in Spine(c, path, op)
    ensures x in Edited(c, path, op, tmp, src).value.1
    decreases |path|
  {
    if |path| == 1 {
      EditedIsTreeEdit(c, path, op, tmp, src);
    } else {
      var z := EditUnfolds(c, path, op, tmp, src);
      if x != TreeEdit(c, path, op).value {
        ScratchKeeps(z, path[1..], op, tmp, src, x);
      }
    }
  }

  /** Below an edited node there is nothing but old, rewritten and inserted nodes. */
  lemma {:induction false} EditDescendants(c: Cid, path: seq<string>, op: LinkOp, x: Cid)
    requires c.block.ProtoNode? && path != [] && TreeEdit(c, path, op).Some?
    requires x in Descendants(TreeEdit(c, path, op).value)
    ensures || x in Descendants(c)
            || x in NewSpine(c, path, op)
            || (op.PutLink? && x in Reach(op.child))
            || (CreateOf(op).Some? && x in Descendants(CreateOf(op).value))
    decreases |path|
  {
    var r := TreeEdit(c, path, op).value;
    var l := DescendantViaLink(r, x);
    if |path| == 1 {
      if op.PutLink? { LinksOfWithLink(c, path[0], op.child); } else { LinksOfWithoutLink(c, path[0]); }
      if !(op.PutLink? && l == op.child) { LinkDescends(c, l); }
    } else {
      var z := Descend(c, path[0], op).value;
      var y := TreeEdit(z, path[1..], op).value;
      LinksOfWithLink(c, path[0], y);
      assert NewSpine(c, path, op) == [r] + NewSpine(z, path[1..], op);
      if l == y {
        if x != y { EditDescendants(z, path[1..], op, x); }
        if x in Descendants(z) && Child(c, path[0]).Some? {
          ChildIsLink(c, path[0]);
          LinkDescends(c, z);
        }
      } else {
        LinkDescends(c, l);
      }
    }
  }

  // ----- Runs of edits -----

  function TreeRun(c: Cid, ops: seq<Edit>): (r: Option<Cid>)
    requires c.block.ProtoNode?
    ensures r.Some? ==> r.value.block.ProtoNode?
    decreases |ops|
  {
    if ops == [] then Some(c)
    else if ops[0].path == [] then None
    else
      match TreeEdit(c, ops[0].path, ops[0].op)
      case None => None
      case Some(y) => TreeRun(y, ops[1..])
  }

  function EditorRun(c: Cid, tmp: set<Cid>, ops: seq<Edit>, src: set<Cid>): (r: Option<(Cid, set<Cid>)>)
    requires c.block.ProtoNode?
    ensures r.Some? ==> r.value.0.block.ProtoNode?
    decreases |ops|
  {
    if ops == [] then Some((c, tmp))
    else if ops[0].path == [] then None
    else
      match Edited(c, ops[0].path, ops[0].op, tmp, src)
      case None => None
      case Some((y, tmp1)) => EditorRun(y, tmp1, ops[1..], src)
  }

  /** Whatever the edits are, if the editor gets through them, its tree is the right one. */
  lemma {:induction false} EditorNeverWrong(c: Cid, tmp: set<Cid>, ops: seq<Edit>, src: set<Cid>)
    requires c.block.ProtoNode? && EditorRun(c, tmp, ops, src).Some?
    ensures TreeRun(c, ops) == Some(EditorRun(c, tmp, ops, src).value.0)
    decreases |ops|
  {
    if ops == [] {
    } else {
      EditedIsTreeEdit(c, ops[0].path, ops[0].op, tmp, src);
      var (y, tmp1) := Edited(c, ops[0].path, ops[0].op, tmp, src).value;
      EditorNeverWrong(y, tmp1, ops[1..], src);
    }
  }

  ghost predicate ClosedStore(src: set<Cid>) {
    forall c, l :: c in src && l in Links(c) ==> l in src
  }

  lemma {:induction false} ClosedHolds(src: set<Cid>, c: Cid)
    requires ClosedStore(src) && c in src
    ensures Reach(c) <= src
    decreases c
  {
    forall l | l in Links(c) ensures Complete(l, src) {
      LinkIsSmaller(c, l);
      ClosedHolds(src, l);
    }
    CompleteFromLinks(c, src);
  }

  /** Everything below the node can be read. */
  ghost predicate Readable(c: Cid, tmp: set<Cid>, src: set<Cid>) {
    Descendants(c) <= tmp + src
  }

  /** What an edit brings in has its descendants in the source. */
  ghost predicate Sourced(op: LinkOp, src: set<Cid>) {
    && (op.PutLink? ==> Descendants(op.child) <= src)
    && (CreateOf(op).Some? ==> Descendants(CreateOf(op).value) <= src)
  }

  /** No rewritten node still occurs in the edited tree, unless the source has it too. */
  ghost predicate Unshared(c: Cid, e: Edit, src: set<Cid>)
    requires c.block.ProtoNode?
  {
    e.path != [] && TreeEdit(c, e.path, e.op).Some? ==>
      forall x :: x in Spine(c, e.path, e.op) && x in Descendants(TreeEdit(c, e.path, e.op).value) ==> x in src
  }

  lemma {:induction false} ReadableIsAvailable(c: Cid, path: seq<string>, op: LinkOp, tmp: set<Cid>, src: set<Cid>)
    requires Readable(c, tmp, src) && Sourced(op, src)
    ensures Available(c, path, op, tmp, src)
    decreases |path|
  {
    if |path| <= 1 {
    } else {
      if Child(c, path[0]).Some? {
        ChildIsLink(c, path[0]);
        LinkDescends(c, Child(c, path[0]).value);
      }
      if Descend(c, path[0], op).Some? {
        ReadableIsAvailable(Descend(c, path[0], op).value, path[1..], op, tmp, src);
      }
    }
  }

  lemma {:induction false} EditKeepsReadable(c: Cid, e: Edit, tmp: set<Cid>, src: set<Cid>)
    requires c.block.ProtoNode? && e.path != [] && TreeEdit(c, e.path, e.op).Some?
    requires Readable(c, tmp, src) && Sourced(e.op, src) && Unshared(c, e, src)
    ensures Edited(c, e.path, e.op, tmp, src).Some?
    ensures var (y, tmp1) := Edited(c, e.path, e.op, tmp, src).value;
            y == TreeEdit(c, e.path, e.op).value && Readable(y, tmp1, src)
  {
    ReadableIsAvailable(c, e.path, e.op, tmp, src);
    EditedIsTreeEdit(c, e.path, e.op, tmp, src);
    var (y, tmp1) := Edited(c, e.path, e.op, tmp, src).value;
    forall x | x in Descendants(y) && x !in src ensures x in tmp1 {
      EditDescendants(c, e.path, e.op, x);
      ScratchKeeps(c, e.path, e.op, tmp, src, x);
    }
  }

  ghost predicate UnsharedRun(c: Cid, ops: seq<Edit>, src: set<Cid>)
    requires c.block.ProtoNode?
    decreases |ops|
  {
    ops == [] ||
    (&& Sourced(ops[0].op, src) && Unshared(c, ops[0], src)
     && (ops[0].path != [] && TreeEdit(c, ops[0].path, ops[0].op).Some? ==>
           UnsharedRun(TreeEdit(c, ops[0].path, ops[0].op).value, ops[1..], src)))
  }

  /**
   Editor refinement: in a run in which no rewritten node is shared with another
   place of the tree, the editor fails only where the edit of the tree itself is
   impossible, gives the edited tree, and can still read all of it.
   */
  lemma {:induction false} EditorRefinesTree(c: Cid, tmp: set<Cid>, ops: seq<Edit>, src: set<Cid>)
    requires c.block.ProtoNode? && Readable(c, tmp, src) && UnsharedRun(c, ops, src)
    ensures EditorRun(c, tmp, ops, src).Some? <==> TreeRun(c, ops).Some?
    ensures TreeRun(c, ops).Some? ==>
              var (y, tmp1) := EditorRun(c, tmp, ops, src).value;
              y == TreeRun(c, ops).value && Readable(y, tmp1, src)
    decreases |ops|
  {
    if ops == [] {
    } else if ops[0].path != [] {
      EditedIsTreeEdit(c, ops[0].path, ops[0].op, tmp, src);
      if TreeEdit(c, ops[0].path, ops[0].op).Some? {
        EditKeepsReadable(c, ops[0], tmp, src);
        var (y, tmp1) := Edited(c, ops[0].path, ops[0].op, tmp, src).value;
        EditorRefinesTree(y, tmp1, ops[1..], src);
      }
    }
  }

  // ----- Writing the result -----

  /** What `copyDag` writes: it follows only links that the scratch store has. */
  ghost function Copied(c: Cid, tmp: set<Cid>): set<Cid>
    decreases c, |NodeLinks(c.block)| + 1
  {
    {c} + CopiedBelow(c, |NodeLinks(c.block)|, tmp)
  }

  ghost function CopiedBelow(c: Cid, i: nat, tmp: set<Cid>): set<Cid>
    requires i <= |NodeLinks(c.block)|
    decreases c, i
  {
    if i == 0 then {}
    else
      var l := NodeLinks(c.block)[i - 1].cid;
      CopiedBelow(c, i - 1, tmp) + (if l in tmp then Copied(l, tmp) else {})
  }

  lemma {:induction false} CopiedLink(c: Cid, i: nat, k: nat, tmp: set<Cid>)
    requires i < k <= |NodeLinks(c.block)| && NodeLinks(c.block)[i].cid in tmp
    ensures Copied(NodeLinks(c.block)[i].cid, tmp) <= CopiedBelow(c, k, tmp)
  {
    if i == k - 1 {
    } else {
      CopiedLink(c, i, k - 1, tmp);
    }
  }

  /** Copying completes a tree whose nodes are all in the scratch store or complete in the target. */
  lemma {:induction false} CopyCompletesFrom(c: Cid, tmp: set<Cid>, target: set<Cid>)
    requires forall x :: x in Descendants(c) ==> x in tmp || Complete(x, target)
    ensures Complete(c, target + Copied(c, tmp))
    decreases c
  {
    var all := target + Copied(c, tmp);
    forall l | l in Links(c) ensures Complete(l, all) {
      LinkDescends(c, l);
      if l in tmp {
        LinkIsSmaller(c, l);
        CopyCompletesFrom(l, tmp, target);
        var i :| 0 <= i < |Links(c)| && Links(c)[i] == l;
        CopiedLink(c, i, |NodeLinks(c.block)|, tmp);
      }
    }
    CompleteFromLinks(c, all);
  }

  /** A readable tree is complete in the target, which had the source's nodes, after the copy. */
  lemma {:induction false} CopyCompletes(c: Cid, tmp: set<Cid>, src: set<Cid>, target: set<Cid>)
    requires Readable(c, tmp, src) && ClosedStore(src) && src <= target
    ensures Complete(c, target + Copied(c, tmp))
  {
    forall x | x in Descendants(c) && x !in tmp ensures Complete(x, target) {
      ClosedHolds(src, x);
    }
    CopyCompletesFrom(c, tmp, target);
  }

  /** Writes a node and what is below it in `from`. A failed write ends it. */
  method CopyDag(c: Cid, from: set<Cid>, ds: DagService) returns (ok: bool)
    modifies ds
    ensures old(ds.blocks) <= ds.blocks <= old(ds.blocks) + Copied(c, from)
    ensures ok ==> ds.blocks == old(ds.blocks) + Copied(c, from)
    ensures old(ds.faults) <= ds.faults && (!ok ==> old(ds.faults) < ds.faults)
    decreases c
  {
    ok := ds.AddBlock(c);
    if !ok { return; }
    var ls := NodeLinks(c.block);
    for i := 0 to |ls|
      invariant ok && ds.blocks == old(ds.blocks) + {c} + CopiedBelow(c, i, from)
      invariant old(ds.faults) <= ds.faults
    {
      if ls[i].cid in from {
        CopiedLink(c, i, |ls|, from);
        CopiedBelowGrows(c, i, |ls|, from);
        ok := CopyDag(ls[i].cid, from, ds);
        if !ok { return; }
      }
    }
  }

  lemma {:induction false} CopiedBelowGrows(c: Cid, i: nat, k: nat, tmp: set<Cid>)
    requires i <= k <= |NodeLinks(c.block)|
    ensures CopiedBelow(c, i, tmp) <= CopiedBelow(c, k, tmp)
  {
    if i == k {
    } else {
      CopiedBelowGrows(c, i, k - 1, tmp);
    }
  }

  // ----- The editor object -----

  class Editor {
    var root: Cid
    var tmp: set<Cid>
    const src: DagService

    constructor (root: Cid, source: DagService)
      ensures this.root == root && tmp == {} && src == source
    {
      this.root, tmp, src := root, {}, source;
    }

    method AddLink(c: Cid, name: string, child: Cid) returns (r: Option<Cid>)
      requires c.block.ProtoNode?
      modifies this`tmp
      ensures r.None? <==> name == ""
      ensures r.None? ==> tmp == old(tmp)
      ensures r.Some? ==> r.value == WithLink(c, name, child) && tmp == old(tmp) + {child} - {c} + {r.value}
    {
      if name == "" { return None; }
      tmp := tmp + {child};
      tmp := tmp - {c};
      var y := WithLink(c, name, child);
      tmp := tmp + {y};
      r := Some(y);
    }

    method InsertNodeAt(c: Cid, path: seq<string>, child: Cid, create: Option<Cid>) returns (r: Option<Cid>)
      requires c.block.ProtoNode? && path != []
      modifies this`tmp
      ensures var e := Edited(c, path, PutLink(child, create), old(tmp), src.blocks);
              if r.None? then e.None? && tmp == old(tmp) else e == Some((r.value, tmp))
      decreases |path|
    {
      if |path| == 1 {
        r := AddLink(c, path[0], child);
        return;
      }
      var nd := Child(c, path[0]);
      if nd.None? {
        nd := create;
      } else if nd.value !in tmp && nd.value !in src.blocks {
        return None;
      }
      if nd.None? || nd.value.block.RawNode? { return None; }
      var ndprime := InsertNodeAt(nd.value, path[1..], child, create);
      if ndprime.None? { return None; }
      tmp := tmp - {c};
      var y := WithLink(c, path[0], ndprime.value);
      tmp := tmp + {y};
      r := Some(y);
    }

    method RmLinkAt(c: Cid, path: seq<string>) returns (r: Option<Cid>)
      requires c.block.ProtoNode? && path != []
      modifies this`tmp
      ensures var e := Edited(c, path, DelLink, old(tmp), src.blocks);
              if r.None? then e.None? && tmp == old(tmp) else e == Some((r.value, tmp))
      decreases |path|
    {
      if |path| == 1 {
        if Child(c, path[0]).None? { return None; }
        var y := WithoutLink(c, path[0]);
        tmp := tmp + {y};
        return Some(y);
      }
      var nd := Child(c, path[0]);
      if nd.None? || (nd.value !in tmp && nd.value !in src.blocks) { return None; }
      if nd.value.block.RawNode? { return None; }
      var nnode := RmLinkAt(nd.value, path[1..]);
      if nnode.None? { return None; }
      tmp := tmp - {c};
      var y := WithLink(c, path[0], nnode.value);
      tmp := tmp + {y};
      r := Some(y);
    }

    method InsertNodeAtPath(pth: string, child: Cid, create: Option<Cid>) returns (ok: bool)
      requires root.block.ProtoNode?
      modifies this
      ensures var path := SplitList(pth);
              var e := Edited(old(root), path, PutLink(child, create), old(tmp), src.blocks);
              if ok then e == Some((root, tmp)) else e.None? && root == old(root) && tmp == old(tmp)
      ensures root.block.ProtoNode?
    {
      var nd := InsertNodeAt(root, SplitList(pth), child, create);
      if nd.None? { return false; }
      root := nd.value;
      ok := true;
    }

    method RmLink(pth: string) returns (ok: bool)
      requires root.block.ProtoNode?
      modifies this
      ensures var path := SplitList(pth);
              var e := Edited(old(root), path, DelLink, old(tmp), src.blocks);
              if ok then e == Some((root, tmp)) else e.None? && root == old(root) && tmp == old(tmp)
      ensures root.block.ProtoNode?
    {
      var nd := RmLinkAt(root, SplitList(pth));
      if nd.None? { return false; }
      root := nd.value;
      ok := true;
    }

    /** Writes a copy of the root and everything below it that the scratch store has. */
    method Finalize(ds: DagService) returns (r: Cid, ok: bool)
      modifies ds
      ensures r == CidOf(root.block)
      ensures old(ds.blocks) <= ds.blocks <= old(ds.blocks) + Copied(r, tmp)
      ensures ok ==> ds.blocks == old(ds.blocks) + Copied(r, tmp)
      ensures old(ds.faults) <= ds.faults && (!ok ==> old(ds.faults) < ds.faults)
    {
      r := CidOf(root.block);
      ok := CopyDag(r, tmp, ds);
    }
  }
}
