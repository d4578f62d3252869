/**
 `Diff` lists the changes from one tree to another and `ApplyChange` replays such
 a list through the editor. `ds` is the set of blocks of the DAG service.
 */
module DagDiff {
  import opened Sequences
  import opened Dag
  import opened LinkEdits
  import opened Paths
  import opened DagServices
  import opened DagEditor

  datatype Kind = Add | Remove | Mod

  datatype Change = Change(kind: Kind, path: string, before: Option<Cid>, after: Option<Cid>)

  // ----- Diff -----

  /** The link has no counterpart of the same name in `c`. */
  function MissingIn(c: Cid): Link -> bool {
    (l: Link) => Child(c, l.name).None?
  }

  function RemoveOf(l: Link): Change {
    Change(Remove, l.name, Some(l.cid), None)
  }

  function AddOf(l: Link): Change {
    Change(Add, l.name, None, Some(l.cid))
  }

  function Removals(ls: seq<Link>): seq<Change> {
    seq(|ls|, i requires 0 <= i < |ls| => RemoveOf(ls[i]))
  }

  function Additions(ls: seq<Link>): seq<Change> {
    seq(|ls|, i requires 0 <= i < |ls| => AddOf(ls[i]))
  }

  function Prefixed(name: string, cs: seq<Change>): seq<Change> {
    seq(|cs|, i requires 0 <= i < |cs| => cs[i].(path := JoinPath(name, cs[i].path)))
  }

  /** Two leaves of any kind are compared by CID; nodes with links have to be protobuf nodes. */
  predicate Diffable(a: Cid, b: Cid) {
    (a.block.ProtoNode? && b.block.ProtoNode?) || (IsLeaf(a) && IsLeaf(b))
  }

  /** The list `Diff` computes; None is an error. */
  function DiffList(a: Cid, b: Cid, ds: set<Cid>): Option<seq<Change>>
    requires Diffable(a, b)
    decreases a, |NodeLinks(a.block)| + 1
  {
    if IsLeaf(a) && IsLeaf(b) then
      Some(if a == b then [] else [Change(Mod, "", Some(a), Some(b))])
    else
      match DiffLinks(a, b, |a.block.links|, ds)
      case None => None
      case Some(out) =>
        Some(out + Removals(Filter(a.block.links, MissingIn(b))) + Additions(Filter(b.block.links, MissingIn(a))))
  }

  /** The part of the list that the first `i` links of `a` contribute. */
  function DiffLinks(a: Cid, b: Cid, i: nat, ds: set<Cid>): Option<seq<Change>>
    requires a.block.ProtoNode? && b.block.ProtoNode? && i <= |a.block.links|
    decreases a, i
  {
    if i == 0 then Some([])
    else
      match DiffLinks(a, b, i - 1, ds)
      case None => None
      case Some(out) =>
        match DiffLink(a, b, i - 1, ds)
        case None => None
        case Some(sub) => Some(out + sub)
  }

  function DiffLink(a: Cid, b: Cid, i: nat, ds: set<Cid>): Option<seq<Change>>
    requires a.block.ProtoNode? && b.block.ProtoNode? && i < |a.block.links|
    decreases a, i
  {
    var l := a.block.links[i];
    match Child(b, l.name)
    case None => Some([])
    case Some(y) =>
      if y == l.cid then Some([])
      else if l.cid !in ds || y !in ds || l.cid.block.RawNode? || y.block.RawNode? then None
      else
        match DiffList(l.cid, y, ds)
        case None => None
        case Some(sub) => Some(Prefixed(l.name, sub))
  }

  /** Not among the names that the first `i` links of `a` share with `b`. */
  function NotShared(a: Cid, b: Cid, i: nat): Link -> bool
    requires a.block.ProtoNode? && i <= |a.block.links|
  {
    (l: Link) => Child(b, l.name).None? || forall j :: 0 <= j < i ==> a.block.links[j].name != l.name
  }

  /** Where the loop of `Diff` stands after the first `i` links of `a`. */
  ghost predicate DiffedTo(
      a: Cid, b: Cid, i: nat, ds: set<Cid>, out: seq<Change>, cleanA: seq<Link>, cleanB: seq<Link>)
    requires a.block.ProtoNode? && b.block.ProtoNode? && i <= |a.block.links|
  {
    && DiffLinks(a, b, i, ds) == Some(out)
    && cleanA == Filter(a.block.links, NotShared(a, b, i))
    && cleanB == Filter(b.block.links, NotShared(a, b, i))
  }

  lemma {:induction false} DiffedStep(
      a: Cid, b: Cid, i: nat, ds: set<Cid>, out: seq<Change>, cleanA: seq<Link>, cleanB: seq<Link>)
    requires a.block.ProtoNode? && b.block.ProtoNode? && i < |a.block.links|
    requires DiffedTo(a, b, i, ds, out, cleanA, cleanB) && DiffLink(a, b, i, ds).Some?
    ensures var name, out' := a.block.links[i].name, out + DiffLink(a, b, i, ds).value;
            if Child(b, name).Some?
            then DiffedTo(a, b, i + 1, ds, out', Filter(cleanA, NotNamed(name)), Filter(cleanB, NotNamed(name)))
            else DiffedTo(a, b, i + 1, ds, out', cleanA, cleanB)
  {
    CleanStep(a, b, i, a.block.links);
    CleanStep(a, b, i, b.block.links);
  }

  lemma {:induction false} DiffedStart(a: Cid, b: Cid, ds: set<Cid>)
    requires a.block.ProtoNode? && b.block.ProtoNode?
    ensures DiffedTo(a, b, 0, ds, [], a.block.links, b.block.links)
  {
    CleanStart(a, b);
  }

  lemma {:induction false} DiffedFails(a: Cid, b: Cid, i: nat, ds: set<Cid>)
    requires a.block.ProtoNode? && b.block.ProtoNode? && i < |a.block.links| && DiffLink(a, b, i, ds).None?
    ensures DiffList(a, b, ds).None?
  {
    assert DiffLinks(a, b, i + 1, ds).None?;
    NoDiffWithoutPrefix(a, b, i + 1, |a.block.links|, ds);
  }

  lemma {:induction false} DiffedEnd(
      a: Cid, b: Cid, ds: set<Cid>, out: seq<Change>, cleanA: seq<Link>, cleanB: seq<Link>)
    requires a.block.ProtoNode? && b.block.ProtoNode? && !(IsLeaf(a) && IsLeaf(b))
    requires DiffedTo(a, b, |a.block.links|, ds, out, cleanA, cleanB)
    ensures DiffList(a, b, ds) == Some(out + Removals(cleanA) + Additions(cleanB))
  {
    CleanLinks(a, b);
  }

  /** `Diff` with its loops. `cleanA` and `cleanB` lose the links of a name that both nodes have. */
  method Diff(ds: DagService, a: Cid, b: Cid) returns (r: Option<seq<Change>>)
    requires Diffable(a, b)
    ensures r == DiffList(a, b, ds.blocks)
    decreases a, |NodeLinks(a.block)| + 1
  {
    if IsLeaf(a) && IsLeaf(b) {
      return Some(if a == b then [] else [Change(Mod, "", Some(a), Some(b))]);
    }
    var out: seq<Change> := [];
    var cleanA, cleanB := a.block.links, b.block.links;
    DiffedStart(a, b, ds.blocks);
    for i := 0 to |a.block.links|
      invariant DiffedTo(a, b, i, ds.blocks, out, cleanA, cleanB)
    {
      var sub := DiffOne(ds, a, b, i);
      if sub.None? {
        DiffedFails(a, b, i, ds.blocks);
        return None;
      }
      DiffedStep(a, b, i, ds.blocks, out, cleanA, cleanB);
      out := out + sub.value;
      var name := a.block.links[i].name;
      if Child(b, name).Some? {
        cleanA := Filter(cleanA, NotNamed(name));
        cleanB := Filter(cleanB, NotNamed(name));
      }
    }
    DiffedEnd(a, b, ds.blocks, out, cleanA, cleanB);
    r := Some(out + Removals(cleanA) + Additions(cleanB));
  }

  /** The changes below one link of `a`. */
  method DiffOne(ds: DagService, a: Cid, b: Cid, i: nat) returns (r: Option<seq<Change>>)
    requires a.block.ProtoNode? && b.block.ProtoNode? && i < |a.block.links|
    ensures r == DiffLink(a, b, i, ds.blocks)
    decreases a, i
  {
    var lnk := a.block.links[i];
    var l := Child(b, lnk.name);
    if l.None? || l.value == lnk.cid { return Some([]); }
    if lnk.cid !in ds.blocks || l.value !in ds.blocks { return None; }
    if lnk.cid.block.RawNode? || l.value.block.RawNode? { return None; }
    var sub := Diff(ds, lnk.cid, l.value);
    if sub.None? { return None; }
    var out: seq<Change> := [];
    for j := 0 to |sub.value|
      invariant out == Prefixed(lnk.name, sub.value)[..j]
    {
      out := out + [sub.value[j].(path := JoinPath(lnk.name, sub.value[j].path))];
    }
    assert out == Prefixed(lnk.name, sub.value);
    r := Some(out);
  }

  lemma {:induction false} SameFilter(xs: seq<Link>, p: Link -> bool, q: Link -> bool)
    requires forall x :: x in xs ==> p(x) == q(x)
    ensures Filter(xs, p) == Filter(xs, q)
  {
    if xs == [] {
    } else {
      SameFilter(xs[..|xs| - 1], p, q);
    }
  }

  lemma {:induction false} CleanStart(a: Cid, b: Cid)
    requires a.block.ProtoNode? && b.block.ProtoNode?
    ensures Filter(a.block.links, NotShared(a, b, 0)) == a.block.links
    ensures Filter(b.block.links, NotShared(a, b, 0)) == b.block.links
  {
    FilterAll(a.block.links, NotShared(a, b, 0));
    FilterAll(b.block.links, NotShared(a, b, 0));
  }

  lemma {:induction false} CleanStep(a: Cid, b: Cid, i: nat, ls: seq<Link>)
    requires a.block.ProtoNode? && b.block.ProtoNode? && i < |a.block.links|
    ensures var name := a.block.links[i].name;
            var before := Filter(ls, NotShared(a, b, i));
            Filter(ls, NotShared(a, b, i + 1)) ==
            if Child(b, name).Some? then Filter(before, NotNamed(name)) else before
  {
    var name := a.block.links[i].name;
    if Child(b, name).Some? {
      forall l | l in ls ensures NotShared(a, b, i + 1)(l) <==> NotShared(a, b, i)(l) && NotNamed(name)(l) {
        assert NotShared(a, b, i + 1)(l) ==> l.name != name;
      }
      FilterTwice(ls, NotShared(a, b, i), NotNamed(name), NotShared(a, b, i + 1));
    } else {
      SameFilter(ls, NotShared(a, b, i), NotShared(a, b, i + 1));
    }
  }

  lemma {:induction false} CleanLinks(a: Cid, b: Cid)
    requires a.block.ProtoNode? && b.block.ProtoNode?
    ensures Filter(a.block.links, NotShared(a, b, |a.block.links|)) == Filter(a.block.links, MissingIn(b))
    ensures Filter(b.block.links, NotShared(a, b, |a.block.links|)) == Filter(b.block.links, MissingIn(a))
  {
    SameFilter(a.block.links, NotShared(a, b, |a.block.links|), MissingIn(b));
    forall l | l in b.block.links ensures NotShared(a, b, |a.block.links|)(l) == MissingIn(a)(l) {
      FindLinkFinds(b.block.links, l.name);
      FindLinkFinds(a.block.links, l.name);
      assert forall j :: 0 <= j < |a.block.links| ==> a.block.links[j] in a.block.links;
    }
    SameFilter(b.block.links, NotShared(a, b, |a.block.links|), MissingIn(a));
  }

  lemma {:induction false} NoDiffWithoutPrefix(a: Cid, b: Cid, i: nat, k: nat, ds: set<Cid>)
    requires a.block.ProtoNode? && b.block.ProtoNode? && i <= k <= |a.block.links|
    requires DiffLinks(a, b, i, ds).None?
    ensures DiffLinks(a, b, k, ds).None?
    decreases k
  {
    if i == k {
    } else {
      NoDiffWithoutPrefix(a, b, i, k - 1, ds);
    }
  }

  // ----- ApplyChange -----

  /** The edits a change stands for: a modification removes the link and adds it again. */
  function EditsOf(c: Change): seq<Edit> {
    var path := SplitList(c.path);
    var del := Edit(path, DelLink);
    var put := if c.after.Some? then [Edit(path, PutLink(c.after.value, None))] else [];
    match c.kind
    case Add => put
    case Remove => [del]
    case Mod => [del] + put
  }

  function Edits(cs: seq<Change>): seq<Edit> {
    if cs == [] then [] else EditsOf(cs[0]) + Edits(cs[1..])
  }

  /** The node a change inserts can be read and is a protobuf node. */
  predicate Fetchable(c: Change, ds: set<Cid>) {
    c.kind != Remove ==> c.after.Some? && c.after.value in ds && c.after.value.block.ProtoNode?
  }

  /** Replaying changes one by one. An error ends the replay. */
  function Replay(root: Cid, tmp: set<Cid>, cs: seq<Change>, ds: set<Cid>): (r: Option<(Cid, set<Cid>)>)
    requires root.block.ProtoNode?
    ensures r.Some? ==> r.value.0.block.ProtoNode?
    decreases |cs|
  {
    if cs == [] then Some((root, tmp))
    else if !Fetchable(cs[0], ds) then None
    else
      match EditorRun(root, tmp, EditsOf(cs[0]), ds)
      case None => None
      case Some((y, tmp1)) => Replay(y, tmp1, cs[1..], ds)
  }

  lemma {:induction false} RunOne(c: Cid, tmp: set<Cid>, e: Edit, ds: set<Cid>)
    requires c.block.ProtoNode? && e.path != []
    ensures EditorRun(c, tmp, [e], ds) == Edited(c, e.path, e.op, tmp, ds)
  {
    assert [e][1..] == [];
  }

  lemma {:induction false} RunTwo(c: Cid, tmp: set<Cid>, e: Edit, f: Edit, ds: set<Cid>)
    requires c.block.ProtoNode? && e.path != [] && f.path != []
    ensures EditorRun(c, tmp, [e] + [f], ds) ==
            match Edited(c, e.path, e.op, tmp, ds)
            case None => None
            case Some((y, tmp1)) => Edited(y, f.path, f.op, tmp1, ds)
  {
    assert ([e] + [f])[1..] == [f];
    match Edited(c, e.path, e.op, tmp, ds)
    case None =>
    case Some((y, tmp1)) => RunOne(y, tmp1, f, ds);
  }

  /** One change. It fails when its node is missing, whether that shows before or after the removal. */
  method ApplyOne(e: Editor, c: Change) returns (ok: bool)
    requires e.root.block.ProtoNode? && (c.kind != Remove ==> c.after.Some?)
    modifies e
    ensures e.root.block.ProtoNode?
    ensures var run := EditorRun(old(e.root), old(e.tmp), EditsOf(c), e.src.blocks);
            if ok then Fetchable(c, e.src.blocks) && run == Some((e.root, e.tmp))
            else !Fetchable(c, e.src.blocks) || run.None?
  {
    ghost var del := Edit(SplitList(c.path), DelLink);
    if c.kind == Remove {
      RunOne(e.root, e.tmp, del, e.src.blocks);
    } else {
      ghost var put := Edit(SplitList(c.path), PutLink(c.after.value, None));
      RunOne(e.root, e.tmp, put, e.src.blocks);
      RunTwo(e.root, e.tmp, del, put, e.src.blocks);
    }
    if c.kind != Add {
      ok := e.RmLink(c.path);
      if !ok { return; }
    }
    if c.kind != Remove {
      if c.after.value !in e.src.blocks || c.after.value.block.RawNode? { return false; }
      ok := e.InsertNodeAtPath(c.path, c.after.value, None);
      if !ok { return; }
    }
    ok := true;
  }

  /** The result comes with an error when finalizing failed; then only a part of it was written. */
  method ApplyChange(ds: DagService, a: Cid, cs: seq<Change>) returns (r: Option<Cid>, ok: bool)
    requires a.block.ProtoNode?
    requires forall i :: 0 <= i < |cs| && cs[i].kind != Remove ==> cs[i].after.Some?
    modifies ds
    ensures var e := Replay(a, {}, cs, old(ds.blocks));
            && (r.None? <==> e.None?)
            && (r.None? ==> !ok && ds.blocks == old(ds.blocks))
            && (r.Some? ==>
                  && r.value == CidOf(e.value.0.block)
                  && old(ds.blocks) <= ds.blocks <= old(ds.blocks) + Copied(r.value, e.value.1)
                  && (ok ==> ds.blocks == old(ds.blocks) + Copied(r.value, e.value.1))
                  && (!ok ==> old(ds.faults) < ds.faults))
  {
    var e := new Editor(a, ds);
    for i := 0 to |cs|
      invariant e.src == ds && ds.blocks == old(ds.blocks) && e.root.block.ProtoNode? && fresh(e)
      invariant ds.faults == old(ds.faults)
      invariant Replay(a, {}, cs, ds.blocks) == Replay(e.root, e.tmp, cs[i..], ds.blocks)
    {
      assert cs[i..][0] == cs[i] && cs[i..][1..] == cs[i + 1..];
      ok := ApplyOne(e, cs[i]);
      if !ok { return None, false; }
    }
    var nd;
    nd, ok := e.Finalize(ds);
    r := Some(nd);
  }
}
