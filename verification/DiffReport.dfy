/** What the list of changes says about the two trees, and when there is one. */
module DiffReports {
  import opened Sequences
  import opened Sorting
  import opened Dag
  import opened LinkEdits
  import opened Paths
  import opened DagEditor
  import opened DagDiff

  /** Link names are distinct, not empty and without slashes, here and everywhere below. */
  ghost predicate Tidy(c: Cid) {
    && DistinctKeys(NodeLinks(c.block), LinkName)
    && forall i :: 0 <= i < |NodeLinks(c.block)| ==>
         var l := NodeLinks(c.block)[i];
         l.name != "" && SlashFree(l.name) && Tidy(l.cid)
  }

  lemma {:induction false} TidyChild(c: Cid, name: string)
    requires Tidy(c) && Child(c, name).Some?
    ensures Tidy(Child(c, name).value) && name != "" && SlashFree(name)
    ensures exists i :: 0 <= i < |NodeLinks(c.block)| && NodeLinks(c.block)[i] == Link(name, Child(c, name).value)
    ensures Child(c, name).value < c
  {
    var ls := NodeLinks(c.block);
    FindLinkFinds(ls, name);
    var l := FindLink(ls, name).value;
    var i :| 0 <= i < |ls| && ls[i] == l;
    assert Links(c)[i] == l.cid;
    LinkIsSmaller(c, l.cid);
  }

  lemma {:induction false} TidyLink(c: Cid, i: nat)
    requires Tidy(c) && i < |NodeLinks(c.block)|
    ensures var l := NodeLinks(c.block)[i]; Child(c, l.name) == Some(l.cid)
  {
    FindLinkOf(NodeLinks(c.block), NodeLinks(c.block)[i]);
  }

  // ----- Every change is a difference -----

  /** The names a change leads along. The change of a root has no path. */
  function PathOf(c: Change): seq<string> {
    if c.path == "" then [] else SplitList(c.path)
  }

  /** The change tells truly what its path leads to in both trees. */
  ghost predicate Reports(a: Cid, b: Cid, c: Change) {
    && At(a, PathOf(c)) == c.before && At(b, PathOf(c)) == c.after
    && match c.kind
       case Add => c.before.None? && c.after.Some?
       case Remove => c.before.Some? && c.after.None?
       case Mod => c.before.Some? && c.after.Some? && c.before != c.after
                   && IsLeaf(c.before.value) && IsLeaf(c.after.value)
  }

  ghost predicate AllReport(a: Cid, b: Cid, cs: seq<Change>) {
    forall j :: 0 <= j < |cs| ==> Reports(a, b, cs[j])
  }

  lemma {:induction false} PathOfPrefixed(name: string, c: Change)
    requires SlashFree(name) && name != ""
    ensures PathOf(c.(path := JoinPath(name, c.path))) == [name] + PathOf(c)
  {
    SplitJoin(name, c.path);
  }

  lemma {:induction false} PathOfName(name: string, c: Change)
    requires SlashFree(name) && name != "" && c.path == name
    ensures PathOf(c) == [name]
  {
  }

  lemma {:induction false} AtCons(c: Cid, name: string, q: seq<string>)
    ensures At(c, [name] + q) == if Child(c, name).None? then None else At(Child(c, name).value, q)
    ensures At(c, [name]) == Child(c, name)
  {
    assert ([name] + q)[1..] == q && [name][1..] == [];
  }

  lemma {:induction false} NothingBelowLeaf(c: Cid, q: seq<string>)
    requires IsLeaf(c)
    ensures At(c, q).Some? ==> q == []
  {
    assert forall name :: Child(c, name).None?;
  }

  lemma {:induction false} PrefixedReport(a: Cid, b: Cid, name: string, x: Cid, y: Cid, sub: seq<Change>)
    requires Child(a, name) == Some(x) && Child(b, name) == Some(y) && SlashFree(name) && name != ""
    requires AllReport(x, y, sub)
    ensures AllReport(a, b, Prefixed(name, sub))
  {
    forall j | 0 <= j < |sub| ensures Reports(a, b, Prefixed(name, sub)[j]) {
      assert Reports(x, y, sub[j]);
      PathOfPrefixed(name, sub[j]);
      AtCons(a, name, PathOf(sub[j]));
      AtCons(b, name, PathOf(sub[j]));
    }
  }

  lemma {:induction false} RemovalsReport(a: Cid, b: Cid)
    requires Tidy(a) && Tidy(b) && a.block.ProtoNode? && b.block.ProtoNode?
    ensures AllReport(a, b, Removals(Filter(a.block.links, MissingIn(b))))
    ensures AllReport(a, b, Additions(Filter(b.block.links, MissingIn(a))))
  {
    var gone, come := Filter(a.block.links, MissingIn(b)), Filter(b.block.links, MissingIn(a));
    FilterElements(a.block.links, MissingIn(b));
    FilterElements(b.block.links, MissingIn(a));
    forall j | 0 <= j < |gone| ensures Reports(a, b, RemoveOf(gone[j])) {
      assert gone[j] in a.block.links && MissingIn(b)(gone[j]);
      OnlyThere(a, b, gone[j]);
      PathOfName(gone[j].name, RemoveOf(gone[j]));
    }
    forall j | 0 <= j < |come| ensures Reports(a, b, AddOf(come[j])) {
      assert come[j] in b.block.links && MissingIn(a)(come[j]);
      OnlyThere(b, a, come[j]);
      PathOfName(come[j].name, AddOf(come[j]));
    }
  }

  lemma {:induction false} OnlyThere(a: Cid, b: Cid, l: Link)
    requires Tidy(a) && l in NodeLinks(a.block) && Child(b, l.name).None?
    ensures At(a, [l.name]) == Some(l.cid) && At(b, [l.name]) == None && l.name != "" && SlashFree(l.name)
  {
    var i :| 0 <= i < |NodeLinks(a.block)| && NodeLinks(a.block)[i] == l;
    TidyLink(a, i);
    AtCons(a, l.name, []);
    AtCons(b, l.name, []);
  }

  /** Each change in the list is a difference between the trees at its path, with the two nodes there. */
  lemma {:induction false} DiffReports(a: Cid, b: Cid, ds: set<Cid>)
    requires Diffable(a, b) && Tidy(a) && Tidy(b) && DiffList(a, b, ds).Some?
    ensures AllReport(a, b, DiffList(a, b, ds).value)
    decreases a, |NodeLinks(a.block)| + 1
  {
    if IsLeaf(a) && IsLeaf(b) {
    } else {
      LinksReport(a, b, |a.block.links|, ds);
      RemovalsReport(a, b);
    }
  }

  lemma {:induction false} LinksReport(a: Cid, b: Cid, i: nat, ds: set<Cid>)
    requires a.block.ProtoNode? && b.block.ProtoNode? && Tidy(a) && Tidy(b)
    requires i <= |a.block.links| && DiffLinks(a, b, i, ds).Some?
    ensures AllReport(a, b, DiffLinks(a, b, i, ds).value)
    decreases a, i
  {
    if i == 0 {
    } else {
      LinksReport(a, b, i - 1, ds);
      LinkReports(a, b, i - 1, ds);
      ReportAppend(a, b, DiffLinks(a, b, i - 1, ds).value, DiffLink(a, b, i - 1, ds).value);
    }
  }

  lemma {:induction false} ReportAppend(a: Cid, b: Cid, xs: seq<Change>, ys: seq<Change>)
    requires AllReport(a, b, xs) && AllReport(a, b, ys)
    ensures AllReport(a, b, xs + ys)
  {
  }

  lemma {:induction false} LinkReports(a: Cid, b: Cid, i: nat, ds: set<Cid>)
    requires a.block.ProtoNode? && b.block.ProtoNode? && Tidy(a) && Tidy(b)
    requires i < |a.block.links| && DiffLink(a, b, i, ds).Some?
    ensures AllReport(a, b, DiffLink(a, b, i, ds).value)
    decreases a, i
  {
    var l := a.block.links[i];
    TidyLink(a, i);
    TidyChild(a, l.name);
    if Child(b, l.name).Some? && Child(b, l.name).value != l.cid {
      TidyChild(b, l.name);
      var y := Child(b, l.name).value;
      DiffReports(l.cid, y, ds);
      PrefixedReport(a, b, l.name, l.cid, y, DiffList(l.cid, y, ds).value);
    }
  }

  // ----- Every difference is covered by a change -----

  /** One tree leads somewhere along the path and the other does not, or both lead to different leaves. */
  ghost predicate Differ(a: Cid, b: Cid, q: seq<string>) {
    var x, y := At(a, q), At(b, q);
    x.Some? != y.Some? || (x.Some? && y.Some? && x != y && IsLeaf(x.value) && IsLeaf(y.value))
  }

  /** Some change is at the path or above it. */
  ghost predicate Covers(cs: seq<Change>, q: seq<string>) {
    exists j :: 0 <= j < |cs| && PathOf(cs[j]) <= q
  }

  lemma {:induction false} CoversAppend(xs: seq<Change>, ys: seq<Change>, q: seq<string>)
    requires Covers(xs, q) || Covers(ys, q)
    ensures Covers(xs + ys, q)
  {
    if Covers(xs, q) {
      var j :| 0 <= j < |xs| && PathOf(xs[j]) <= q;
      assert (xs + ys)[j] == xs[j];
    } else {
      var j :| 0 <= j < |ys| && PathOf(ys[j]) <= q;
      assert (xs + ys)[|xs| + j] == ys[j];
    }
  }

  lemma {:induction false} PrefixedCovers(name: string, sub: seq<Change>, q: seq<string>)
    requires SlashFree(name) && name != "" && Covers(sub, q)
    ensures Covers(Prefixed(name, sub), [name] + q)
  {
    var j :| 0 <= j < |sub| && PathOf(sub[j]) <= q;
    PathOfPrefixed(name, sub[j]);
    assert Prefixed(name, sub)[j] == sub[j].(path := JoinPath(name, sub[j].path));
  }

  lemma {:induction false} LinksCover(a: Cid, b: Cid, i: nat, k: nat, ds: set<Cid>, q: seq<string>)
    requires a.block.ProtoNode? && b.block.ProtoNode? && i < k <= |a.block.links| && DiffLinks(a, b, k, ds).Some?
    requires DiffLink(a, b, i, ds).Some? ==> Covers(DiffLink(a, b, i, ds).value, q)
    ensures Covers(DiffLinks(a, b, k, ds).value, q)
    decreases k
  {
    var xs, ys := DiffLinks(a, b, k - 1, ds).value, DiffLink(a, b, k - 1, ds).value;
    if i < k - 1 {
      LinksCover(a, b, i, k - 1, ds, q);
    }
    CoversAppend(xs, ys, q);
  }

  /** The list misses nothing: whatever differs is changed, at its own path or at one above. */
  lemma {:induction false} DiffCovers(a: Cid, b: Cid, ds: set<Cid>, q: seq<string>)
    requires Diffable(a, b) && Tidy(a) && Tidy(b) && DiffList(a, b, ds).Some? && Differ(a, b, q)
    ensures Covers(DiffList(a, b, ds).value, q)
    decreases |q|
  {
    var cs := DiffList(a, b, ds).value;
    if IsLeaf(a) && IsLeaf(b) {
      NothingBelowLeaf(a, q);
      NothingBelowLeaf(b, q);
      assert cs[0] == Change(Mod, "", Some(a), Some(b)) && PathOf(cs[0]) == [];
    } else {
      assert q == [q[0]] + q[1..];
      AtCons(a, q[0], q[1..]);
      AtCons(b, q[0], q[1..]);
      var xs := DiffLinks(a, b, |a.block.links|, ds).value;
      var gone, come := Filter(a.block.links, MissingIn(b)), Filter(b.block.links, MissingIn(a));
      if Child(a, q[0]).Some? && Child(b, q[0]).Some? {
        BelowCovers(a, b, ds, q);
      } else if Child(a, q[0]).Some? {
        var j := OnlyListed(a, b, q[0]);
        PathOfName(q[0], RemoveOf(gone[j]));
        assert Removals(gone)[j] == RemoveOf(gone[j]);
      } else {
        var j := OnlyListed(b, a, q[0]);
        PathOfName(q[0], AddOf(come[j]));
        assert Additions(come)[j] == AddOf(come[j]);
      }
      JoinCovers(xs, Removals(gone), Additions(come), q);
    }
  }

  lemma {:induction false} JoinCovers(xs: seq<Change>, ys: seq<Change>, zs: seq<Change>, q: seq<string>)
    requires Covers(xs, q) || Covers(ys, q) || Covers(zs, q)
    ensures Covers(xs + ys + zs, q)
  {
    if Covers(xs, q) || Covers(ys, q) {
      CoversAppend(xs, ys, q);
    }
    CoversAppend(xs + ys, zs, q);
  }

  lemma {:induction false} OnlyListed(a: Cid, b: Cid, name: string) returns (j: nat)
    requires Tidy(a) && a.block.ProtoNode? && Child(a, name).Some? && Child(b, name).None?
    ensures var gone := Filter(a.block.links, MissingIn(b)); j < |gone| && gone[j].name == name
    ensures name != "" && SlashFree(name)
  {
    TidyChild(a, name);
    FilterElements(a.block.links, MissingIn(b));
    var l := Link(name, Child(a, name).value);
    var gone := Filter(a.block.links, MissingIn(b));
    assert l in a.block.links && MissingIn(b)(l);
    j :| 0 <= j < |gone| && gone[j] == l;
  }

  lemma {:induction false} BelowCovers(a: Cid, b: Cid, ds: set<Cid>, q: seq<string>)
    requires a.block.ProtoNode? && b.block.ProtoNode? && Tidy(a) && Tidy(b) && q != []
    requires DiffLinks(a, b, |a.block.links|, ds).Some? && Differ(a, b, q)
    requires Child(a, q[0]).Some? && Child(b, q[0]).Some?
    ensures Covers(DiffLinks(a, b, |a.block.links|, ds).value, q)
    decreases |q|, 1
  {
    TidyChild(a, q[0]);
    var i :| 0 <= i < |a.block.links| && a.block.links[i] == Link(q[0], Child(a, q[0]).value);
    if DiffLink(a, b, i, ds).Some? {
      ChildCovers(a, b, i, ds, q);
    }
    LinksCover(a, b, i, |a.block.links|, ds, q);
  }

  lemma {:induction false} ChildCovers(a: Cid, b: Cid, i: nat, ds: set<Cid>, q: seq<string>)
    requires a.block.ProtoNode? && b.block.ProtoNode? && Tidy(a) && Tidy(b) && q != [] && Differ(a, b, q)
    requires Child(a, q[0]).Some? && Child(b, q[0]).Some?
    requires i < |a.block.links| && a.block.links[i] == Link(q[0], Child(a, q[0]).value)
    requires DiffLink(a, b, i, ds).Some?
    ensures Covers(DiffLink(a, b, i, ds).value, q)
    decreases |q|, 0
  {
    var x, y := Child(a, q[0]).value, Child(b, q[0]).value;
    TidyChild(a, q[0]);
    TidyChild(b, q[0]);
    DifferBelow(a, b, q);
    DiffCovers(x, y, ds, q[1..]);
    LinkCovers(a, b, i, x, y, ds, q);
  }

  lemma {:induction false} DifferBelow(a: Cid, b: Cid, q: seq<string>)
    requires q != [] && Child(a, q[0]).Some? && Child(b, q[0]).Some? && Differ(a, b, q)
    ensures var x, y := Child(a, q[0]).value, Child(b, q[0]).value; x != y && Differ(x, y, q[1..])
  {
  }

  lemma {:induction false} LinkCovers(a: Cid, b: Cid, i: nat, x: Cid, y: Cid, ds: set<Cid>, q: seq<string>)
    requires a.block.ProtoNode? && b.block.ProtoNode? && i < |a.block.links| && q != []
    requires a.block.links[i] == Link(q[0], x) && Child(b, q[0]) == Some(y) && x != y
    requires DiffLink(a, b, i, ds).Some? && q[0] != "" && SlashFree(q[0]) && Covers(DiffList(x, y, ds).value, q[1..])
    ensures Covers(DiffLink(a, b, i, ds).value, q)
  {
    PrefixedCovers(q[0], DiffList(x, y, ds).value, q[1..]);
    assert q == [q[0]] + q[1..];
  }

  // ----- When there is a list -----

  /** If both trees lead somewhere along the path, and not to the same node, both nodes can be read and compared. */
  ghost predicate Loadable(a: Cid, b: Cid, q: seq<string>, ds: set<Cid>) {
    var x, y := At(a, q), At(b, q);
    x.Some? && y.Some? && x != y ==>
      x.value in ds && y.value in ds && x.value.block.ProtoNode? && y.value.block.ProtoNode?
  }

  /** The diff succeeds exactly when everything that differs below the roots can be read and is no raw node. */
  lemma {:induction false} DiffSucceedsIff(a: Cid, b: Cid, ds: set<Cid>)
    requires Diffable(a, b) && Tidy(a)
    ensures DiffList(a, b, ds).Some? <==> forall q :: q != [] ==> Loadable(a, b, q, ds)
    decreases a
  {
    if IsLeaf(a) && IsLeaf(b) {
      forall q: seq<string> | q != [] ensures Loadable(a, b, q, ds) {
        assert Child(a, q[0]).None?;
      }
    } else {
      forall i | 0 <= i < |a.block.links|
        ensures DiffLink(a, b, i, ds).Some? <==>
                forall q :: q != [] && q[0] == a.block.links[i].name ==> Loadable(a, b, q, ds)
      {
        LinkSucceedsIff(a, b, i, ds);
      }
      LinksSucceedIff(a, b, |a.block.links|, ds);
      if DiffList(a, b, ds).Some? {
        forall q: seq<string> | q != [] ensures Loadable(a, b, q, ds) {
          if Child(a, q[0]).Some? {
            TidyChild(a, q[0]);
            var i :| 0 <= i < |a.block.links| && a.block.links[i] == Link(q[0], Child(a, q[0]).value);
            assert DiffLink(a, b, i, ds).Some?;
          }
        }
      }
    }
  }

  lemma {:induction false} LinksSucceedIff(a: Cid, b: Cid, k: nat, ds: set<Cid>)
    requires a.block.ProtoNode? && b.block.ProtoNode? && k <= |a.block.links|
    ensures DiffLinks(a, b, k, ds).Some? <==> forall i :: 0 <= i < k ==> DiffLink(a, b, i, ds).Some?
    decreases k
  {
    if k == 0 {
    } else {
      LinksSucceedIff(a, b, k - 1, ds);
      assert DiffLinks(a, b, k, ds).Some? <==> DiffLinks(a, b, k - 1, ds).Some? && DiffLink(a, b, k - 1, ds).Some?;
    }
  }

  /** What can be loaded below one name is what can be loaded from the two children on. */
  lemma {:induction false} LoadableBelow(a: Cid, b: Cid, name: string, x: Cid, y: Cid, ds: set<Cid>)
    requires Child(a, name) == Some(x) && Child(b, name) == Some(y)
    ensures (forall q :: q != [] && q[0] == name ==> Loadable(a, b, q, ds)) <==> forall q :: Loadable(x, y, q, ds)
  {
    forall q: seq<string> ensures Loadable(a, b, [name] + q, ds) <==> Loadable(x, y, q, ds) {
      AtCons(a, name, q);
      AtCons(b, name, q);
    }
    if forall q :: Loadable(x, y, q, ds) {
      forall q: seq<string> | q != [] && q[0] == name ensures Loadable(a, b, q, ds) {
        assert q == [name] + q[1..];
      }
    }
    if forall q :: q != [] && q[0] == name ==> Loadable(a, b, q, ds) {
      forall q: seq<string> ensures Loadable(x, y, q, ds) {
        assert ([name] + q)[0] == name;
      }
    }
  }

  lemma {:induction false} LinkSucceedsIff(a: Cid, b: Cid, i: nat, ds: set<Cid>)
    requires a.block.ProtoNode? && b.block.ProtoNode? && Tidy(a) && i < |a.block.links|
    ensures DiffLink(a, b, i, ds).Some? <==>
            forall q :: q != [] && q[0] == a.block.links[i].name ==> Loadable(a, b, q, ds)
    decreases a, 0
  {
    var l := a.block.links[i];
    TidyLink(a, i);
    TidyChild(a, l.name);
    if Child(b, l.name).None? {
      forall q: seq<string> | q != [] && q[0] == l.name ensures Loadable(a, b, q, ds) {
        assert At(b, q).None?;
      }
    } else {
      var y := Child(b, l.name).value;
      LoadableBelow(a, b, l.name, l.cid, y, ds);
      if y != l.cid && l.cid.block.ProtoNode? && y.block.ProtoNode? {
        DiffSucceedsIff(l.cid, y, ds);
      }
      assert y != l.cid ==>
          (Loadable(l.cid, y, [], ds) <==> l.cid in ds && y in ds && l.cid.block.ProtoNode? && y.block.ProtoNode?);
    }
  }

  // ----- When a change can be applied -----

  lemma {:induction false} RunSingle(a: Cid, e: Edit)
    requires a.block.ProtoNode? && e.path != []
    ensures TreeRun(a, [e]) == TreeEdit(a, e.path, e.op)
  {
    assert [e][1..] == [];
  }

  lemma {:induction false} RunPair(a: Cid, e: Edit, f: Edit)
    requires a.block.ProtoNode? && e.path != [] && f.path != []
    ensures TreeRun(a, [e] + [f]) ==
            match TreeEdit(a, e.path, e.op)
            case None => None
            case Some(y) => TreeEdit(y, f.path, f.op)
  {
    assert ([e] + [f])[1..] == [f];
    match TreeEdit(a, e.path, e.op)
    case None =>
    case Some(y) => RunSingle(y, f);
  }

  /** After a removal the node can be inserted again, unless its name is empty. */
  lemma {:induction false} CanInsertAgain(a: Cid, path: seq<string>, child: Cid)
    requires a.block.ProtoNode? && path != [] && TreeEdit(a, path, DelLink).Some?
    ensures TreeEdit(TreeEdit(a, path, DelLink).value, path, PutLink(child, None)).Some? <==> path[|path| - 1] != ""
  {
    var y := TreeEdit(a, path, DelLink).value;
    InsertionPossibleIff(y, path, child, None);
    forall k | 0 < k < |path| ensures Passes(y, path, k, None) {
      PrefixResolves(a, path, DelLink, k);
      NewSpineIsProto(a, path, DelLink, k);
    }
  }

  lemma {:induction false} NewSpineIsProto(c: Cid, path: seq<string>, op: LinkOp, k: nat)
    requires c.block.ProtoNode? && path != [] && TreeEdit(c, path, op).Some? && k < |path|
    ensures NewSpine(c, path, op)[k].block.ProtoNode?
    decreases |path|
  {
    if k == 0 {
    } else {
      var x := SpinesUnfold(c, path, op);
      NewSpineIsProto(x, path[1..], op, k - 1);
    }
  }

  /** What the path of a change has to lead to. A modification needs something to replace. */
  ghost predicate Applicable(a: Cid, c: Change) {
    var path := SplitList(c.path);
    match c.kind
    case Remove => At(a, path).Some?
    case Mod => At(a, path).Some? && path[|path| - 1] != ""
    case Add => path[|path| - 1] != "" && forall k :: 0 < k < |path| ==> Passes(a, path, k, None)
  }

  /** When a change can be applied to a tree, and what its path leads to then. */
  lemma {:induction false} ChangePossibleIff(a: Cid, c: Change)
    requires a.block.ProtoNode? && (c.kind != Remove ==> c.after.Some?)
    ensures TreeRun(a, EditsOf(c)).Some? <==> Applicable(a, c)
    ensures TreeRun(a, EditsOf(c)).Some? ==>
              At(TreeRun(a, EditsOf(c)).value, SplitList(c.path)) == if c.kind == Remove then None else c.after
  {
    var path := SplitList(c.path);
    match c.kind
    case Remove => SinglePossibleIff(a, path, DelLink);
    case Add => SinglePossibleIff(a, path, PutLink(c.after.value, None));
    case Mod => ModPossibleIff(a, path, c.after.value);
  }

  lemma {:induction false} SinglePossibleIff(a: Cid, path: seq<string>, op: LinkOp)
    requires a.block.ProtoNode? && path != [] && CreateOf(op).None?
    ensures var run := TreeRun(a, [Edit(path, op)]);
            && (run.Some? <==>
                if op.PutLink? then path[|path| - 1] != "" && forall k :: 0 < k < |path| ==> Passes(a, path, k, None)
                else At(a, path).Some?)
            && (run.Some? ==> At(run.value, path) == if op.PutLink? then Some(op.child) else None)
  {
    RunSingle(a, Edit(path, op));
    if op.PutLink? {
      InsertionPossibleIff(a, path, op.child, None);
    } else {
      RemovalPossibleIff(a, path);
    }
    if TreeEdit(a, path, op).Some? { EditGives(a, path, op); }
  }

  lemma {:induction false} ModPossibleIff(a: Cid, path: seq<string>, child: Cid)
    requires a.block.ProtoNode? && path != []
    ensures var run := TreeRun(a, [Edit(path, DelLink)] + [Edit(path, PutLink(child, None))]);
            && (run.Some? <==> At(a, path).Some? && path[|path| - 1] != "")
            && (run.Some? ==> At(run.value, path) == Some(child))
  {
    var put := PutLink(child, None);
    RemovalPossibleIff(a, path);
    RunPair(a, Edit(path, DelLink), Edit(path, put));
    if TreeEdit(a, path, DelLink).Some? {
      CanInsertAgain(a, path, child);
      var y := TreeEdit(a, path, DelLink).value;
      if TreeEdit(y, path, put).Some? { EditGives(y, path, put); }
    }
  }

  lemma {:induction false} EditGives(a: Cid, path: seq<string>, op: LinkOp)
    requires a.block.ProtoNode? && path != [] && TreeEdit(a, path, op).Some?
    ensures At(TreeEdit(a, path, op).value, path) == if op.PutLink? then Some(op.child) else None
  {
    EditedPathResolves(a, path, op, []);
    assert path + [] == path;
  }
}
