/** Two pairs of trees whose diffs the editor cannot replay as it should. */
module PatchExamples {
  import opened Sequences
  import opened Sorting
  import opened Dag
  import opened LinkEdits
  import opened Paths
  import opened DagEditor
  import opened DagDiff
  import opened DagPatch
  import opened DiffRuns
  import opened PatchStores
  import opened PatchTheorems

  // ----- The trees -----

  const LEAF_L: Cid := Cid(ProtoNode([0], []))
  const LEAF_U: Cid := Cid(ProtoNode([1], []))
  const OLD_P: Cid := Cid(ProtoNode([], []))
  const NEW_P: Cid := Cid(ProtoNode([], [Link("k", LEAF_L)]))
  const DIR_T: Cid := Cid(ProtoNode([], [Link("c", NEW_P)]))
  const DIR_B: Cid := Cid(ProtoNode([], [Link("c", NEW_P), Link("m", DIR_T), Link("z", LEAF_U)]))
  const ROOT_A: Cid := Cid(ProtoNode([], [Link("c", OLD_P), Link("m", DIR_T)]))
  const ROOT_B: Cid := Cid(ProtoNode([], [Link("c", NEW_P), Link("m", DIR_B)]))

  const DIR_C: Cid := Cid(ProtoNode([6], [Link("c", NEW_P), Link("m", DIR_T)]))
  const ROOT_C: Cid := Cid(ProtoNode([], [Link("c", NEW_P), Link("m", DIR_C)]))

  /** The root after the first change, which is also what "m" becomes by the second one. */
  const BETWEEN: Cid := Cid(ProtoNode([], [Link("c", NEW_P), Link("m", DIR_T)]))

  /** What replaying the diff of `ROOT_A` and `ROOT_C` gives: "m" has the data of `DIR_T`. */
  const RESULT: Cid := Cid(ProtoNode([], [Link("c", NEW_P), Link("m", BETWEEN)]))

  lemma {:induction false} NamedInOrder(data: Bytes, ls: seq<Link>)
    requires forall i, j :: 0 <= i < j < |ls| ==> StrLe(ls[i].name, ls[j].name) && ls[i].name != ls[j].name
    ensures Named(Cid(ProtoNode(data, ls)))
  {
    SortedIsFixed(ls, LinkName);
  }

  lemma {:induction false} ExampleNamed()
    ensures Named(OLD_P) && Named(NEW_P) && Named(DIR_T) && Named(DIR_B) && Named(ROOT_A) && Named(ROOT_B)
    ensures Named(BETWEEN) && Named(DIR_C) && Named(ROOT_C) && Named(RESULT)
  {
    assert "c"[0] == 'c' && "m"[0] == 'm' && "z"[0] == 'z';
    NamedInOrder([], []);
    NamedInOrder([], [Link("k", LEAF_L)]);
    NamedInOrder([], [Link("c", NEW_P)]);
    NamedInOrder([], [Link("c", NEW_P), Link("m", DIR_T), Link("z", LEAF_U)]);
    NamedInOrder([], [Link("c", OLD_P), Link("m", DIR_T)]);
    NamedInOrder([], [Link("c", NEW_P), Link("m", DIR_B)]);
    NamedInOrder([], [Link("c", NEW_P), Link("m", DIR_T)]);
    NamedInOrder([], [Link("c", NEW_P), Link("m", BETWEEN)]);
    NamedInOrder([], [Link("c", NEW_P), Link("m", DIR_C)]);
    NamedInOrder([6], [Link("c", NEW_P), Link("m", DIR_T)]);
  }

  lemma {:induction false} ExampleChildren(x: string)
    ensures Child(OLD_P, x) == None
    ensures Child(NEW_P, x) == if x == "k" then Some(LEAF_L) else None
    ensures Child(DIR_T, x) == if x == "c" then Some(NEW_P) else None
    ensures Child(DIR_B, x) ==
            if x == "c" then Some(NEW_P) else if x == "m" then Some(DIR_T) else if x == "z" then Some(LEAF_U) else None
    ensures Child(ROOT_A, x) == if x == "c" then Some(OLD_P) else if x == "m" then Some(DIR_T) else None
    ensures Child(ROOT_B, x) == if x == "c" then Some(NEW_P) else if x == "m" then Some(DIR_B) else None
    ensures Child(BETWEEN, x) == if x == "c" then Some(NEW_P) else if x == "m" then Some(DIR_T) else None
    ensures Child(DIR_C, x) == if x == "c" then Some(NEW_P) else if x == "m" then Some(DIR_T) else None
    ensures Child(ROOT_C, x) == if x == "c" then Some(NEW_P) else if x == "m" then Some(DIR_C) else None
    ensures Child(RESULT, x) == if x == "c" then Some(NEW_P) else if x == "m" then Some(BETWEEN) else None
  {
    ThreeLinks(x, Link("c", NEW_P), Link("m", DIR_T), Link("z", LEAF_U));
    TwoLinks(x, Link("c", OLD_P), Link("m", DIR_T));
    TwoLinks(x, Link("c", NEW_P), Link("m", DIR_B));
    TwoLinks(x, Link("c", NEW_P), Link("m", DIR_T));
    TwoLinks(x, Link("c", NEW_P), Link("m", DIR_C));
    TwoLinks(x, Link("c", NEW_P), Link("m", BETWEEN));
    OneLink(x, Link("k", LEAF_L));
    OneLink(x, Link("c", NEW_P));
  }

  lemma {:induction false} OneLink(x: string, l: Link)
    ensures FindLink([l], x) == if x == l.name then Some(l) else None
  {
    assert [l][1..] == [];
  }

  lemma {:induction false} TwoLinks(x: string, l: Link, m: Link)
    ensures FindLink([l, m], x) == if x == l.name then Some(l) else if x == m.name then Some(m) else None
  {
    assert [l, m][1..] == [m];
    OneLink(x, m);
  }

  lemma {:induction false} ThreeLinks(x: string, l: Link, m: Link, n: Link)
    ensures FindLink([l, m, n], x) ==
            if x == l.name then Some(l) else if x == m.name then Some(m) else if x == n.name then Some(n) else None
  {
    assert [l, m, n][1..] == [m, n];
    TwoLinks(x, m, n);
  }

  const EXAMPLE_STORE: set<Cid> := {ROOT_A, ROOT_B, ROOT_C, OLD_P, NEW_P, LEAF_L, DIR_T, DIR_B, DIR_C, LEAF_U}

  lemma {:induction false} ExampleStored()
    ensures ClosedStore(EXAMPLE_STORE)
    ensures Complete(ROOT_A, EXAMPLE_STORE) && Complete(ROOT_B, EXAMPLE_STORE) && Complete(ROOT_C, EXAMPLE_STORE)
  {
    forall c, l | c in EXAMPLE_STORE && l in Links(c) ensures l in EXAMPLE_STORE {
      var i :| 0 <= i < |NodeLinks(c.block)| && NodeLinks(c.block)[i].cid == l;
    }
    ClosedHolds(EXAMPLE_STORE, ROOT_A);
    ClosedHolds(EXAMPLE_STORE, ROOT_B);
    ClosedHolds(EXAMPLE_STORE, ROOT_C);
  }

  lemma {:induction false} ExampleNames()
    ensures ValidName("c") && ValidName("k") && ValidName("m") && ValidName("z")
  {
    assert "c" == ['c'] && "k" == ['k'] && "m" == ['m'] && "z" == ['z'];
    assert "."[0] == '.' && ".."[0] == '.';
  }

  lemma {:induction false} ComparableP()
    ensures Comparable(OLD_P, NEW_P) && SameData(OLD_P, NEW_P)
  {
    ExampleNamed();
    ExampleNames();
    ExampleChildren("k");
  }

  lemma {:induction false} ComparableT()
    ensures Comparable(DIR_T, DIR_B) && SameData(DIR_T, DIR_B)
  {
    ExampleNamed();
    ExampleNames();
    ExampleChildren("c");
    ExampleChildren("m");
    ExampleChildren("z");
  }

  lemma {:induction false} ExampleComparable()
    ensures Comparable(ROOT_A, ROOT_B) && SameData(ROOT_A, ROOT_B)
  {
    ExampleNamed();
    ExampleNames();
    ComparableP();
    ComparableT();
    ExampleChildren("c");
    ExampleChildren("m");
  }

  lemma {:induction false} FilterSnoc(xs: seq<Link>, x: Link, p: Link -> bool)
    ensures Filter(xs + [x], p) == Filter(xs, p) + (if p(x) then [x] else [])
  {
    assert (xs + [x])[..|xs|] == xs;
  }

  function ExampleChanges(): seq<Change> {
    [Change(Add, "c/k", None, Some(LEAF_L)),
     Change(Add, "m/m", None, Some(DIR_T)),
     Change(Add, "m/z", None, Some(LEAF_U))]
  }

  lemma {:induction false} ExampleDiffP()
    ensures DiffList(OLD_P, NEW_P, EXAMPLE_STORE) == Some([Change(Add, "k", None, Some(LEAF_L))])
  {
    ExampleChildren("k");
    FilterSnoc([], Link("k", LEAF_L), MissingIn(OLD_P));
    assert NEW_P.block.links == [] + [Link("k", LEAF_L)];
    assert [] + Removals([]) + Additions([Link("k", LEAF_L)]) == [Change(Add, "k", None, Some(LEAF_L))];
  }

  lemma {:induction false} ExampleDiffT()
    ensures DiffList(DIR_T, DIR_B, EXAMPLE_STORE) ==
            Some([Change(Add, "m", None, Some(DIR_T)), Change(Add, "z", None, Some(LEAF_U))])
  {
    ExampleChildren("c");
    ExampleChildren("m");
    ExampleChildren("z");
    var c, m, z := Link("c", NEW_P), Link("m", DIR_T), Link("z", LEAF_U);
    FilterSnoc([], c, MissingIn(DIR_B));
    assert DIR_T.block.links == [] + [c];
    assert Filter(DIR_T.block.links, MissingIn(DIR_B)) == [];
    FilterSnoc([], c, MissingIn(DIR_T));
    FilterSnoc([c], m, MissingIn(DIR_T));
    FilterSnoc([c, m], z, MissingIn(DIR_T));
    assert DIR_B.block.links == [c, m] + [z] && [c, m] == [c] + [m] && [c] == [] + [c];
    assert Filter(DIR_B.block.links, MissingIn(DIR_T)) == [m, z];
    assert DiffLink(DIR_T, DIR_B, 0, EXAMPLE_STORE) == Some([]);
    assert DiffLinks(DIR_T, DIR_B, 1, EXAMPLE_STORE) == Some([]);
    assert [] + Removals([]) + Additions([m, z]) ==
           [Change(Add, "m", None, Some(DIR_T)), Change(Add, "z", None, Some(LEAF_U))];
  }

  lemma {:induction false} ExampleSubDiffs()
    ensures DiffLink(ROOT_A, ROOT_B, 0, EXAMPLE_STORE) == Some(ExampleChanges()[..1])
    ensures DiffLink(ROOT_A, ROOT_B, 1, EXAMPLE_STORE) == Some(ExampleChanges()[1..])
  {
    ExampleChildren("c");
    ExampleChildren("m");
    ExampleDiffP();
    ExampleDiffT();
    var cs := ExampleChanges();
    ExamplePaths();
    assert Prefixed("c", [Change(Add, "k", None, Some(LEAF_L))]) == cs[..1];
    assert Prefixed("m", [Change(Add, "m", None, Some(DIR_T)), Change(Add, "z", None, Some(LEAF_U))]) == cs[1..];
  }

  lemma {:induction false} ExampleDiff()
    ensures DiffList(ROOT_A, ROOT_B, EXAMPLE_STORE) == Some(ExampleChanges())
  {
    ExampleChildren("c");
    ExampleChildren("m");
    FilterNone(ROOT_A.block.links, MissingIn(ROOT_B));
    FilterNone(ROOT_B.block.links, MissingIn(ROOT_A));
    ExampleSubDiffs();
    var cs := ExampleChanges();
    assert [] + cs[..1] == cs[..1] && cs[..1] + cs[1..] == cs;
    assert DiffLinks(ROOT_A, ROOT_B, 1, EXAMPLE_STORE) == Some(cs[..1]);
    assert DiffLinks(ROOT_A, ROOT_B, 2, EXAMPLE_STORE) == Some(cs);
    assert cs + Removals([]) + Additions([]) == cs;
  }

  lemma {:induction false} AddBelow(x: string, y: string, c: Cid)
    requires SlashFree(x) && SlashFree(y) && y != ""
    ensures EditsOf(Change(Add, JoinPath(x, y), None, Some(c))) == [Edit([x, y], PutLink(c, None))]
  {
    SplitJoin(x, y);
    assert [x] + [y] == [x, y];
  }

  lemma {:induction false} ExamplePaths()
    ensures JoinPath("c", "k") == "c/k" && JoinPath("m", "m") == "m/m" && JoinPath("m", "z") == "m/z"
  {
  }

  lemma {:induction false} EditsCons(c: Change, cs: seq<Change>)
    ensures Edits([c] + cs) == EditsOf(c) + Edits(cs)
  {
    assert ([c] + cs)[1..] == cs;
  }

  function ThreeEdits(): seq<Edit> {
    [Edit(["c", "k"], PutLink(LEAF_L, None)),
     Edit(["m", "m"], PutLink(DIR_T, None)),
     Edit(["m", "z"], PutLink(LEAF_U, None))]
  }

  lemma {:induction false} ExampleEdits()
    ensures Edits(ExampleChanges()) == ThreeEdits()
  {
    ExampleNames();
    ExamplePaths();
    AddBelow("c", "k", LEAF_L);
    AddBelow("m", "m", DIR_T);
    AddBelow("m", "z", LEAF_U);
    var c, d, e := ExampleChanges()[0], ExampleChanges()[1], ExampleChanges()[2];
    EditsCons(e, []);
    EditsCons(d, [e] + []);
    EditsCons(c, [d] + ([e] + []));
    assert [c] + ([d] + ([e] + [])) == ExampleChanges();
  }

  lemma {:induction false} LinkedIs(c: Cid, name: string, child: Cid, r: Cid)
    requires Named(c) && Named(r) && r.block.data == c.block.data
    requires forall x :: Child(r, x) == if x == name then Some(child) else Child(c, x)
    ensures WithLink(c, name, child) == r
  {
    ReplacedByWithLink(c, name, child);
    NamedExtensional(WithLink(c, name, child), r);
  }

  /** The first change makes the root equal to `BETWEEN`, the second one makes "m" equal to it. */
  lemma {:induction false} ExampleSteps()
    ensures TreeEdit(ROOT_A, ["c", "k"], PutLink(LEAF_L, None)) == Some(BETWEEN)
    ensures WithLink(DIR_T, "m", DIR_T) == BETWEEN
  {
    ExampleNamed();
    forall x ensures Child(NEW_P, x) == (if x == "k" then Some(LEAF_L) else Child(OLD_P, x))
             ensures Child(BETWEEN, x) == (if x == "c" then Some(NEW_P) else Child(ROOT_A, x))
             ensures Child(BETWEEN, x) == (if x == "m" then Some(DIR_T) else Child(DIR_T, x))
    {
      ExampleChildren(x);
    }
    LinkedIs(OLD_P, "k", LEAF_L, NEW_P);
    LinkedIs(ROOT_A, "c", NEW_P, BETWEEN);
    LinkedIs(DIR_T, "m", DIR_T, BETWEEN);
    assert ["c", "k"][1..] == ["k"];
  }

  /**
   The law is not true of every pair of trees: these two have the same data
   throughout and are in the store, yet the editor loses a node between the second
   and the third change and the replay fails.
   */
  lemma {:induction false} PatchCanFail()
    ensures Comparable(ROOT_A, ROOT_B) && SameData(ROOT_A, ROOT_B)
    ensures Complete(ROOT_A, EXAMPLE_STORE) && Complete(ROOT_B, EXAMPLE_STORE)
    ensures DiffList(ROOT_A, ROOT_B, EXAMPLE_STORE) == Some(ExampleChanges())
    ensures Replay(ROOT_A, {}, ExampleChanges(), EXAMPLE_STORE) == None
  {
    ExampleComparable();
    ExampleStored();
    ExampleDiff();
    ExampleEdits();
    PatchIff(ROOT_A, ROOT_B, EXAMPLE_STORE);
    ExampleShadowed(Edits(ExampleChanges()));
  }

  lemma {:induction false} ExampleShadowed(es: seq<Edit>)
    requires es == ThreeEdits()
    ensures !Unshadowed(ROOT_A, es, EXAMPLE_STORE)
  {
    ExampleSteps();
    var rest := es[1..];
    assert rest[0] == es[1] && rest[1] == es[2] && |rest| == 2;
    SecondStep();
    BetweenIsNew();
    assert [BETWEEN, DIR_T][..1][0] == BETWEEN;
    assert ["m", "m"][..1] == ["m", "z"][..1];
    assert SamePrefix(rest[0].path, rest[1].path, 1);
    assert !Unshadowed(BETWEEN, rest, EXAMPLE_STORE);
  }

  // ----- A successful replay whose result is not complete -----

  function DropChanges(): seq<Change> {
    ExampleChanges()[..2]
  }

  lemma {:induction false} DropComparable()
    ensures Comparable(ROOT_A, ROOT_C)
  {
    ExampleNamed();
    ExampleNames();
    ComparableP();
    ExampleChildren("c");
    ExampleChildren("m");
    assert Comparable(DIR_T, DIR_C);
  }

  lemma {:induction false} DropLinks()
    ensures Filter(DIR_T.block.links, MissingIn(DIR_C)) == []
    ensures Filter(DIR_C.block.links, MissingIn(DIR_T)) == [Link("m", DIR_T)]
  {
    ExampleChildren("c");
    ExampleChildren("m");
    var c, m := Link("c", NEW_P), Link("m", DIR_T);
    FilterNone(DIR_T.block.links, MissingIn(DIR_C));
    FilterSnoc([], c, MissingIn(DIR_T));
    FilterSnoc([c], m, MissingIn(DIR_T));
    assert DIR_C.block.links == [c] + [m] && [c] == [] + [c];
  }

  lemma {:induction false} DropDiffT()
    ensures DiffList(DIR_T, DIR_C, EXAMPLE_STORE) == Some([Change(Add, "m", None, Some(DIR_T))])
  {
    ExampleChildren("c");
    DropLinks();
    assert DiffLink(DIR_T, DIR_C, 0, EXAMPLE_STORE) == Some([]);
    assert DiffLinks(DIR_T, DIR_C, 1, EXAMPLE_STORE) == Some([]);
    assert [] + Removals([]) + Additions([Link("m", DIR_T)]) == [Change(Add, "m", None, Some(DIR_T))];
  }

  lemma {:induction false} DropSubDiffs()
    ensures DiffLink(ROOT_A, ROOT_C, 0, EXAMPLE_STORE) == Some(DropChanges()[..1])
    ensures DiffLink(ROOT_A, ROOT_C, 1, EXAMPLE_STORE) == Some(DropChanges()[1..])
  {
    ExampleChildren("c");
    ExampleChildren("m");
    ExampleDiffP();
    DropDiffT();
    var cs := DropChanges();
    ExamplePaths();
    assert Prefixed("c", [Change(Add, "k", None, Some(LEAF_L))]) == cs[..1];
    assert Prefixed("m", [Change(Add, "m", None, Some(DIR_T))]) == cs[1..];
  }

  lemma {:induction false} DropDiff()
    ensures DiffList(ROOT_A, ROOT_C, EXAMPLE_STORE) == Some(DropChanges())
  {
    ExampleChildren("c");
    ExampleChildren("m");
    FilterNone(ROOT_A.block.links, MissingIn(ROOT_C));
    FilterNone(ROOT_C.block.links, MissingIn(ROOT_A));
    DropSubDiffs();
    var cs := DropChanges();
    assert [] + cs[..1] == cs[..1] && cs[..1] + cs[1..] == cs;
    assert DiffLinks(ROOT_A, ROOT_C, 1, EXAMPLE_STORE) == Some(cs[..1]);
    assert DiffLinks(ROOT_A, ROOT_C, 2, EXAMPLE_STORE) == Some(cs);
    assert cs + Removals([]) + Additions([]) == cs;
  }

  function DropEdits(): seq<Edit> {
    [Edit(["c", "k"], PutLink(LEAF_L, None)), Edit(["m", "m"], PutLink(DIR_T, None))]
  }

  lemma {:induction false} DropEditsOf()
    ensures Edits(DropChanges()) == DropEdits()
  {
    var c, d := ExampleChanges()[0], ExampleChanges()[1];
    ExampleNames();
    ExamplePaths();
    AddBelow("c", "k", LEAF_L);
    AddBelow("m", "m", DIR_T);
    EditsCons(d, []);
    EditsCons(c, [d] + []);
    assert [c] + ([d] + []) == DropChanges();
  }

  lemma {:induction false} ResultIs()
    ensures WithLink(BETWEEN, "m", BETWEEN) == RESULT
  {
    ExampleNamed();
    forall x ensures Child(RESULT, x) == (if x == "m" then Some(BETWEEN) else Child(BETWEEN, x)) {
      ExampleChildren(x);
    }
    LinkedIs(BETWEEN, "m", BETWEEN, RESULT);
  }

  /** The second change writes `BETWEEN` under "m" and then deletes it as the old root. */
  lemma {:induction false} SecondStep()
    ensures TreeEdit(BETWEEN, ["m", "m"], PutLink(DIR_T, None)) == Some(RESULT)
    ensures Spine(BETWEEN, ["m", "m"], PutLink(DIR_T, None)) == [BETWEEN, DIR_T]
    ensures NewSpine(BETWEEN, ["m", "m"], PutLink(DIR_T, None)) == [RESULT, BETWEEN]
  {
    ExampleSteps();
    ExampleChildren("m");
    ResultIs();
  }

  lemma {:induction false} DropRun()
    ensures TreeRun(ROOT_A, DropEdits()) == Some(RESULT) && Unshadowed(ROOT_A, DropEdits(), EXAMPLE_STORE)
    ensures !Kept(ROOT_A, DropEdits(), false, BETWEEN)
  {
    var es := DropEdits();
    var rest := es[1..];
    ExampleSteps();
    SecondStep();
    assert rest == [es[1]] && rest[1..] == [];
    assert ["c", "k"][..1] != ["m", "m"][..1] by {
      assert ["c", "k"][..1][0] == "c" && ["m", "m"][..1][0] == "m";
    }
    assert Unshadowed(BETWEEN, rest, EXAMPLE_STORE);
    assert TreeRun(RESULT, []) == Some(RESULT);
    assert TreeRun(BETWEEN, rest) == Some(RESULT);
    NotKept();
    assert !Kept(RESULT, [], false, BETWEEN);
    assert !Kept(BETWEEN, rest, KeptBy(ROOT_A, es[0], false, BETWEEN), BETWEEN);
  }

  lemma {:induction false} NotKept()
    ensures TreeEdit(BETWEEN, ["m", "m"], PutLink(DIR_T, None)).Some?
    ensures forall held :: !KeptBy(BETWEEN, Edit(["m", "m"], PutLink(DIR_T, None)), held, BETWEEN)
  {
    SecondStep();
    var s, t := [BETWEEN, DIR_T], [RESULT, BETWEEN];
    assert RESULT != BETWEEN;
    forall d | 0 <= d < |t| && d <= |s| && t[d] == BETWEEN ensures BETWEEN in s[..d] {
      assert d == 1 && s[..1][0] == BETWEEN;
    }
    assert BETWEEN == s[0];
  }

  lemma {:induction false} BetweenIsNew()
    ensures BETWEEN !in EXAMPLE_STORE && BETWEEN != RESULT && BETWEEN in Links(RESULT)
  {
    assert |BETWEEN.block.links| == 2 && BETWEEN.block.links[0] == Link("c", NEW_P);
    assert BETWEEN.block.links[1] == Link("m", DIR_T);
    assert Links(RESULT)[1] == BETWEEN;
  }

  /**
   Here replaying succeeds and yet leaves the store without a node of its result: the data
   under "m" differ, so the result is not `ROOT_C`, and the node it has there was deleted.
   */
  lemma {:induction false} PatchCanDropNode()
    ensures Comparable(ROOT_A, ROOT_C) && Complete(ROOT_A, EXAMPLE_STORE) && Complete(ROOT_C, EXAMPLE_STORE)
    ensures DiffList(ROOT_A, ROOT_C, EXAMPLE_STORE) == Some(DropChanges())
    ensures var e := Replay(ROOT_A, {}, DropChanges(), EXAMPLE_STORE);
            && e.Some? && e.value.0 == RESULT && BETWEEN in Links(RESULT)
            && BETWEEN !in EXAMPLE_STORE + Copied(RESULT, e.value.1)
  {
    DropComparable();
    ExampleStored();
    DropDiff();
    DropEditsOf();
    DropRun();
    ReplayGives(ROOT_A, ROOT_C, EXAMPLE_STORE, DropChanges(), DropEdits(), RESULT);
    BetweenIsNew();
    var tmp := Replay(ROOT_A, {}, DropChanges(), EXAMPLE_STORE).value.1;
    if BETWEEN in Copied(RESULT, tmp) {
      CopiedIsScratch(RESULT, tmp, BETWEEN);
    }
  }
}
