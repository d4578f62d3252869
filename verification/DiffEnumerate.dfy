/**
 Incremental fetch: `DiffEnumerate` fetches what a new graph has and an old one,
 which is known to be complete, has not.
 */
module DiffEnum {
  import opened Sequences
  import opened Dag
  import opened AsyncWalk
  import opened DagServices

  /** `aft` is new; when `bef` is present, it is a removed link that `aft` is paired with. */
  datatype DiffPair = DiffPair(bef: Option<Cid>, aft: Cid)

  /** The elements of `xs` that `ys` does not hold, in order. */
  function Without(xs: seq<Cid>, ys: seq<Cid>): seq<Cid> {
    Filter(xs, NotIn(ys))
  }

  function NotIn(ys: seq<Cid>): Cid -> bool {
    (x: Cid) => x !in ys
  }

  /** New links in order; the i-th is paired with the i-th removed link while there is one. */
  function PairUp(aonly: seq<Cid>, bonly: seq<Cid>): seq<DiffPair> {
    seq(|bonly|, i requires 0 <= i < |bonly| =>
      DiffPair(if i < |aonly| then Some(aonly[i]) else None, bonly[i]))
  }

  method GetLinkDiff(a: seq<Cid>, b: seq<Cid>) returns (out: seq<DiffPair>)
    ensures out == PairUp(Without(a, b), Without(b, a))
    ensures |out| == |Without(b, a)|
    ensures forall i :: 0 <= i < |out| ==>
              && out[i].aft == Without(b, a)[i]
              && out[i].bef == if i < |Without(a, b)| then Some(Without(a, b)[i]) else None
  {
    var ina, inb: set<Cid> := {}, {};
    var aonly: seq<Cid> := [];
    for i := 0 to |b|
      invariant forall x :: x in inb <==> x in b[..i]
    {
      inb := inb + {b[i]};
    }
    assert b[..|b|] == b;
    for i := 0 to |a|
      invariant forall x :: x in ina <==> x in a[..i]
      invariant aonly == Without(a[..i], b)
    {
      ina := ina + {a[i]};
      FilterStep(a, NotIn(b), i);
      if a[i] !in inb {
        aonly := aonly + [a[i]];
      }
    }
    assert a[..|a|] == a;
    out := [];
    var aindex := 0;
    for i := 0 to |b|
      invariant out == PairUp(aonly, Without(b[..i], a))
      invariant aindex == if |out| < |aonly| then |out| else |aonly|
    {
      FilterStep(b, NotIn(a), i);
      if b[i] in ina {
        continue;
      }
      if aindex < |aonly| {
        out := out + [DiffPair(Some(aonly[aindex]), b[i])];
        aindex := aindex + 1;
      } else {
        out := out + [DiffPair(None, b[i])];
      }
    }
  }

  ghost predicate AllComplete(cs: set<Cid>, store: set<Cid>) {
    forall c :: c in cs ==> Complete(c, store)
  }

  /**
   A walk that skips nodes already known to be complete leaves every visited node
   complete: a skipped node stands for its whole graph.
   */
  lemma {:induction false} WalkCompletes(root: Cid, seen: set<Cid>, visited: set<Cid>, store: set<Cid>)
    requires AllComplete(seen, store)
    requires forall x :: x in visited <==> x in seen || FreshReach(CidWalk(root, seen), x)
    requires forall x :: FreshReach(CidWalk(root, seen), x) ==> x in store
    ensures AllComplete(visited, store) && root in visited
  {
    var k := CidWalk(root, seen);
    forall x | x in visited ensures Complete(x, store) {
      if x !in seen { FreshIsComplete(root, seen, store, x); }
    }
    if root !in seen { FreshReachRoot(k); }
  }

  lemma {:induction false} FreshIsComplete(root: Cid, seen: set<Cid>, store: set<Cid>, x: Cid)
    requires AllComplete(seen, store)
    requires forall x :: FreshReach(CidWalk(root, seen), x) ==> x in store
    requires FreshReach(CidWalk(root, seen), x)
    ensures Complete(x, store)
    decreases x
  {
    forall l | l in Links(x) ensures Complete(l, store) {
      if l !in seen {
        LinkIsSmaller(x, l);
        FreshReachStep(CidWalk(root, seen), x, l);
        FreshIsComplete(root, seen, store, l);
      }
    }
    CompleteFromLinks(x, store);
  }

  /** The seeds are links of the complete graph. */
  method Seeds(diff: seq<DiffPair>) returns (sset: set<Cid>)
    ensures forall c :: c in sset <==> exists i :: 0 <= i < |diff| && diff[i].bef == Some(c)
  {
    sset := {};
    for i := 0 to |diff|
      invariant forall c :: c in sset <==> exists j :: 0 <= j < i && diff[j].bef == Some(c)
    {
      if diff[i].bef.Some? {
        sset := sset + {diff[i].bef.value};
      }
    }
  }

  ghost predicate AftsComplete(diff: seq<DiffPair>, i: nat, store: set<Cid>)
    requires i <= |diff|
  {
    forall j :: 0 <= j < i ==> Complete(diff[j].aft, store)
  }

  lemma {:induction false} AftsStep(diff: seq<DiffPair>, i: nat, store: set<Cid>, more: set<Cid>)
    requires i < |diff| && store <= more && AftsComplete(diff, i, store) && Complete(diff[i].aft, more)
    ensures AftsComplete(diff, i + 1, more)
  {
  }

  /**
   If everything reachable from `from` is local, a successful call makes everything
   reachable from `dest` local, and nothing outside the two graphs is fetched.
   */
  method DiffEnumerate(ds: DagService, from: Cid, dest: Cid) returns (ok: bool)
    modifies ds
    ensures ok && Complete(from, old(ds.blocks)) ==> Complete(dest, ds.blocks)
    ensures old(ds.blocks) <= ds.blocks <= old(ds.blocks) + Reach(from) + Reach(dest)
    ensures old(ds.faults) <= ds.faults && (!ok ==> old(ds.faults) < ds.faults)
    decreases dest
  {
    var fnd := ds.Get(from);
    if fnd.None? { return false; }
    var tnd := ds.Get(dest);
    if tnd.None? { return false; }
    var diff := GetLinkDiff(Links(from), Links(dest));
    FilterElements(Links(from), NotIn(Links(dest)));
    FilterElements(Links(dest), NotIn(Links(from)));
    var sset := Seeds(diff);
    assert Complete(from, old(ds.blocks)) ==> AllComplete(sset, ds.blocks) by {
      SeedsComplete(from, dest, diff, sset, old(ds.blocks), ds.blocks);
    }
    for i := 0 to |diff|
      invariant old(ds.blocks) + {dest} <= ds.blocks <= old(ds.blocks) + Reach(from) + Reach(dest)
      invariant old(ds.faults) <= ds.faults
      invariant Complete(from, old(ds.blocks)) ==> AllComplete(sset, ds.blocks)
      invariant Complete(from, old(ds.blocks)) ==> AftsComplete(diff, i, ds.blocks)
    {
      var c := diff[i];
      ghost var store := ds.blocks;
      assert c.aft in Without(Links(dest), Links(from));
      LinkIsSmaller(dest, c.aft);
      LinkDescends(dest, c.aft);
      if c.bef.None? {
        if c.aft in sset {
          if Complete(from, old(ds.blocks)) {
            AftsStep(diff, i, store, ds.blocks);
          }
          continue;
        }
        ghost var seen := sset;
        var done;
        done, sset := FetchChildren(ds, c.aft, sset);
        if !done { return false; }
        if Complete(from, old(ds.blocks)) {
          WalkCompletes(c.aft, seen, sset, ds.blocks);
        }
      } else {
        assert c.bef.value in Without(Links(from), Links(dest));
        LinkDescends(from, c.bef.value);
        var done := DiffEnumerate(ds, c.bef.value, c.aft);
        if !done { return false; }
      }
      if Complete(from, old(ds.blocks)) {
        AftsStep(diff, i, store, ds.blocks);
      }
    }
    if Complete(from, old(ds.blocks)) {
      DiffCovers(from, dest, diff, old(ds.blocks), ds.blocks);
    }
    return true;
  }

  lemma {:induction false} SeedsComplete(
      from: Cid, dest: Cid, diff: seq<DiffPair>, sset: set<Cid>, before: set<Cid>, store: set<Cid>)
    requires diff == PairUp(Without(Links(from), Links(dest)), Without(Links(dest), Links(from)))
    requires forall c :: c in sset <==> exists i :: 0 <= i < |diff| && diff[i].bef == Some(c)
    requires before <= store
    ensures Complete(from, before) ==> AllComplete(sset, store)
  {
    if Complete(from, before) {
      FilterElements(Links(from), NotIn(Links(dest)));
      forall c | c in sset ensures Complete(c, store) {
        var i :| 0 <= i < |diff| && diff[i].bef == Some(c);
        assert c in Without(Links(from), Links(dest));
        CompleteLink(from, c, before);
      }
    }
  }

  /** Each link of `dest` is a link of `from` or the new side of a pair. */
  lemma {:induction false} DiffCovers(from: Cid, dest: Cid, diff: seq<DiffPair>, before: set<Cid>, store: set<Cid>)
    requires diff == PairUp(Without(Links(from), Links(dest)), Without(Links(dest), Links(from)))
    requires Complete(from, before) && before <= store && dest in store
    requires forall j :: 0 <= j < |diff| ==> Complete(diff[j].aft, store)
    ensures Complete(dest, store)
  {
    FilterElements(Links(dest), NotIn(Links(from)));
    forall l | l in Links(dest) ensures Complete(l, store) {
      if l in Links(from) {
        CompleteLink(from, l, before);
      } else {
        var bonly := Without(Links(dest), Links(from));
        var j :| 0 <= j < |bonly| && bonly[j] == l;
        assert diff[j].aft == l;
      }
    }
    CompleteFromLinks(dest, store);
  }
}
