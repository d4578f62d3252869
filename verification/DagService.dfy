/**
 A DAG service over a local block store, and the fetching walks built on it.

 The store is the set of CIDs it holds. `Get` reads locally or from the network:
 a fetch that succeeds leaves the block in the store, and any read may fail.
 */
module DagServices {
  import opened Dag
  import opened AsyncWalk

  /** merkledag.FetchGraphConcurrency */
  const FETCH_CONCURRENCY := 8

  class DagService {
    var blocks: set<Cid>
    // How many calls have failed so far. A call that fails has one of these as its cause.
    ghost var faults: nat

    constructor ()
      ensures blocks == {}
    {
      blocks := {};
    }

    /** Stores a node. A failed call may or may not have stored it. */
    method Add(n: Node) returns (ok: bool)
      modifies this
      ensures ok ==> blocks == old(blocks) + {CidOf(n)}
      ensures old(blocks) <= blocks <= old(blocks) + {CidOf(n)}
      ensures faults == old(faults) + if ok then 0 else 1
    {
      ok := AddBlock(CidOf(n));
    }

    /** The same for an encoded node. */
    method AddBlock(c: Cid) returns (ok: bool)
      modifies this
      ensures ok ==> blocks == old(blocks) + {c}
      ensures old(blocks) <= blocks <= old(blocks) + {c}
      ensures faults == old(faults) + if ok then 0 else 1
    {
      var stored: bool := *;
      var announced: bool := *;
      if stored {
        blocks := blocks + {c};
      }
      ok := stored && announced;
      if !ok { faults := faults + 1; }
    }

    method Get(c: Cid) returns (r: Option<Node>)
      modifies this
      ensures r.Some? ==> r.value == c.block && blocks == old(blocks) + {c}
      ensures r.None? ==> blocks == old(blocks)
      ensures faults == old(faults) + if r.Some? then 0 else 1
    {
      if * {
        blocks := blocks + {c};
        r := Some(c.block);
      } else {
        faults := faults + 1;
        r := None;
      }
    }

    /** Raw blocks have no links, so theirs are known without reading them. */
    method GetLinks(c: Cid) returns (r: Option<seq<Cid>>)
      modifies this
      ensures r.Some? ==> r.value == Links(c)
      ensures old(blocks) <= blocks <= old(blocks) + {c}
      ensures c.block.RawNode? ==> r == Some([]) && blocks == old(blocks)
      ensures faults == old(faults) + if r.Some? then 0 else 1
    {
      if c.block.RawNode? {
        r := Some([]);
      } else {
        var n := Get(c);
        r := if n.Some? then Some(LinkCids(NodeLinks(n.value))) else None;
      }
    }

    method Delete(c: Cid) returns (ok: bool)
      modifies this
      ensures ok ==> c in old(blocks) && blocks == old(blocks) - {c}
      ensures !ok ==> blocks == old(blocks)
      ensures faults == old(faults) + if !ok && c in old(blocks) then 1 else 0
    {
      var deletable: bool := *;
      ok := c in blocks && deletable;
      if ok {
        blocks := blocks - {c};
      } else if c in blocks {
        faults := faults + 1;
      }
    }
  }

  function CidWalk(root: Cid, seen: set<Cid>): Walk<Cid> {
    Walk(root, seen, Links, FETCH_CONCURRENCY)
  }

  lemma {:induction false} ReachIsUniverse(root: Cid, seen: set<Cid>)
    ensures Universe(CidWalk(root, seen), Reach(root))
  {
    forall x, y | x in Reach(root) && y in Links(x) ensures y in Reach(root) {
      LinkDescends(x, y);
      if x != root { DescendantsTransitive(root, x); }
    }
  }

  /** With nothing seen before, the walk covers exactly what the root reaches. */
  lemma {:induction false} FreshReachIsReach(root: Cid, x: Cid)
    ensures FreshReach(CidWalk(root, {}), x) <==> x in Reach(root)
  {
    var k := CidWalk(root, {});
    if FreshReach(k, x) {
      var p :| FreshPath(k, p) && p[|p| - 1] == x;
      ReachIsUniverse(root, {});
      ClosedHoldsReach(k, Reach(root), p);
    }
    if x in Reach(root) {
      FreshReachRoot(k);
      ReachIsFresh(k, root, x);
    }
  }

  lemma {:induction false} ReachIsFresh(k: Walk<Cid>, c: Cid, x: Cid)
    requires k.links == Links && k.initial == {} && FreshReach(k, c) && x in Reach(c)
    ensures FreshReach(k, x)
    decreases c
  {
    if x == c {
    } else {
      var l := DescendantViaLink(c, x);
      LinkIsSmaller(c, l);
      FreshReachStep(k, c, l);
      ReachIsFresh(k, l, x);
    }
  }

  /**
   `EnumerateChildrenAsync` with the direct link getter: a node's links are known
   only after its block was fetched.
   */
  method FetchChildren(ds: DagService, root: Cid, seen: set<Cid>) returns (ok: bool, visited: set<Cid>)
    modifies ds
    ensures old(ds.blocks) <= ds.blocks <= old(ds.blocks) + Reach(root)
    ensures ok ==> forall x :: x in visited <==> x in seen || FreshReach(CidWalk(root, seen), x)
    ensures ok ==> forall x :: FreshReach(CidWalk(root, seen), x) ==> x in ds.blocks
    ensures old(ds.faults) <= ds.faults && (!ok ==> old(ds.faults) < ds.faults)
  {
    var k := CidWalk(root, seen);
    ReachIsUniverse(root, seen);
    var fetched, failed, cancelled;
    ok, visited, fetched, failed, cancelled := EnumerateChildrenAsync(k, Reach(root));
    if cancelled || failed != multiset{} { ds.faults := ds.faults + 1; }
    var got := set x | x in fetched;
    forall x | x in got ensures x in Reach(root) {
      var p :| FreshPath(k, p) && p[|p| - 1] == x;
      ClosedHoldsReach(k, Reach(root), p);
    }
    assert ok ==> forall x :: FreshReach(k, x) ==> fetched[x] == 1;
    ds.blocks := ds.blocks + got;
  }

  /** Fetches everything the root reaches, itself included. */
  method FetchGraph(ds: DagService, root: Cid) returns (ok: bool)
    modifies ds
    ensures old(ds.blocks) <= ds.blocks <= old(ds.blocks) + Reach(root)
    ensures ok ==> Complete(root, ds.blocks)
    ensures old(ds.faults) <= ds.faults && (!ok ==> old(ds.faults) < ds.faults)
  {
    var visited;
    ok, visited := FetchChildren(ds, root, {});
    forall x ensures FreshReach(CidWalk(root, {}), x) <==> x in Reach(root) {
      FreshReachIsReach(root, x);
    }
  }
}
