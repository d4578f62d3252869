/**
 Merkle-DAG nodes, links and content identifiers.

 A CID is modelled by an ideal hash: `Cid(block)` is determined by the encoded
 block and determines it. Two facts the code relies on follow from the datatype:
 equal CIDs have equal contents, and no block can reach itself. A block store is
 then the set of CIDs it holds.
 */
module Dag {
  import opened Sorting

  type byte = x: int | 0 <= x < 256
  type Bytes = seq<byte>

  datatype Option<+T> = None | Some(value: T)

  datatype Link = Link(name: string, cid: Cid)

  datatype Node =
    | ProtoNode(data: Bytes, links: seq<Link>)
    | RawNode(data: Bytes)

  datatype Cid = Cid(block: Node)

  function NodeLinks(n: Node): seq<Link> {
    if n.ProtoNode? then n.links else []
  }

  function LinkName(l: Link): string {
    l.name
  }

  /** The first link of that name. */
  function FindLink(ls: seq<Link>, name: string): Option<Link>
  {
    if ls == [] then None else if ls[0].name == name then Some(ls[0]) else FindLink(ls[1..], name)
  }

  /** The block a node is encoded to: its links are stably sorted by name. */
  function Canonical(n: Node): Node {
    if n.ProtoNode? then n.(links := StableSort(n.links, LinkName)) else n
  }

  function CidOf(n: Node): Cid {
    Cid(Canonical(n))
  }

  /** The CIDs a block links to, in link order. */
  function Links(c: Cid): seq<Cid> {
    LinkCids(NodeLinks(c.block))
  }

  predicate IsLeaf(c: Cid) {
    NodeLinks(c.block) == []
  }

  function LinkCids(ls: seq<Link>): seq<Cid> {
    seq(|ls|, i requires 0 <= i < |ls| => ls[i].cid)
  }

  /** A linked CID is a smaller term, which is what every recursion over a DAG rests on. */
  lemma {:induction false} LinkIsSmaller(c: Cid, l: Cid)
    requires l in Links(c)
    ensures l < c
  {
    var i :| 0 <= i < |Links(c)| && Links(c)[i] == l;
    assert c.block.links[i].cid == l;
  }

  /** Every CID reachable from `c` over one link or more. */
  ghost function Descendants(c: Cid): set<Cid>
    decreases c
  {
    var ls := NodeLinks(c.block);
    set i, d | 0 <= i < |ls| && d in {ls[i].cid} + Descendants(ls[i].cid) :: d
  }

  /** Every CID reachable from `c`, itself included. */
  ghost function Reach(c: Cid): set<Cid> {
    {c} + Descendants(c)
  }

  lemma {:induction false} LinkDescends(c: Cid, l: Cid)
    requires l in Links(c)
    ensures Reach(l) <= Descendants(c)
  {
    var i :| 0 <= i < |Links(c)| && Links(c)[i] == l;
    assert NodeLinks(c.block)[i].cid == l;
  }

  lemma {:induction false} DescendantViaLink(c: Cid, d: Cid) returns (l: Cid)
    requires d in Descendants(c)
    ensures l in Links(c) && d in Reach(l)
  {
    var ls := NodeLinks(c.block);
    var i :| 0 <= i < |ls| && d in {ls[i].cid} + Descendants(ls[i].cid);
    l := ls[i].cid;
    assert Links(c)[i] == l;
  }

  lemma {:induction false} DescendantsTransitive(c: Cid, d: Cid)
    requires d in Descendants(c)
    ensures Descendants(d) <= Descendants(c)
    decreases c
  {
    var l := DescendantViaLink(c, d);
    LinkIsSmaller(c, l);
    LinkDescends(c, l);
    if d == l {
    } else {
      DescendantsTransitive(l, d);
    }
  }

  ghost function Height(c: Cid): nat
    decreases c
  {
    MaxHeight(c, |NodeLinks(c.block)|)
  }

  /** One more than the greatest height among the first `k` links. */
  ghost function MaxHeight(c: Cid, k: nat): nat
    requires k <= |NodeLinks(c.block)|
    decreases c, k
  {
    if k == 0 then 0
    else
      var rest := MaxHeight(c, k - 1);
      var h := Height(NodeLinks(c.block)[k - 1].cid) + 1;
      if h > rest then h else rest
  }

  lemma {:induction false} MaxHeightBounds(c: Cid, k: nat, i: nat)
    requires i < k <= |NodeLinks(c.block)|
    ensures Height(NodeLinks(c.block)[i].cid) < MaxHeight(c, k)
  {
    if i == k - 1 {
    } else {
      MaxHeightBounds(c, k - 1, i);
    }
  }

  lemma {:induction false} LinkIsLower(c: Cid, l: Cid)
    requires l in Links(c)
    ensures Height(l) < Height(c)
  {
    var i :| 0 <= i < |Links(c)| && Links(c)[i] == l;
    MaxHeightBounds(c, |NodeLinks(c.block)|, i);
  }

  /** Heights fall along links, so no block reaches itself. */
  lemma {:induction false} DescendantIsLower(c: Cid, d: Cid)
    requires d in Descendants(c)
    ensures Height(d) < Height(c) && d != c
    decreases c
  {
    var l := DescendantViaLink(c, d);
    LinkIsSmaller(c, l);
    LinkIsLower(c, l);
    if d == l {
    } else {
      DescendantIsLower(l, d);
    }
  }

  /** Everything reachable from `c` is in the store. */
  ghost predicate Complete(c: Cid, store: set<Cid>) {
    Reach(c) <= store
  }

  /** A stored block whose links are all complete is complete. */
  lemma {:induction false} CompleteFromLinks(c: Cid, store: set<Cid>)
    requires c in store
    requires forall l :: l in Links(c) ==> Complete(l, store)
    ensures Complete(c, store)
  {
    forall d | d in Descendants(c) ensures d in store {
      var l := DescendantViaLink(c, d);
    }
  }

  lemma {:induction false} CompleteLink(c: Cid, l: Cid, store: set<Cid>)
    requires Complete(c, store) && l in Links(c)
    ensures Complete(l, store)
  {
    LinkDescends(c, l);
  }
}
