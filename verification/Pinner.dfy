/**
 The pinner: which blocks must be kept, which may be deleted, and how the pin
 state survives a restart.

 All operations run under one lock, so each is one step on the state below. The
 pinner's own DAG service and the one for its internal objects share a block
 store.
 */
module Pinning {
  import opened Sequences
  import opened Sorting
  import opened Dag
  import opened DagServices
  import opened DiffEnum
  import opened PinSet
  import opened PinTries

  datatype Mode = Recursive | Direct | Indirect | Internal | NotPinned | Any

  /** One answer of the batch check. `via` is the recursive pin that keeps an indirect one. */
  datatype Pinned = Pinned(key: Cid, mode: Mode, via: Option<Cid>)

  /** The answer of the single check. */
  datatype Reason = ByRecursive | ByDirect | ByInternal | Under(root: Cid) | Unpinned

  /** `saved` is the datastore entry that names the persisted pin state. */
  datatype PinState = PinState(
    blocks: set<Cid>,
    recursive: set<Cid>,
    direct: set<Cid>,
    internal: set<Cid>,
    saved: Option<Cid>)

  // ----- What must be kept -----

  ghost predicate IndirectlyPinned(s: PinState, c: Cid) {
    exists r :: r in s.recursive && c in Descendants(r)
  }

  /** The blocks that must not be deleted. */
  ghost predicate MustKeep(s: PinState, c: Cid) {
    c in s.recursive || c in s.direct || c in s.internal || IndirectlyPinned(s, c)
  }

  /** Nothing that must be kept is missing from the store. */
  ghost predicate Safe(s: PinState) {
    forall c :: MustKeep(s, c) ==> c in s.blocks
  }

  // ----- The single check -----

  /** `child` is neither `v` nor below it. */
  ghost predicate Explored(v: Cid, child: Cid) {
    v != child && child !in Descendants(v)
  }

  /** The visited nodes lower than `root` have been searched without finding `child`. */
  ghost predicate ExploredBelow(visited: set<Cid>, root: Cid, child: Cid) {
    forall v :: v in visited && Height(v) < Height(root) ==> Explored(v, child)
  }

  ghost predicate NewExplored(visited: set<Cid>, seen: set<Cid>, child: Cid) {
    forall v :: v in seen && v !in visited ==> Explored(v, child)
  }

  /**
   Depth-first search below `root`, with a visited set shared between calls. A
   visited node is skipped, which is sound because a node lower than `root` cannot
   still be under search.
   */
  method HasChild(ds: DagService, root: Cid, child: Cid, visited: set<Cid>)
    returns (r: Option<bool>, seen: set<Cid>)
    modifies ds
    ensures old(ds.blocks) <= ds.blocks <= old(ds.blocks) + Reach(root)
    ensures visited <= seen
    ensures r == Some(true) ==> child in Descendants(root)
    ensures r == Some(false) && ExploredBelow(visited, root, child) ==>
              child !in Descendants(root) && NewExplored(visited, seen, child)
    ensures old(ds.faults) <= ds.faults && (r.None? ==> old(ds.faults) < ds.faults)
    decreases root, 1
  {
    ghost var sound := ExploredBelow(visited, root, child);
    seen := visited;
    var links := ds.GetLinks(root);
    if links.None? { return None, seen; }
    for i := 0 to |links.value|
      invariant old(ds.blocks) <= ds.blocks <= old(ds.blocks) + Reach(root)
      invariant visited <= seen
      invariant sound ==> NewExplored(visited, seen, child)
      invariant old(ds.faults) <= ds.faults
      invariant sound ==> forall j :: 0 <= j < i ==> Explored(links.value[j], child)
    {
      var has;
      has, seen := SearchLink(ds, root, links.value[i], child, seen);
      if has != Some(false) { return has, seen; }
    }
    if sound {
      NotBelow(root, child);
    }
    r := Some(false);
  }

  /** One link of `root`: the node itself, and what is below it unless it was visited. */
  method SearchLink(ds: DagService, root: Cid, c: Cid, child: Cid, visited: set<Cid>)
    returns (r: Option<bool>, seen: set<Cid>)
    requires c in Links(root)
    modifies ds
    ensures old(ds.blocks) <= ds.blocks <= old(ds.blocks) + Reach(root)
    ensures visited <= seen
    ensures r == Some(true) ==> child in Descendants(root)
    ensures r == Some(false) && ExploredBelow(visited, root, child) ==>
              Explored(c, child) && NewExplored(visited, seen, child)
    ensures old(ds.faults) <= ds.faults && (r.None? ==> old(ds.faults) < ds.faults)
    decreases root, 0
  {
    LinkIsSmaller(root, c);
    LinkIsLower(root, c);
    LinkDescends(root, c);
    seen := visited;
    if c == child {
      return Some(true), seen;
    }
    if c in seen {
      return Some(false), seen;
    }
    r, seen := HasChild(ds, c, child, seen + {c});
  }

  lemma {:induction false} NotBelow(root: Cid, child: Cid)
    requires forall j :: 0 <= j < |Links(root)| ==> Explored(Links(root)[j], child)
    ensures child !in Descendants(root)
  {
    if child in Descendants(root) {
      var l := DescendantViaLink(root, child);
    }
  }

  /** The keys of a set, in some order. */
  method Keys(s: set<Cid>) returns (ks: seq<Cid>)
    ensures NoDuplicates(ks) && forall x :: x in ks <==> x in s
  {
    ks := [];
    var left := s;
    while left != {}
      invariant left <= s && NoDuplicates(ks)
      invariant forall x :: x in ks <==> x in s && x !in left
      decreases left
    {
      var x :| x in left;
      ks := ks + [x];
      left := left - {x};
    }
  }

  /** The answer is right, and the first mode that applies is the one reported. */
  ghost predicate ReasonFits(s: PinState, c: Cid, mode: Mode, reason: Reason) {
    var rec := (mode.Recursive? || mode.Any?) && c in s.recursive;
    var dir := (mode.Direct? || mode.Any?) && c in s.direct;
    var own := (mode.Internal? || mode.Any?) && c in s.internal;
    var ind := (mode.Indirect? || mode.Any?) && IndirectlyPinned(s, c);
    match reason
    case ByRecursive => rec
    case ByDirect => !rec && dir
    case ByInternal => !rec && !dir && own
    case Under(r) => !rec && !dir && !own && ind && r in s.recursive && c in Descendants(r)
    case Unpinned => !rec && !dir && !own && !ind
  }

  // ----- The batch check -----

  function KeysOf(es: seq<Pinned>): seq<Cid> {
    seq(|es|, i requires 0 <= i < |es| => es[i].key)
  }

  ghost predicate EntryFits(s: PinState, e: Pinned) {
    var rec, dir, own := e.key in s.recursive, e.key in s.direct, e.key in s.internal;
    match e.mode
    case Recursive => rec
    case Direct => !rec && dir
    case Internal => !rec && !dir && own
    case Indirect =>
      !rec && !dir && !own && e.via.Some? && e.via.value in s.recursive && e.key in Descendants(e.via.value)
    case NotPinned => !MustKeep(s, e.key)
    case Any => false
  }

  function ModeOf(r: Reason): Mode {
    match r
    case ByRecursive => Recursive
    case ByDirect => Direct
    case ByInternal => Internal
    case Under(_) => Indirect
    case Unpinned => NotPinned
  }

  /** The batch check and the single check give every CID the same mode. */
  lemma {:induction false} BatchAgreesWithSingle(s: PinState, e: Pinned, r: Reason)
    requires EntryFits(s, e) && ReasonFits(s, e.key, Any, r)
    ensures e.mode == ModeOf(r)
  {
  }

  /** One entry for each of `keys`, all kept by `rk`. */
  ghost predicate Found(es: seq<Pinned>, keys: set<Cid>, rk: Cid) {
    && NoDuplicates(KeysOf(es))
    && (forall k :: k in KeysOf(es) <==> k in keys)
    && (forall i :: 0 <= i < |es| ==> es[i].mode == Indirect && es[i].via == Some(rk))
  }

  lemma {:induction false} FoundAppend(es: seq<Pinned>, keys: set<Cid>, fs: seq<Pinned>, more: set<Cid>, rk: Cid)
    requires Found(es, keys, rk) && Found(fs, more, rk) && keys !! more
    ensures Found(es + fs, keys + more, rk)
  {
    KeysOfAppend(es, fs);
    NoDuplicatesAppend(KeysOf(es), KeysOf(fs));
  }

  lemma {:induction false} KeysOfAppend(es: seq<Pinned>, fs: seq<Pinned>)
    ensures KeysOf(es + fs) == KeysOf(es) + KeysOf(fs)
    ensures forall k :: k in KeysOf(es + fs) <==> k in KeysOf(es) || k in KeysOf(fs)
  {
    assert KeysOf(es + fs) == KeysOf(es) + KeysOf(fs);
  }

  lemma {:induction false} FoundFits(s: PinState, rk: Cid, more: seq<Pinned>, keys: set<Cid>)
    requires Found(more, keys, rk) && rk in s.recursive && keys <= Descendants(rk)
    requires forall k :: k in keys ==> k !in s.recursive + s.direct + s.internal
    ensures forall j :: 0 <= j < |more| ==> EntryFits(s, more[j])
  {
    forall j | 0 <= j < |more| ensures EntryFits(s, more[j]) {
      assert KeysOf(more)[j] in KeysOf(more);
    }
  }

  /**
   Moves every pending key below `parent` to the list of found ones. The walk
   stops early once nothing is pending.
   */
  method CheckChildren(ds: DagService, rk: Cid, parent: Cid, toCheck: set<Cid>)
    returns (ok: bool, left: set<Cid>, found: seq<Pinned>)
    modifies ds
    ensures old(ds.blocks) <= ds.blocks <= old(ds.blocks) + Reach(parent)
    ensures ok ==> left == toCheck - Descendants(parent) && Found(found, toCheck - left, rk)
    ensures old(ds.faults) <= ds.faults && (!ok ==> old(ds.faults) < ds.faults)
    decreases parent, 1
  {
    left, found := toCheck, [];
    var links := ds.GetLinks(parent);
    if links.None? { return false, left, found; }
    for i := 0 to |links.value|
      invariant old(ds.blocks) <= ds.blocks <= old(ds.blocks) + Reach(parent)
      invariant old(ds.faults) <= ds.faults
      invariant left <= toCheck
      invariant forall k :: k in toCheck ==> (k in left <==> forall j :: 0 <= j < i ==> k !in Reach(links.value[j]))
      invariant Found(found, toCheck - left, rk)
    {
      ghost var before := left;
      var more;
      ok, left, more := CheckChild(ds, rk, parent, links.value[i], left);
      if !ok { return false, left, found; }
      FoundAppend(found, toCheck - before, more, before - left, rk);
      assert toCheck - left == (toCheck - before) + (before - left);
      found := found + more;
      if left == {} {
        return true, left, found;
      }
    }
    NoneBelow(parent, toCheck, left);
    ok := true;
  }

  /** One link of `parent`: the child itself and everything below it. */
  method CheckChild(ds: DagService, rk: Cid, parent: Cid, c: Cid, toCheck: set<Cid>)
    returns (ok: bool, left: set<Cid>, found: seq<Pinned>)
    requires c in Links(parent)
    modifies ds
    ensures old(ds.blocks) <= ds.blocks <= old(ds.blocks) + Reach(parent)
    ensures ok ==> left == toCheck - Reach(c) && Found(found, toCheck - left, rk)
    ensures old(ds.faults) <= ds.faults && (!ok ==> old(ds.faults) < ds.faults)
    decreases parent, 0
  {
    LinkIsSmaller(parent, c);
    LinkDescends(parent, c);
    left, found := toCheck, [];
    if c in left {
      found := [Pinned(c, Indirect, Some(rk))];
      assert KeysOf(found) == [c];
      left := left - {c};
    }
    assert Found(found, toCheck - left, rk);
    ghost var mid := left;
    var more;
    ok, left, more := CheckChildren(ds, rk, c, left);
    if !ok { return false, left, found; }
    FoundAppend(found, toCheck - mid, more, mid - left, rk);
    assert toCheck - left == (toCheck - mid) + (mid - left);
    found := found + more;
  }

  lemma {:induction false} NoneBelow(parent: Cid, keys: set<Cid>, left: set<Cid>)
    requires left <= keys
    requires forall k :: k in keys ==>
               (k in left <==> forall j :: 0 <= j < |Links(parent)| ==> k !in Reach(Links(parent)[j]))
    ensures left == keys - Descendants(parent)
  {
    forall k | k in keys ensures k in left <==> k !in Descendants(parent) {
      if k in Descendants(parent) {
        var l := DescendantViaLink(parent, k);
        var j :| 0 <= j < |Links(parent)| && Links(parent)[j] == l;
      } else {
        forall j | 0 <= j < |Links(parent)| ensures k !in Reach(Links(parent)[j]) {
          LinkDescends(parent, Links(parent)[j]);
        }
      }
    }
  }

  // ----- Persisted state -----

  const LINK_DIRECT := "direct"
  const LINK_RECURSIVE := "recursive"

  datatype Snapshot = Snapshot(recursive: set<Cid>, direct: set<Cid>, internal: set<Cid>)

  function ToSet(cs: seq<Cid>): set<Cid> {
    set c | c in cs
  }

  /** What `LoadPinner` reads from the pin root `k`; None is an error. */
  function LoadState(k: Cid, store: set<Cid>): Option<Snapshot> {
    if k !in store || k.block.RawNode? then None
    else
      match (LoadFrom(k.block, LINK_RECURSIVE, store), LoadFrom(k.block, LINK_DIRECT, store))
      case (Some(r), Some(d)) => Some(Snapshot(ToSet(r.items), ToSet(d.items), {k} + r.keys + d.keys))
      case (_, _) => None
  }

  /** The saved state reads back as the current pins. */
  ghost predicate Persisted(s: PinState) {
    s.saved.Some? && LoadState(s.saved.value, s.blocks) == Some(Snapshot(s.recursive, s.direct, s.internal))
  }

  /** Reading the saved state needs its own internal keys and nothing else. */
  lemma {:induction false} LoadStateNeedsItsKeys(k: Cid, store: set<Cid>, other: set<Cid>)
    requires LoadState(k, store).Some? && LoadState(k, store).value.internal <= other
    ensures LoadState(k, other) == LoadState(k, store)
  {
    LoadFromNeedsItsKeys(k.block, LINK_RECURSIVE, store, other);
    LoadFromNeedsItsKeys(k.block, LINK_DIRECT, store, other);
  }

  lemma {:induction false} LoadFromNeedsItsKeys(root: Node, name: string, store: set<Cid>, other: set<Cid>)
    requires LoadFrom(root, name, store).Some? && LoadFrom(root, name, store).value.keys <= other
    ensures LoadFrom(root, name, other) == LoadFrom(root, name, store)
  {
    var c := FindLink(NodeLinks(root), name).value.cid;
    WalkNeedsItsKeys(c.block, store, other);
  }

  function PinRoot(direct: Cid, recursive: Cid): Node {
    ProtoNode([], [Link(LINK_DIRECT, direct), Link(LINK_RECURSIVE, recursive)])
  }

  /** The root's two links are already in name order, so encoding keeps them. */
  lemma {:induction false} PinRootLinks(direct: Cid, recursive: Cid)
    ensures CidOf(PinRoot(direct, recursive)) == Cid(PinRoot(direct, recursive))
    ensures FindLink(PinRoot(direct, recursive).links, LINK_DIRECT) == Some(Link(LINK_DIRECT, direct))
    ensures FindLink(PinRoot(direct, recursive).links, LINK_RECURSIVE) == Some(Link(LINK_RECURSIVE, recursive))
  {
    var ls := PinRoot(direct, recursive).links;
    assert StrLe(LINK_DIRECT, LINK_RECURSIVE);
    SortedIsFixed(ls, LinkName);
    assert ls[1..][0] == Link(LINK_RECURSIVE, recursive);
  }

  lemma {:induction false} SameItems(xs: seq<Cid>, ys: seq<Cid>, s: set<Cid>)
    requires multiset(xs) == multiset(ys)
    requires forall y :: y in ys <==> y in s
    ensures ToSet(xs) == s
  {
    forall x ensures x in xs <==> x in ys {
      assert x in multiset(xs) <==> x in multiset(ys);
    }
  }

  /** Two stored sets, their root and the empty node together are a persisted pin state. */
  lemma {:induction false} FlushedState(
      dn: Node, ds: seq<Cid>, dkeys: set<Cid>, rn: Node, rs: seq<Cid>, rkeys: set<Cid>,
      direct: set<Cid>, recursive: set<Cid>, store: set<Cid>)
    requires SetInStore(dn, ds, dkeys, store) && SetInStore(rn, rs, rkeys, store)
    requires EMPTY_KEY in store && CidOf(PinRoot(CidOf(dn), CidOf(rn))) in store
    requires forall x :: x in ds <==> x in direct
    requires forall x :: x in rs <==> x in recursive
    ensures var k := CidOf(PinRoot(CidOf(dn), CidOf(rn)));
            && LoadState(k, store) == Some(Snapshot(recursive, direct, {k} + rkeys + dkeys))
            && {k} + rkeys + dkeys <= store
  {
    var root := PinRoot(CidOf(dn), CidOf(rn));
    PinRootLinks(CidOf(dn), CidOf(rn));
    SetStays(dn, ds, dkeys, store, store);
    SetStays(rn, rs, rkeys, store, store);
    PinSetRoundTrip(dn, ds, dkeys, root, LINK_DIRECT, store, store);
    PinSetRoundTrip(rn, rs, rkeys, root, LINK_RECURSIVE, store, store);
    SameItems(LoadFrom(root, LINK_DIRECT, store).value.items, ds, direct);
    SameItems(LoadFrom(root, LINK_RECURSIVE, store).value.items, rs, recursive);
  }

  /** The root of the pin state that consists of the tries of the two sets. */
  ghost predicate IsPinRoot(h: Hashing, k: Cid, recursive: set<Cid>, direct: set<Cid>) {
    exists dn, rn ::
      k == CidOf(PinRoot(CidOf(dn), CidOf(rn))) && IsSetTrie(h, dn, direct) && IsSetTrie(h, rn, recursive)
  }

  /** The saved root depends on the pins alone, not on the order in which they are listed. */
  lemma {:induction false} PinRootIsCanonical(h: Hashing, k: Cid, l: Cid, recursive: set<Cid>, direct: set<Cid>)
    requires Injective(h) && IsPinRoot(h, k, recursive, direct) && IsPinRoot(h, l, recursive, direct)
    ensures k == l
  {
    var dn, rn :|
      k == CidOf(PinRoot(CidOf(dn), CidOf(rn))) && IsSetTrie(h, dn, direct) && IsSetTrie(h, rn, recursive);
    var dm, rm :|
      l == CidOf(PinRoot(CidOf(dm), CidOf(rm))) && IsSetTrie(h, dm, direct) && IsSetTrie(h, rm, recursive);
    SetTrieIsUnique(h, dn, dm, direct);
    SetTrieIsUnique(h, rn, rm, recursive);
  }

  // ----- Steps and runs -----

  /** One call and whether it returned without an error. */
  datatype Op =
    | OpPin(c: Cid, recurse: bool, ok: bool)
    | OpUnpin(c: Cid, recursive: bool, ok: bool)
    | OpUpdate(from: Cid, dest: Cid, unpin: bool, ok: bool)
    | OpFlush(ok: bool)
    | OpRmBlocks(asked: set<Cid>)

  ghost predicate PinStep(s: PinState, op: Op, s': PinState) {
    match op
    case OpPin(c, true, ok) =>
      && s.blocks <= s'.blocks && s'.internal == s.internal && s'.saved == s.saved
      && (if ok && c !in s.recursive then
            s'.recursive == s.recursive + {c} && s'.direct == s.direct - {c} && Complete(c, s'.blocks)
          else if ok then
            s'.recursive == s.recursive && s'.direct == s.direct
          else
            s'.recursive == s.recursive && (s'.direct == s.direct || s'.direct == s.direct - {c}))
    case OpPin(c, false, ok) =>
      && s.blocks <= s'.blocks && s'.(blocks := s.blocks, direct := s.direct) == s
      && (if ok then c !in s.recursive && s'.direct == s.direct + {c} && c in s'.blocks else s'.direct == s.direct)
    case OpUnpin(c, recursive, ok) =>
      && s.blocks <= s'.blocks && s'.internal == s.internal && s'.saved == s.saved
      && (if !ok then s'.recursive == s.recursive && s'.direct == s.direct
          else if c in s.recursive then
            recursive && s'.recursive == s.recursive - {c} && s'.direct == s.direct
          else
            c in s.direct && s'.recursive == s.recursive && s'.direct == s.direct - {c})
    case OpUpdate(from, dest, unpin, ok) =>
      && s.blocks <= s'.blocks && s'.(blocks := s.blocks, recursive := s.recursive) == s
      && (if !ok then s'.recursive == s.recursive
          else
            && from in s.recursive
            && s'.recursive == s.recursive + {dest} - (if unpin then {from} else {})
            && (Complete(from, s.blocks) ==> Complete(dest, s'.blocks)))
    case OpFlush(ok) =>
      && s.blocks <= s'.blocks && s'.recursive == s.recursive && s'.direct == s.direct
      && (if ok then Persisted(s') && s'.internal <= s'.blocks
          else s'.internal == s.internal && s'.saved == s.saved)
    case OpRmBlocks(asked) =>
      && s'.(blocks := s.blocks) == s
      && (forall c :: c in s.blocks && c !in s'.blocks ==> c in asked && !MustKeep(s, c))
  }

  lemma {:induction false} FlushStep(s: PinState, blocks: set<Cid>, k: Cid, keys: set<Cid>)
    requires s.blocks <= blocks && keys <= blocks
    requires LoadState(k, blocks) == Some(Snapshot(s.recursive, s.direct, keys))
    ensures PinStep(s, OpFlush(true), PinState(blocks, s.recursive, s.direct, keys, Some(k)))
  {
  }

  /** A call sequence and the states in between. */
  ghost predicate Run(states: seq<PinState>, ops: seq<Op>) {
    && |states| == |ops| + 1
    && (forall i :: 0 <= i < |ops| ==> PinStep(states[i], ops[i], states[i + 1]))
  }

  lemma {:induction false} StepKeepsSafe(s: PinState, op: Op, s': PinState)
    requires Safe(s) && PinStep(s, op, s')
    ensures Safe(s')
  {
    forall c | MustKeep(s', c) ensures c in s'.blocks {
      if MustKeep(s, c) { assert c in s.blocks; }
    }
  }

  /**
   Pin safety over whole runs: starting from a new pinner, after any sequence of
   calls, successful or not, every block reachable from a recursive pin, every
   direct pin and every internal pin is in the local store.
   */
  lemma {:induction false} PinSafety(states: seq<PinState>, ops: seq<Op>, i: nat)
    requires Run(states, ops) && i < |states|
    requires states[0].recursive == {} && states[0].direct == {} && states[0].internal == {}
    ensures Safe(states[i])
  {
    if i == 0 {
    } else {
      PinSafety(states, ops, i - 1);
      StepKeepsSafe(states[i - 1], ops[i - 1], states[i]);
    }
  }

  /**
   Durable pin state: after a flush, following any further calls except another
   successful flush, loading still gives exactly the recursive, direct and internal
   sets of that flush.
   */
  lemma {:induction false} PinsAreDurable(states: seq<PinState>, ops: seq<Op>, i: nat)
    requires Run(states, ops) && i < |states|
    requires Safe(states[0]) && Persisted(states[0])
    requires forall j :: 0 <= j < |ops| ==> ops[j] != OpFlush(true)
    ensures Safe(states[i]) && states[i].saved == states[0].saved && states[i].internal == states[0].internal
    ensures LoadState(states[i].saved.value, states[i].blocks)
         == Some(Snapshot(states[0].recursive, states[0].direct, states[0].internal))
  {
    if i == 0 {
    } else {
      PinsAreDurable(states, ops, i - 1);
      StepKeepsSafe(states[i - 1], ops[i - 1], states[i]);
      assert ops[i - 1] != OpFlush(true);
      forall c | c in states[i].internal ensures c in states[i].blocks {
        assert MustKeep(states[i], c);
      }
      LoadStateNeedsItsKeys(states[i].saved.value, states[i - 1].blocks, states[i].blocks);
    }
  }

  /**
   The two together, for a whole life of a pinner: whatever was called before and after its
   last successful flush, the pins of that flush can be loaded again.
   */
  lemma {:induction false} FlushedPinsReload(states: seq<PinState>, ops: seq<Op>, f: nat, i: nat)
    requires Run(states, ops) && f < i < |states|
    requires states[0].recursive == {} && states[0].direct == {} && states[0].internal == {}
    requires ops[f] == OpFlush(true) && forall j :: f < j < i ==> ops[j] != OpFlush(true)
    ensures Safe(states[i]) && states[i].saved.Some?
    ensures LoadState(states[i].saved.value, states[i].blocks)
         == Some(Snapshot(states[f].recursive, states[f].direct, states[f + 1].internal))
  {
    PinSafety(states, ops, f + 1);
    assert PinStep(states[f], ops[f], states[f + 1]);
    RunAfter(states, ops, f + 1, i);
    var after, calls := states[f + 1..i + 1], ops[f + 1..i];
    assert after[0] == states[f + 1] && after[i - f - 1] == states[i];
    PinsAreDurable(after, calls, i - f - 1);
  }

  lemma {:induction false} RunAfter(states: seq<PinState>, ops: seq<Op>, i: nat, k: nat)
    requires Run(states, ops) && i <= k < |states|
    ensures Run(states[i..k + 1], ops[i..k])
  {
    forall j | 0 <= j < k - i ensures PinStep(states[i..k + 1][j], ops[i..k][j], states[i..k + 1][j + 1]) {
      assert PinStep(states[i + j], ops[i + j], states[i + j + 1]);
    }
  }

  // ----- Is a loaded pinner safe? -----

  /** The state after a crash: the store as it is, and the pins of the last flush, in state `flushed`. */
  function Reloaded(flushed: PinState, s: PinState): PinState {
    s.(recursive := flushed.recursive, direct := flushed.direct, internal := flushed.internal)
  }

  /** Call `j` removed no block that the pins of the last flush need. */
  ghost predicate RemovesNoFlushed(states: seq<PinState>, j: nat)
    requires j + 1 < |states|
  {
    forall c :: c in states[j].blocks && c !in states[j + 1].blocks ==> !MustKeep(states[0], c)
  }

  /** A pinner loaded at any time after a flush is safe exactly when no call removed a block its pins need. */
  lemma {:induction false} ReloadSafeIff(states: seq<PinState>, ops: seq<Op>)
    requires Run(states, ops) && Safe(states[0])
    ensures (forall i :: 0 <= i < |states| ==> Safe(Reloaded(states[0], states[i])))
            <==> (forall j :: 0 <= j < |ops| ==> RemovesNoFlushed(states, j))
  {
    if forall j :: 0 <= j < |ops| ==> RemovesNoFlushed(states, j) {
      forall i | 0 <= i < |states| ensures Safe(Reloaded(states[0], states[i])) {
        ReloadSafe(states, i);
      }
    } else {
      var j :| 0 <= j < |ops| && !RemovesNoFlushed(states, j);
      var c :| c in states[j].blocks && c !in states[j + 1].blocks && MustKeep(states[0], c);
      assert MustKeep(Reloaded(states[0], states[j + 1]), c);
    }
  }

  lemma {:induction false} ReloadSafe(states: seq<PinState>, i: nat)
    requires i < |states| && Safe(states[0]) && forall j :: 0 <= j < |states| - 1 ==> RemovesNoFlushed(states, j)
    ensures Safe(Reloaded(states[0], states[i]))
  {
    if i == 0 {
    } else {
      ReloadSafe(states, i - 1);
      assert RemovesNoFlushed(states, i - 1);
      forall c | MustKeep(Reloaded(states[0], states[i]), c) ensures c in states[i].blocks {
        assert MustKeep(states[0], c) && MustKeep(Reloaded(states[0], states[i - 1]), c);
      }
    }
  }

  /** Calls after which a pin may be gone; a failed recursive pin may have dropped a direct one. */
  predicate MayUnpin(op: Op) {
    (op.OpUnpin? && op.ok) || (op.OpUpdate? && op.unpin && op.ok) || (op.OpPin? && op.recurse && !op.ok)
  }

  /** It is safe when blocks are removed only before the first such call. */
  lemma {:induction false} RemovalsFirstReloadSafe(states: seq<PinState>, ops: seq<Op>, i: nat)
    requires Run(states, ops) && Safe(states[0]) && i < |states|
    requires forall j :: 0 <= j < |ops| ==> ops[j] != OpFlush(true)
    requires forall j, k :: 0 <= j < k < |ops| && MayUnpin(ops[j]) ==> !ops[k].OpRmBlocks?
    ensures Safe(Reloaded(states[0], states[i]))
  {
    forall j | 0 <= j < |ops| ensures RemovesNoFlushed(states, j) {
      assert PinStep(states[j], ops[j], states[j + 1]);
      if ops[j].OpRmBlocks? {
        forall c | MustKeep(states[0], c) ensures MustKeep(states[j], c) {
          StillKept(states, ops, j, c);
        }
      }
    }
    ReloadSafe(states, i);
  }

  lemma {:induction false} StillKept(states: seq<PinState>, ops: seq<Op>, i: nat, c: Cid)
    requires Run(states, ops) && i <= |ops| && MustKeep(states[0], c)
    requires forall j :: 0 <= j < i ==> !MayUnpin(ops[j]) && ops[j] != OpFlush(true)
    ensures MustKeep(states[i], c)
  {
    if i == 0 {
    } else {
      StillKept(states, ops, i - 1, c);
      assert PinStep(states[i - 1], ops[i - 1], states[i]);
      assert !MayUnpin(ops[i - 1]);
    }
  }

  /**
   Otherwise it need not be: whenever only the recursive pin `r` keeps the block `r`, it can
   be unpinned and removed after the flush. Loading then gives a pin whose block is gone.
   */
  lemma {:induction false} ReloadCanBeUnsafe(s: PinState, r: Cid)
    requires Safe(s) && Persisted(s) && r in s.recursive && !MustKeep(s.(recursive := s.recursive - {r}), r)
    ensures var s1 := s.(recursive := s.recursive - {r});
            var s2 := s1.(blocks := s.blocks - {r});
            && Run([s, s1, s2], [OpUnpin(r, true, true), OpRmBlocks({r})])
            && LoadState(s2.saved.value, s2.blocks) == Some(Snapshot(s.recursive, s.direct, s.internal))
            && !Safe(Reloaded(s, s2))
  {
    var s1 := s.(recursive := s.recursive - {r});
    var s2 := s1.(blocks := s.blocks - {r});
    var states, ops := [s, s1, s2], [OpUnpin(r, true, true), OpRmBlocks({r})];
    assert PinStep(states[0], ops[0], states[1]) && PinStep(states[1], ops[1], states[2]);
    PinsAreDurable(states, ops, 2);
    assert MustKeep(Reloaded(s, s2), r);
  }

  // ----- The pinner object -----

  class Pinner {
    const dserv: DagService
    const hashing: Hashing
    var recursePin: set<Cid>
    var directPin: set<Cid>
    var internalPin: set<Cid>
    var saved: Option<Cid>
    // How many writes to the datastore that names the saved root have failed.
    ghost var dstoreFaults: nat

    ghost function State(): PinState
      reads this, dserv
    {
      PinState(dserv.blocks, recursePin, directPin, internalPin, saved)
    }

    /** NewPinner: no pins; whatever was saved before is still there. */
    constructor (dserv: DagService, hashing: Hashing, saved: Option<Cid>)
      ensures State() == PinState(dserv.blocks, {}, {}, {}, saved)
      ensures this.dserv == dserv && this.hashing == hashing
    {
      this.dserv, this.hashing, this.saved := dserv, hashing, saved;
      recursePin, directPin, internalPin := {}, {}, {};
    }

    /** The pins of the CID itself give the answer. */
    predicate NeedsNoWalk(c: Cid, mode: Mode)
      reads this
    {
      || mode == Recursive || mode == Direct || mode == Internal
      || (mode == Any && (c in recursePin || c in directPin || c in internalPin))
    }

    /** None is an error: an invalid mode, or a block that could not be read. */
    method IsPinnedWithType(c: Cid, mode: Mode) returns (r: Option<Reason>)
      modifies dserv
      ensures old(dserv.blocks) <= dserv.blocks
      ensures r.Some? ==> mode != NotPinned && ReasonFits(old(State()), c, mode, r.value)
      ensures NeedsNoWalk(c, mode) ==> r.Some?
      ensures old(dserv.faults) <= dserv.faults && (r.None? && mode != NotPinned ==> old(dserv.faults) < dserv.faults)
    {
      if mode == NotPinned { return None; }
      if (mode == Recursive || mode == Any) && c in recursePin { return Some(ByRecursive); }
      if mode == Recursive { return Some(Unpinned); }
      if (mode == Direct || mode == Any) && c in directPin { return Some(ByDirect); }
      if mode == Direct { return Some(Unpinned); }
      if (mode == Internal || mode == Any) && c in internalPin { return Some(ByInternal); }
      if mode == Internal { return Some(Unpinned); }
      var visited: set<Cid> := {};
      var roots := Keys(recursePin);
      for i := 0 to |roots|
        invariant old(dserv.blocks) <= dserv.blocks
        invariant forall v :: v in visited ==> Explored(v, c)
        invariant old(dserv.faults) <= dserv.faults
        invariant forall j :: 0 <= j < i ==> c !in Descendants(roots[j])
      {
        var has;
        has, visited := HasChild(dserv, roots[i], c, visited);
        if has.None? { return None; }
        if has.value {
          assert IndirectlyPinned(old(State()), c);
          return Some(Under(roots[i]));
        }
      }
      r := Some(Unpinned);
    }

    /** The first loop of the batch check: pins that need no walk. */
    method CheckDirectly(cids: seq<Cid>) returns (pinned: seq<Pinned>, toCheck: set<Cid>)
      ensures forall i :: 0 <= i < |pinned| ==> EntryFits(State(), pinned[i])
      ensures forall k :: k in cids <==> k in KeysOf(pinned) || k in toCheck
      ensures forall k :: k in toCheck ==> k !in recursePin + directPin + internalPin
      ensures forall k :: k in KeysOf(pinned) ==> k in recursePin + directPin + internalPin
      ensures NoDuplicates(cids) ==> NoDuplicates(KeysOf(pinned))
    {
      pinned, toCheck := [], {};
      for i := 0 to |cids|
        invariant forall j :: 0 <= j < |pinned| ==> EntryFits(State(), pinned[j])
        invariant forall k :: k in cids[..i] <==> k in KeysOf(pinned) || k in toCheck
        invariant forall k :: k in toCheck ==> k !in recursePin + directPin + internalPin
        invariant forall k :: k in KeysOf(pinned) ==> k in recursePin + directPin + internalPin
        invariant NoDuplicates(cids) ==> NoDuplicates(KeysOf(pinned))
      {
        var c := cids[i];
        assert cids[..i + 1] == cids[..i] + [c];
        var mode := if c in recursePin then Recursive else if c in directPin then Direct
                    else if c in internalPin then Internal else NotPinned;
        if mode == NotPinned {
          toCheck := toCheck + {c};
        } else {
          var e := Pinned(c, mode, None);
          KeysOfAppend(pinned, [e]);
          assert KeysOf([e]) == [c];
          if NoDuplicates(cids) {
            assert c !in cids[..i];
            NoDuplicatesAppend(KeysOf(pinned), [c]);
          }
          pinned := pinned + [e];
        }
      }
      assert cids[..|cids|] == cids;
    }

    /** The second part: walks the recursive pins until nothing is pending. */
    method CheckIndirect(toCheck: set<Cid>) returns (ok: bool, found: seq<Pinned>, left: set<Cid>)
      requires forall k :: k in toCheck ==> k !in recursePin + directPin + internalPin
      modifies dserv
      ensures old(dserv.blocks) <= dserv.blocks
      ensures ok ==> left <= toCheck && (forall k :: k in left ==> !MustKeep(old(State()), k))
      ensures ok ==> forall i :: 0 <= i < |found| ==> EntryFits(old(State()), found[i])
      ensures ok ==> NoDuplicates(KeysOf(found)) && forall k :: k in KeysOf(found) <==> k in toCheck - left
      ensures old(dserv.faults) <= dserv.faults && (!ok ==> old(dserv.faults) < dserv.faults)
    {
      left, found := toCheck, [];
      var roots := Keys(recursePin);
      for i := 0 to |roots|
        invariant old(dserv.blocks) <= dserv.blocks
        invariant left <= toCheck
        invariant forall k, j :: k in left && 0 <= j < i ==> k !in Descendants(roots[j])
        invariant old(dserv.faults) <= dserv.faults
        invariant forall j :: 0 <= j < |found| ==> EntryFits(old(State()), found[j])
        invariant NoDuplicates(KeysOf(found)) && forall k :: k in KeysOf(found) <==> k in toCheck - left
      {
        ghost var before := left;
        var more;
        ok, left, more := CheckChildren(dserv, roots[i], roots[i], left);
        if !ok { return false, [], left; }
        KeysOfAppend(found, more);
        NoDuplicatesAppend(KeysOf(found), KeysOf(more));
        FoundFits(old(State()), roots[i], more, before - left);
        found := found + more;
        if left == {} {
          return true, found, left;
        }
      }
      ok := true;
    }

    /**
     One entry for each input, with the right mode. None is an error.
     */
    method CheckIfPinned(cids: seq<Cid>) returns (r: Option<seq<Pinned>>)
      modifies dserv
      ensures old(dserv.blocks) <= dserv.blocks
      ensures r.Some? ==> forall i :: 0 <= i < |r.value| ==> EntryFits(old(State()), r.value[i])
      ensures r.Some? ==> forall k :: k in cids <==> k in KeysOf(r.value)
      ensures r.Some? && NoDuplicates(cids) ==> NoDuplicates(KeysOf(r.value))
      ensures old(dserv.faults) <= dserv.faults && (r.None? ==> old(dserv.faults) < dserv.faults)
    {
      var pinned, toCheck := CheckDirectly(cids);
      var ok, found, left := CheckIndirect(toCheck);
      if !ok { return None; }
      KeysOfAppend(pinned, found);
      if NoDuplicates(cids) { NoDuplicatesAppend(KeysOf(pinned), KeysOf(found)); }
      var res := pinned + found;
      var rest := Keys(left);
      for i := 0 to |rest|
        invariant old(dserv.blocks) <= dserv.blocks && old(dserv.faults) <= dserv.faults
        invariant forall j :: 0 <= j < |res| ==> EntryFits(old(State()), res[j])
        invariant forall k :: k in KeysOf(res) <==> k in KeysOf(pinned) || k in KeysOf(found) || k in rest[..i]
        invariant NoDuplicates(cids) ==> NoDuplicates(KeysOf(res))
      {
        var e := Pinned(rest[i], NotPinned, None);
        KeysOfAppend(res, [e]);
        assert KeysOf([e]) == [rest[i]] && rest[..i + 1] == rest[..i] + [rest[i]];
        assert rest[i] in left;
        if NoDuplicates(cids) { NoDuplicatesAppend(KeysOf(res), [rest[i]]); }
        res := res + [e];
      }
      assert rest[..|rest|] == rest;
      r := Some(res);
    }

    method Pin(n: Node, recurse: bool) returns (ok: bool)
      modifies this, dserv
      ensures PinStep(old(State()), OpPin(CidOf(n), recurse, ok), State())
      ensures old(dserv.faults) <= dserv.faults
      ensures !ok ==> old(dserv.faults) < dserv.faults || (!recurse && CidOf(n) in recursePin)
    {
      ok := dserv.Add(n);
      if !ok { return; }
      var c := CidOf(n);
      if recurse {
        if c in recursePin { return true; }
        if c in directPin { directPin := directPin - {c}; }
        ok := FetchGraph(dserv, c);
        if !ok { return false; }
        recursePin := recursePin + {c};
      } else {
        var got := dserv.Get(c);
        if got.None? { return false; }
        if c in recursePin { return false; }
        directPin := directPin + {c};
      }
      ok := true;
    }

    method Unpin(c: Cid, recursive: bool) returns (ok: bool)
      modifies this, dserv
      ensures PinStep(old(State()), OpUnpin(c, recursive, ok), State())
      ensures ok <==> if c in old(recursePin) then recursive else c in old(directPin)
    {
      var reason := IsPinnedWithType(c, Any);
      if reason.None? { return false; }
      match reason.value {
        case ByRecursive =>
          if recursive {
            recursePin := recursePin - {c};
            return true;
          }
          return false;
        case ByDirect =>
          directPin := directPin - {c};
          return true;
        case _ =>
          return false;
      }
    }

    method Update(from: Cid, dest: Cid, unpin: bool) returns (ok: bool)
      modifies this, dserv
      ensures PinStep(old(State()), OpUpdate(from, dest, unpin, ok), State())
      ensures old(dserv.faults) <= dserv.faults && (!ok && from in old(recursePin) ==> old(dserv.faults) < dserv.faults)
    {
      if from !in recursePin { return false; }
      ok := DiffEnumerate(dserv, from, dest);
      if !ok { return; }
      recursePin := recursePin + {dest};
      if unpin { recursePin := recursePin - {from}; }
    }

    /** Deletes the blocks asked for, except those that are pinned. */
    method RmBlocks(cids: seq<Cid>) returns (removed: seq<Cid>)
      modifies dserv
      ensures PinStep(old(State()), OpRmBlocks(ToSet(cids)), State())
      ensures forall c :: c in removed ==> c in cids && !MustKeep(old(State()), c) && c !in dserv.blocks
      ensures forall c :: c in old(dserv.blocks) && c !in dserv.blocks ==> c in removed
      ensures dserv.faults == old(dserv.faults) ==>
                forall c :: c in cids && !MustKeep(old(State()), c) ==> c !in dserv.blocks
    {
      removed := [];
      var stillOkay := FilterPinned(cids);
      ghost var before, faults := dserv.blocks, dserv.faults;
      for i := 0 to |stillOkay|
        invariant dserv.blocks <= before
        invariant forall c :: c in before && c !in dserv.blocks ==> c in removed
        invariant forall c :: c in removed ==> c in stillOkay && c !in dserv.blocks
        invariant faults <= dserv.faults
        invariant dserv.faults == faults ==> forall j :: 0 <= j < i ==> stillOkay[j] !in dserv.blocks
      {
        var ok := dserv.Delete(stillOkay[i]);
        if ok { removed := removed + [stillOkay[i]]; }
      }
    }

    /** The inputs that are not pinned; none at all when the check fails. */
    method FilterPinned(cids: seq<Cid>) returns (stillOkay: seq<Cid>)
      modifies dserv
      ensures old(dserv.blocks) <= dserv.blocks
      ensures forall c :: c in stillOkay ==> c in cids && !MustKeep(old(State()), c)
      ensures stillOkay == [] || forall c :: c in cids && !MustKeep(old(State()), c) ==> c in stillOkay
      ensures old(dserv.faults) <= dserv.faults
      ensures dserv.faults == old(dserv.faults) ==>
                forall c :: c in cids && !MustKeep(old(State()), c) ==> c in stillOkay
    {
      stillOkay := [];
      var res := CheckIfPinned(cids);
      if res.None? { return; }
      for i := 0 to |res.value|
        invariant forall c :: c in stillOkay ==> c in cids && !MustKeep(old(State()), c)
        invariant forall j :: 0 <= j < i && !MustKeep(old(State()), res.value[j].key) ==> res.value[j].key in stillOkay
      {
        assert res.value[i].key == KeysOf(res.value)[i];
        assert EntryFits(old(State()), res.value[i]);
        if res.value[i].mode == NotPinned {
          stillOkay := stillOkay + [res.value[i].key];
        }
      }
      forall c | c in cids && !MustKeep(old(State()), c) ensures c in stillOkay {
        assert c in KeysOf(res.value);
      }
    }

    /**
     Writes both pin sets, the empty node and a root for them, then names the root
     in the datastore. The hash must split the sets for the call to end.
     */
    method Flush() returns (ok: bool)
      requires exists levels :: SetSplits(hashing, directPin, levels)
      requires exists levels :: SetSplits(hashing, recursePin, levels)
      modifies this, dserv
      ensures PinStep(old(State()), OpFlush(ok), State())
      ensures ok ==> IsPinRoot(hashing, saved.value, recursePin, directPin)
      ensures !ok ==> old(dserv.faults) < dserv.faults || old(dstoreFaults) < dstoreFaults
    {
      var written := WriteSets();
      if written.None? { return false; }
      FlushStep(old(State()), dserv.blocks, written.value.0, written.value.1);
      ok := Save(written.value.0, written.value.1);
    }

    /** Names the root in the datastore; the keys of the new state become the internal pins. */
    method Save(k: Cid, keys: set<Cid>) returns (ok: bool)
      modifies this`saved, this`internalPin, this`dstoreFaults
      ensures ok ==> State() == old(State()).(saved := Some(k), internal := keys)
      ensures !ok ==> State() == old(State()) && old(dstoreFaults) < dstoreFaults
    {
      ok := *;
      if ok {
        saved, internalPin := Some(k), keys;
      } else {
        dstoreFaults := dstoreFaults + 1;
      }
    }

    /** Stores everything that the new pin state consists of; the result is its root and all its keys. */
    method WriteSets() returns (r: Option<(Cid, set<Cid>)>)
      requires exists levels :: SetSplits(hashing, directPin, levels)
      requires exists levels :: SetSplits(hashing, recursePin, levels)
      modifies dserv
      ensures old(dserv.blocks) <= dserv.blocks
      ensures r.Some? ==>
                && LoadState(r.value.0, dserv.blocks) == Some(Snapshot(recursePin, directPin, r.value.1))
                && r.value.1 <= dserv.blocks
                && IsPinRoot(hashing, r.value.0, recursePin, directPin)
      ensures old(dserv.faults) <= dserv.faults && (r.None? ==> old(dserv.faults) < dserv.faults)
    {
      var dn, dkeys, ds := StoreKeys(directPin);
      if dn.None? { return None; }
      ghost var store := dserv.blocks;
      var rn, rkeys, rs := StoreKeys(recursePin);
      if rn.None? { return None; }
      ghost var store' := dserv.blocks;
      var ok := dserv.Add(ProtoNode([], []));
      if !ok { return None; }
      var root := PinRoot(CidOf(dn.value), CidOf(rn.value));
      ok := dserv.Add(root);
      if !ok { return None; }
      SetStays(dn.value, ds, dkeys, store, dserv.blocks);
      SetStays(rn.value, rs, rkeys, store', dserv.blocks);
      FlushedState(dn.value, ds, dkeys, rn.value, rs, rkeys, directPin, recursePin, dserv.blocks);
      r := Some((CidOf(root), {CidOf(root)} + rkeys + dkeys));
    }

    /** Stores one of the pin sets, with its keys in some order. */
    method StoreKeys(s: set<Cid>) returns (r: Option<Node>, keys: set<Cid>, ghost ks: seq<Cid>)
      requires exists levels :: SetSplits(hashing, s, levels)
      modifies dserv
      ensures old(dserv.blocks) <= dserv.blocks && forall x :: x in ks <==> x in s
      ensures r.Some? ==> SetInStore(r.value, ks, keys, dserv.blocks) && IsSetTrie(hashing, r.value, s)
      ensures old(dserv.faults) <= dserv.faults && (r.None? ==> old(dserv.faults) < dserv.faults)
    {
      ghost var levels :| SetSplits(hashing, s, levels);
      var listed := Keys(s);
      ks := listed;
      SetTerminates(hashing, s, ks, levels);
      r, keys := StoreSet(dserv, hashing, listed, levels);
    }
  }

  /** Reads the saved pin state. Null is an error: nothing saved, or a part is missing or malformed. */
  method LoadPinner(saved: Option<Cid>, dserv: DagService, hashing: Hashing) returns (p: Pinner?)
    ensures p == null <==> saved.None? || LoadState(saved.value, dserv.blocks).None?
    ensures p != null ==>
              && fresh(p) && p.dserv == dserv && p.saved == saved
              && LoadState(saved.value, dserv.blocks) == Some(Snapshot(p.recursePin, p.directPin, p.internalPin))
  {
    if saved.None? || saved.value !in dserv.blocks || saved.value.block.RawNode? { return null; }
    var root := saved.value;
    var recurse := LoadSet(dserv, root.block, LINK_RECURSIVE);
    if recurse.None? { return null; }
    var direct := LoadSet(dserv, root.block, LINK_DIRECT);
    if direct.None? { return null; }
    p := new Pinner(dserv, hashing, saved);
    p.recursePin := ToSet(recurse.value.items);
    p.directPin := ToSet(direct.value.items);
    p.internalPin := {root} + recurse.value.keys + direct.value.keys;
  }
}
