/**
 The persisted pin set: a list of CIDs kept in DAG nodes as a 256-way hash trie.

 `storeItems` writes the trie and `walkItems` reads it back. The hash that picks
 a bucket and the bytes that order the items of a leaf are arbitrary functions.
 */
module PinSet {
  import opened Sequences
  import opened Sorting
  import opened Dag
  import opened DagServices

  const FANOUT := 256
  const MAX_ITEMS := 8192
  const UINT32 := 0x1_0000_0000
  const UINT64 := 0x1_0000_0000_0000_0000

  /** The CID of the empty node, which fills the unused buckets. */
  const EMPTY_KEY: Cid := Cid(ProtoNode([], []))

  /** `bytes` are a CID's bytes, `fnv` the hash of a CID under a seed. */
  datatype Hashing = Hashing(bytes: Cid -> string, fnv: (nat, Cid) -> nat)

  // ----- The header -----

  datatype SetHeader = SetHeader(version: nat, fanout: nat, seed: nat)

  function PutUvarint(x: nat): Bytes {
    if x < 128 then [x] else [x % 128 + 128] + PutUvarint(x / 128)
  }

  /**
   The value and the number of bytes read. None stands for both failures: the
   input ended, or the value does not fit 64 bits. `i` counts the bytes before.
   */
  function Uvarint(buf: Bytes, i: nat): Option<(nat, nat)> {
    if buf == [] then None
    else if buf[0] < 128 then
      if i > 9 || (i == 9 && buf[0] > 1) then None else Some((buf[0], 1))
    else
      match Uvarint(buf[1..], i + 1)
      case None => None
      case Some((v, n)) => Some((buf[0] - 128 + 128 * v, n + 1))
  }

  /** What is left of the 64-bit range after `i` groups of seven bits. */
  function Limit(i: nat): nat {
    if i == 0 then UINT64 else Limit(i - 1) / 128
  }

  lemma {:induction false} LimitValues()
    ensures Limit(9) == 2
    ensures forall i :: 0 <= i < 9 ==> Limit(i) == 128 * Limit(i + 1)
  {
    assert Limit(1) == 144115188075855872;
    assert Limit(2) == 1125899906842624;
    assert Limit(3) == 8796093022208;
    assert Limit(4) == 68719476736;
    assert Limit(5) == 536870912;
    assert Limit(6) == 4194304;
    assert Limit(7) == 32768;
    assert Limit(8) == 256;
    assert Limit(9) == 2;
  }

  lemma {:induction false} UvarintRoundTrip(x: nat, rest: Bytes, i: nat)
    requires i <= 9 && x < Limit(i)
    ensures Uvarint(PutUvarint(x) + rest, i) == Some((x, |PutUvarint(x)|))
    decreases x
  {
    LimitValues();
    var buf := PutUvarint(x) + rest;
    if x < 128 {
    } else {
      assert buf[1..] == PutUvarint(x / 128) + rest;
      UvarintRoundTrip(x / 128, rest, i + 1);
    }
  }

  /** What is read fits 64 bits and takes at most ten bytes of the input. */
  lemma {:induction false} UvarintFits(buf: Bytes, i: nat)
    requires i <= 9
    ensures var r := Uvarint(buf, i);
            r.Some? ==> r.value.0 < Limit(i) && 0 < r.value.1 <= |buf| && i + r.value.1 <= 10
    decreases |buf|
  {
    LimitValues();
    if buf == [] || buf[0] < 128 {
    } else if i == 9 {
      PastTheLast(buf[1..], 10);
    } else {
      UvarintFits(buf[1..], i + 1);
    }
  }

  lemma {:induction false} PastTheLast(buf: Bytes, i: nat)
    requires i > 9
    ensures Uvarint(buf, i).None?
  {
    if buf == [] || buf[0] < 128 {
    } else {
      PastTheLast(buf[1..], i + 1);
    }
  }

  function Fixed32(x: nat): Bytes
    requires x < UINT32
  {
    var y := x / 256;
    var z := y / 256;
    [x % 256, y % 256, z % 256, z / 256]
  }

  function FromFixed32(b: Bytes): nat
    requires |b| == 4
  {
    var b0: int, b1: int, b2: int, b3: int := b[0], b[1], b[2], b[3];
    b0 + 0x100 * b1 + 0x1_0000 * b2 + 0x100_0000 * b3
  }

  /** The protobuf encoding of the header: two varint fields and one fixed32 field. */
  function MarshalHeader(h: SetHeader): Bytes
    requires h.version < UINT32 && h.fanout < UINT32 && h.seed < UINT32
  {
    [0x08] + PutUvarint(h.version) + [0x10] + PutUvarint(h.fanout) + [0x1d] + Fixed32(h.seed)
  }

  /** Reads known fields until the end; later ones win, and numbers are cut to 32 bits. */
  function UnmarshalHeader(buf: Bytes, h: SetHeader): Option<SetHeader>
    decreases |buf|
  {
    if buf == [] then Some(h)
    else if buf[0] == 0x08 || buf[0] == 0x10 then
      match Uvarint(buf[1..], 0)
      case None => None
      case Some((v, n)) =>
        if n > |buf| - 1 then None
        else
          var rest := buf[1 + n..];
          UnmarshalHeader(rest, if buf[0] == 0x08 then h.(version := v % UINT32) else h.(fanout := v % UINT32))
    else if buf[0] == 0x1d && |buf| >= 5 then
      UnmarshalHeader(buf[5..], h.(seed := FromFixed32(buf[1..5])))
    else None
  }

  lemma {:induction false} UnmarshalVarint(buf: Bytes, h: SetHeader, v: nat, n: nat)
    requires buf != [] && (buf[0] == 0x08 || buf[0] == 0x10)
    requires Uvarint(buf[1..], 0) == Some((v, n)) && n < |buf| && v < UINT32
    ensures UnmarshalHeader(buf, h)
            == UnmarshalHeader(buf[1 + n..], if buf[0] == 0x08 then h.(version := v) else h.(fanout := v))
  {
  }

  lemma {:induction false} VarintField(tag: byte, v: nat, rest: Bytes, h: SetHeader)
    requires (tag == 0x08 || tag == 0x10) && v < UINT32
    ensures UnmarshalHeader([tag] + PutUvarint(v) + rest, h)
            == UnmarshalHeader(rest, if tag == 0x08 then h.(version := v) else h.(fanout := v))
  {
    var buf := [tag] + PutUvarint(v) + rest;
    assert buf[1..] == PutUvarint(v) + rest;
    UvarintRoundTrip(v, rest, 0);
    UnmarshalVarint(buf, h, v, |PutUvarint(v)|);
    assert buf[1 + |PutUvarint(v)|..] == rest;
  }

  lemma {:induction false} SeedField(x: nat, h: SetHeader)
    requires x < UINT32
    ensures UnmarshalHeader([0x1d] + Fixed32(x), h) == Some(h.(seed := x))
  {
    var buf := [0x1d] + Fixed32(x);
    assert buf[5..] == [] && buf[1..5] == Fixed32(x);
  }

  lemma {:induction false} HeaderRoundTrip(h: SetHeader)
    requires h.version < UINT32 && h.fanout < UINT32 && h.seed < UINT32
    ensures UnmarshalHeader(MarshalHeader(h), SetHeader(0, 0, 0)) == Some(h)
  {
    var seed := [0x1d] + Fixed32(h.seed);
    var fanout := [0x10] + PutUvarint(h.fanout) + seed;
    assert MarshalHeader(h) == [0x08] + PutUvarint(h.version) + fanout;
    VarintField(0x08, h.version, fanout, SetHeader(0, 0, 0));
    VarintField(0x10, h.fanout, seed, SetHeader(h.version, 0, 0));
    SeedField(h.seed, SetHeader(h.version, h.fanout, 0));
  }

  /** A length prefix, then the header itself. */
  function HeaderData(h: SetHeader): Bytes
    requires h.version < UINT32 && h.fanout < UINT32 && h.seed < UINT32
  {
    PutUvarint(|MarshalHeader(h)|) + MarshalHeader(h)
  }

  function ReadHdr(n: Node): (r: Option<SetHeader>)
    requires n.ProtoNode?
    ensures r.Some? ==> r.value.version == 1 && r.value.fanout <= |n.links|
  {
    match Uvarint(n.data, 0)
    case None => None
    case Some((len, consumed)) =>
      if consumed > |n.data| then None
      else
        var pbdata := n.data[consumed..];
        if len > |pbdata| then None
        else
          match UnmarshalHeader(pbdata[..len], SetHeader(0, 0, 0))
          case None => None
          case Some(h) => if h.version != 1 || h.fanout > |n.links| then None else Some(h)
  }

  lemma {:induction false} ReadHdrAfterWrite(n: Node, h: SetHeader)
    requires h.version == 1 && h.fanout < UINT32 && h.seed < UINT32
    requires n.ProtoNode? && n.data == HeaderData(h) && h.fanout <= |n.links|
    ensures ReadHdr(n) == Some(h)
  {
    var m := MarshalHeader(h);
    HeaderRoundTrip(h);
    MarshalIsShort(h);
    UvarintRoundTrip(|m|, m, 0);
    assert n.data[|PutUvarint(|m|)|..] == m;
    assert m[..|m|] == m;
  }

  lemma {:induction false} MarshalIsShort(h: SetHeader)
    requires h.version < UINT32 && h.fanout < UINT32 && h.seed < UINT32
    ensures |MarshalHeader(h)| < UINT64
  {
    UvarintLength(h.version);
    UvarintLength(h.fanout);
  }

  lemma {:induction false} UvarintLength(x: nat)
    ensures |PutUvarint(x)| <= x + 1
  {
    if x < 128 {
    } else {
      UvarintLength(x / 128);
    }
  }

  // ----- Reading -----

  /** The items found and the keys of all subtrees looked at. */
  datatype Loaded = Loaded(items: seq<Cid>, keys: set<Cid>)

  /** What `walkItems` finds under a node when the store holds `store`; None is an error. */
  function WalkItems(n: Node, store: set<Cid>): Option<Loaded>
    decreases n, |NodeLinks(n)| + 1
  {
    if n.RawNode? then None
    else
      match ReadHdr(n)
      case None => None
      case Some(hdr) =>
        match WalkChildren(n, hdr.fanout, store)
        case None => None
        case Some(l) => Some(Loaded(LinkCids(n.links[hdr.fanout..]) + l.items, l.keys))
  }

  /** The same for the first `i` subtrees. */
  function WalkChildren(n: Node, i: nat, store: set<Cid>): Option<Loaded>
    requires n.ProtoNode? && i <= |n.links|
    decreases n, i
  {
    if i == 0 then Some(Loaded([], {}))
    else
      match WalkChildren(n, i - 1, store)
      case None => None
      case Some(l) =>
        var c := n.links[i - 1].cid;
        if c == EMPTY_KEY then Some(Loaded(l.items, l.keys + {c}))
        else if c !in store then None
        else
          match WalkItems(c.block, store)
          case None => None
          case Some(sub) => Some(Loaded(l.items + sub.items, l.keys + {c} + sub.keys))
  }

  /**
   A walk needs its own keys and nothing else: any store that holds them gives the
   same result.
   */
  lemma {:induction false} WalkNeedsItsKeys(n: Node, store: set<Cid>, other: set<Cid>)
    requires WalkItems(n, store).Some?
    requires WalkItems(n, store).value.keys - {EMPTY_KEY} <= other
    ensures WalkItems(n, other) == WalkItems(n, store)
    ensures WalkItems(n, store).value.keys - {EMPTY_KEY} <= store
    decreases n, |NodeLinks(n)| + 1
  {
    WalkChildrenNeedItsKeys(n, ReadHdr(n).value.fanout, store, other);
  }

  lemma {:induction false} WalkChildrenNeedItsKeys(n: Node, i: nat, store: set<Cid>, other: set<Cid>)
    requires n.ProtoNode? && i <= |n.links|
    requires WalkChildren(n, i, store).Some?
    requires WalkChildren(n, i, store).value.keys - {EMPTY_KEY} <= other
    ensures WalkChildren(n, i, other) == WalkChildren(n, i, store)
    ensures WalkChildren(n, i, store).value.keys - {EMPTY_KEY} <= store
    decreases n, i
  {
    if i == 0 {
    } else {
      var l := WalkChildren(n, i - 1, store).value;
      assert l.keys <= WalkChildren(n, i, store).value.keys;
      WalkChildrenNeedItsKeys(n, i - 1, store, other);
      var c := n.links[i - 1].cid;
      if c != EMPTY_KEY {
        var sub := WalkItems(c.block, store).value;
        assert sub.keys <= WalkChildren(n, i, store).value.keys;
        WalkNeedsItsKeys(c.block, store, other);
      }
    }
  }

  lemma {:induction false} WalkChildrenPrefix(n: Node, m: Node, i: nat, store: set<Cid>)
    requires n.ProtoNode? && m.ProtoNode? && i <= |n.links| && i <= |m.links|
    requires forall j :: 0 <= j < i ==> n.links[j] == m.links[j]
    ensures WalkChildren(n, i, store) == WalkChildren(m, i, store)
    decreases i
  {
    if i == 0 {
    } else {
      WalkChildrenPrefix(n, m, i - 1, store);
    }
  }

  /** `walkItems`, with its two loops. */
  method Walk(ds: DagService, n: Node) returns (r: Option<Loaded>)
    ensures r == WalkItems(n, ds.blocks)
    decreases n, 1
  {
    if n.RawNode? { return None; }
    var hdr := ReadHdr(n);
    if hdr.None? { return None; }
    var fanout := hdr.value.fanout;
    var res := [];
    for i := fanout to |n.links|
      invariant res == LinkCids(n.links[fanout..i])
    {
      res := res + [n.links[i].cid];
      assert n.links[fanout..i + 1] == n.links[fanout..i] + [n.links[i]];
    }
    assert n.links[fanout..|n.links|] == n.links[fanout..];
    var below := WalkSlots(ds, n, fanout);
    if below.None? { return None; }
    r := Some(Loaded(res + below.value.items, below.value.keys));
  }

  /** The second loop: the subtrees in the slots that are not empty. */
  method WalkSlots(ds: DagService, n: Node, fanout: nat) returns (r: Option<Loaded>)
    requires n.ProtoNode? && fanout <= |n.links|
    ensures r == WalkChildren(n, fanout, ds.blocks)
    decreases n, 0
  {
    var res, keys := [], {};
    for i := 0 to fanout
      invariant WalkChildren(n, i, ds.blocks) == Some(Loaded(res, keys))
    {
      var c := n.links[i].cid;
      keys := keys + {c};
      if c == EMPTY_KEY {
        continue;
      }
      if c !in ds.blocks {
        NoWalkWithoutPrefix(n, i + 1, fanout, ds.blocks);
        return None;
      }
      var sub := Walk(ds, c.block);
      if sub.None? {
        NoWalkWithoutPrefix(n, i + 1, fanout, ds.blocks);
        return None;
      }
      res := res + sub.value.items;
      keys := keys + sub.value.keys;
    }
    r := Some(Loaded(res, keys));
  }

  lemma {:induction false} NoWalkWithoutPrefix(n: Node, i: nat, k: nat, store: set<Cid>)
    requires n.ProtoNode? && i <= k <= |n.links|
    requires WalkChildren(n, i, store).None?
    ensures WalkChildren(n, k, store).None?
    decreases k
  {
    if i == k {
    } else {
      NoWalkWithoutPrefix(n, i, k - 1, store);
    }
  }

  // ----- Writing -----

  type uint32 = x: int | 0 <= x < UINT32

  /** The items a node keeps itself: with a large estimate none, else as many as fit. */
  function LeafPart(items: seq<Cid>, estimated: nat): seq<Cid> {
    if estimated >= MAX_ITEMS then [] else if |items| <= MAX_ITEMS then items else items[..MAX_ITEMS]
  }

  function Overflow(items: seq<Cid>, estimated: nat): seq<Cid> {
    if estimated >= MAX_ITEMS then items else if |items| <= MAX_ITEMS then [] else items[MAX_ITEMS..]
  }

  lemma {:induction false} LeafAndOverflow(items: seq<Cid>, estimated: nat)
    ensures multiset(items) == multiset(LeafPart(items, estimated)) + multiset(Overflow(items, estimated))
  {
    assert LeafPart(items, estimated) + Overflow(items, estimated) == items;
  }

  function CidKey(h: Hashing): Link -> string {
    (l: Link) => h.bytes(l.cid)
  }

  function BucketOf(h: Hashing, depth: uint32, c: Cid): nat {
    h.fnv(depth, c) % FANOUT
  }

  function InBucket(h: Hashing, depth: uint32, b: nat): Cid -> bool {
    (c: Cid) => BucketOf(h, depth, c) == b
  }

  function Below(h: Hashing, depth: uint32, b: nat): Cid -> bool {
    (c: Cid) => BucketOf(h, depth, c) < b
  }

  function NextDepth(depth: uint32): uint32 {
    (depth + 1) % UINT32
  }

  /** The recursion of `storeItems` ends within `fuel` levels. */
  ghost predicate Terminates(h: Hashing, items: seq<Cid>, estimated: nat, depth: uint32, fuel: nat)
    decreases fuel
  {
    forall b :: 0 <= b < FANOUT ==>
      var bucket := Filter(Overflow(items, estimated), InBucket(h, depth, b));
      bucket == [] || (fuel > 0 && Terminates(h, bucket, |bucket|, NextDepth(depth), fuel - 1))
  }

  /**
   The form of the stored trie. A node has the header of its depth, a slot for each bucket
   and after them its own items, sorted by the bytes of their CIDs. The slot of a bucket
   that holds items is the trie of these; the others are the empty node.
   */
  ghost predicate IsTrie(h: Hashing, n: Node, items: seq<Cid>, estimated: nat, depth: uint32)
    decreases n
  {
    && n.ProtoNode? && n.data == HeaderData(SetHeader(1, FANOUT, depth)) && FANOUT <= |n.links| && Unnamed(n.links)
    && SortedBy(n.links[FANOUT..], CidKey(h))
    && multiset(LinkCids(n.links[FANOUT..])) == multiset(LeafPart(items, estimated))
    && forall b :: 0 <= b < FANOUT ==>
         var bucket, c := Filter(Overflow(items, estimated), InBucket(h, depth, b)), n.links[b].cid;
         if bucket == [] then c == EMPTY_KEY else IsTrie(h, c.block, bucket, |bucket|, NextDepth(depth))
  }

  /** The same for the slots of the first `b` buckets. */
  ghost predicate SlotsHold(h: Hashing, depth: uint32, links: seq<Link>, rest: seq<Cid>, b: nat)
    requires b <= |links|
  {
    forall j :: 0 <= j < b ==> SlotHolds(h, depth, links[j].cid, Filter(rest, InBucket(h, depth, j)))
  }

  ghost predicate SlotHolds(h: Hashing, depth: uint32, c: Cid, bucket: seq<Cid>) {
    if bucket == [] then c == EMPTY_KEY else IsTrie(h, c.block, bucket, |bucket|, NextDepth(depth))
  }

  /** The node reads back as exactly `items`, and reading it looks at exactly `keys`. */
  ghost predicate Stored(n: Node, items: seq<Cid>, keys: set<Cid>, store: set<Cid>) {
    && n.ProtoNode? && |n.links| >= FANOUT && Unnamed(n.links) && EMPTY_KEY in keys
    && WalkItems(n, store).Some?
    && multiset(WalkItems(n, store).value.items) == multiset(items)
    && WalkItems(n, store).value.keys == keys
  }

  ghost predicate Unnamed(ls: seq<Link>) {
    forall i :: 0 <= i < |ls| ==> ls[i].name == ""
  }

  /** The sort by name that encoding applies cannot move links that have no names. */
  lemma {:induction false} UnnamedIsCanonical(n: Node)
    requires n.ProtoNode? && Unnamed(n.links)
    ensures CidOf(n) == Cid(n)
  {
    StrLeReflexive("");
    SortedIsFixed(n.links, LinkName);
  }

  class ItemIterator {
    var rest: seq<Cid>

    constructor (items: seq<Cid>)
      ensures rest == items
    {
      rest := items;
    }

    method Next() returns (c: Option<Cid>)
      modifies this
      ensures old(rest) == [] ==> c == None && rest == []
      ensures old(rest) != [] ==> c == Some(old(rest)[0]) && rest == old(rest)[1..]
    {
      if rest == [] {
        c := None;
      } else {
        c := Some(rest[0]);
        rest := rest[1..];
      }
    }
  }

  function ItemLink(c: Cid): Link {
    Link("", c)
  }

  function ItemLinks(cs: seq<Cid>): seq<Link> {
    seq(|cs|, i requires 0 <= i < |cs| => ItemLink(cs[i]))
  }

  /** The first loop: up to 8192 items go into the node itself. */
  method TakeLeaf(iter: ItemIterator) returns (items: seq<Cid>)
    modifies iter
    ensures items == LeafPart(old(iter.rest), 0) && iter.rest == Overflow(old(iter.rest), 0)
  {
    items := [];
    for i := 0 to MAX_ITEMS
      invariant i <= |old(iter.rest)| && items == old(iter.rest)[..i] && iter.rest == old(iter.rest)[i..]
    {
      var k := iter.Next();
      if k.None? {
        break;
      }
      items := items + [k.value];
    }
  }

  /** The empty slots, followed by the sorted items of a node that is expected to hold them all. */
  method OwnLinks(h: Hashing, estimated: nat, iter: ItemIterator) returns (links: seq<Link>, ghost leaf: seq<Cid>)
    modifies iter
    ensures FANOUT <= |links| && Unnamed(links)
    ensures forall b :: 0 <= b < FANOUT ==> links[b] == Link("", EMPTY_KEY)
    ensures links[FANOUT..] == ItemLinks(leaf) && multiset(leaf) == multiset(LeafPart(old(iter.rest), estimated))
    ensures SortedBy(links[FANOUT..], CidKey(h))
    ensures iter.rest == Overflow(old(iter.rest), estimated)
  {
    links := seq(FANOUT, _ => Link("", EMPTY_KEY));
    leaf := [];
    SlotsThenItems(links, leaf);
    if estimated < MAX_ITEMS {
      var taken := TakeLeaf(iter);
      leaf := SortedLeaf(h, taken);
      SlotsThenItems(links, leaf);
      StableSortSorts(ItemLinks(taken), CidKey(h));
      links := links + StableSort(ItemLinks(taken), CidKey(h));
    }
  }

  lemma {:induction false} SlotsThenItems(slots: seq<Link>, leaf: seq<Cid>)
    requires |slots| == FANOUT && forall b :: 0 <= b < FANOUT ==> slots[b] == Link("", EMPTY_KEY)
    ensures var links := slots + ItemLinks(leaf);
            && links[FANOUT..] == ItemLinks(leaf) && Unnamed(links)
            && forall b :: 0 <= b < FANOUT ==> links[b] == Link("", EMPTY_KEY)
    ensures leaf == [] ==> slots == slots + ItemLinks(leaf)
  {
  }

  /** The second loop: every item left goes into the bucket its hash selects. */
  method HashRest(h: Hashing, depth: uint32, iter: ItemIterator) returns (hashed: seq<seq<Cid>>)
    modifies iter
    ensures |hashed| == FANOUT
    ensures forall b :: 0 <= b < FANOUT ==> hashed[b] == Filter(old(iter.rest), InBucket(h, depth, b))
  {
    hashed := seq(FANOUT, _ => []);
    ghost var items, i := iter.rest, 0;
    while true
      invariant 0 <= i <= |items| && iter.rest == items[i..]
      invariant |hashed| == FANOUT
      invariant forall b :: 0 <= b < FANOUT ==> hashed[b] == Filter(items[..i], InBucket(h, depth, b))
      decreases |items| - i
    {
      var k := iter.Next();
      if k.None? {
        break;
      }
      var b := BucketOf(h, depth, k.value);
      hashed := hashed[b := hashed[b] + [k.value]];
      forall b | 0 <= b < FANOUT ensures hashed[b] == Filter(items[..i + 1], InBucket(h, depth, b)) {
        FilterStep(items, InBucket(h, depth, b), i);
      }
      i := i + 1;
    }
    assert items[..i] == items;
  }

  /** The bytes of a header: a length, version 1, fanout 256 and the depth in little-endian order. */
  lemma {:induction false} HeaderBytes(depth: uint32)
    ensures HeaderData(SetHeader(1, FANOUT, depth)) ==
            [10, 0x08, 1, 0x10, 0x80, 0x02, 0x1d]
            + [depth % 0x100, depth / 0x100 % 0x100, depth / 0x1_0000 % 0x100, depth / 0x100_0000]
  {
    assert PutUvarint(1) == [1] && PutUvarint(2) == [2] && PutUvarint(10) == [10];
    assert PutUvarint(FANOUT) == [0x80, 0x02];
    assert Fixed32(depth) == [depth % 0x100, depth / 0x100 % 0x100, depth / 0x1_0000 % 0x100, depth / 0x100_0000];
    assert |MarshalHeader(SetHeader(1, FANOUT, depth))| == 10;
  }

  /** The data of a set node: whatever links it gets, its header reads back. */
  method WriteHdr(depth: uint32) returns (data: Bytes)
    ensures forall ls: seq<Link> :: |ls| >= FANOUT ==> ReadHdr(ProtoNode(data, ls)) == Some(SetHeader(1, FANOUT, depth))
    ensures data == HeaderData(SetHeader(1, FANOUT, depth))
  {
    var hdr := SetHeader(1, FANOUT, depth);
    data := HeaderData(hdr);
    forall ls: seq<Link> | |ls| >= FANOUT ensures ReadHdr(ProtoNode(data, ls)) == Some(hdr) {
      ReadHdrAfterWrite(ProtoNode(data, ls), hdr);
    }
  }

  /** What the third loop has done after the first `b` buckets. */
  ghost predicate Filled(h: Hashing, depth: uint32, data: Bytes, links: seq<Link>, rest: seq<Cid>,
                         b: nat, keys: set<Cid>, store: set<Cid>)
  {
    && b <= FANOUT <= |links| && Unnamed(links)
    && (forall j :: b <= j < FANOUT ==> links[j] == Link("", EMPTY_KEY))
    && WalkChildren(ProtoNode(data, links), b, store).Some?
    && var l := WalkChildren(ProtoNode(data, links), b, store).value;
    && multiset(l.items) == multiset(Filter(rest, Below(h, depth, b)))
    && (if b == 0 then keys == {EMPTY_KEY} else l.keys == keys && EMPTY_KEY in keys)
  }

  /** The slots so far read back as the items of their buckets, and are the tries of these. */
  ghost predicate FilledTo(h: Hashing, depth: uint32, data: Bytes, links: seq<Link>, rest: seq<Cid>,
                           b: nat, keys: set<Cid>, store: set<Cid>)
  {
    Filled(h, depth, data, links, rest, b, keys, store) && SlotsHold(h, depth, links, rest, b)
  }

  lemma {:induction false} FilledAtFirst(
      h: Hashing, depth: uint32, data: Bytes, links: seq<Link>, rest: seq<Cid>, store: set<Cid>)
    requires FANOUT <= |links| && Unnamed(links)
    requires forall b :: 0 <= b < FANOUT ==> links[b] == Link("", EMPTY_KEY)
    ensures FilledTo(h, depth, data, links, rest, 0, {EMPTY_KEY}, store)
  {
    FilterNone(rest, Below(h, depth, 0));
  }

  /** Bucket `b` and the buckets below it are the buckets below `b + 1`. */
  lemma {:induction false} BelowStep(h: Hashing, depth: uint32, rest: seq<Cid>, b: nat)
    ensures multiset(Filter(rest, Below(h, depth, b + 1)))
         == multiset(Filter(rest, Below(h, depth, b))) + multiset(Filter(rest, InBucket(h, depth, b)))
  {
    FilterSplit(rest, Below(h, depth, b + 1), Below(h, depth, b), InBucket(h, depth, b));
  }

  lemma {:induction false} FilledEmpty(h: Hashing, depth: uint32, data: Bytes, links: seq<Link>, rest: seq<Cid>, b: nat,
                    keys: set<Cid>, store: set<Cid>)
    requires b < FANOUT && Filled(h, depth, data, links, rest, b, keys, store)
    requires Filter(rest, InBucket(h, depth, b)) == []
    ensures Filled(h, depth, data, links, rest, b + 1, keys, store)
  {
    BelowStep(h, depth, rest, b);
    assert links[b].cid == EMPTY_KEY;
  }

  /** Putting a stored child into slot `b` extends the walk over the first `b` slots. */
  lemma {:induction false} ChildWalk(n: Node, b: nat, child: Node, store: set<Cid>, store': set<Cid>)
    requires n.ProtoNode? && b < |n.links| && WalkChildren(n, b, store).Some?
    requires WalkItems(child, store').Some? && Cid(child) in store' && Cid(child) != EMPTY_KEY
    requires store <= store'
    ensures var l, sub := WalkChildren(n, b, store).value, WalkItems(child, store').value;
            WalkChildren(n.(links := n.links[b := Link("", Cid(child))]), b + 1, store') ==
            Some(Loaded(l.items + sub.items, l.keys + {Cid(child)} + sub.keys))
  {
    WalkKeysLocal(n, b, store);
    WalkChildrenNeedItsKeys(n, b, store, store');
    WalkChildrenPrefix(n, n.(links := n.links[b := Link("", Cid(child))]), b, store');
  }

  lemma {:induction false} FilledChild(
      h: Hashing, depth: uint32, data: Bytes, links: seq<Link>, rest: seq<Cid>, b: nat, keys: set<Cid>,
      store: set<Cid>, child: Node, childKeys: set<Cid>, store': set<Cid>)
    requires b < FANOUT && Filled(h, depth, data, links, rest, b, keys, store)
    requires Stored(child, Filter(rest, InBucket(h, depth, b)), childKeys, store')
    requires store <= store' && Cid(child) in store'
    ensures Filled(h, depth, data, links[b := Link("", Cid(child))], rest, b + 1,
                   keys + childKeys + {Cid(child)}, store')
  {
    BelowStep(h, depth, rest, b);
    ChildWalk(ProtoNode(data, links), b, child, store, store');
  }

  lemma {:induction false} SlotsHoldNext(h: Hashing, depth: uint32, links: seq<Link>, rest: seq<Cid>, b: nat, l: Link)
    requires b < |links| && SlotsHold(h, depth, links, rest, b)
    requires SlotHolds(h, depth, l.cid, Filter(rest, InBucket(h, depth, b)))
    ensures SlotsHold(h, depth, links[b := l], rest, b + 1)
  {
    var slots := links[b := l];
    forall j | 0 <= j < b + 1 ensures SlotHolds(h, depth, slots[j].cid, Filter(rest, InBucket(h, depth, j))) {
      assert j < b ==> slots[j] == links[j];
    }
  }

  lemma {:induction false} SkipEmpty(h: Hashing, depth: uint32, data: Bytes, links: seq<Link>, rest: seq<Cid>, b: nat,
                                     keys: set<Cid>, store: set<Cid>)
    requires b < FANOUT && FilledTo(h, depth, data, links, rest, b, keys, store)
    requires Filter(rest, InBucket(h, depth, b)) == []
    ensures FilledTo(h, depth, data, links, rest, b + 1, keys, store)
  {
    assert links[b] == Link("", EMPTY_KEY) && links[b := links[b]] == links;
    SlotsHoldNext(h, depth, links, rest, b, links[b]);
    FilledEmpty(h, depth, data, links, rest, b, keys, store);
  }

  lemma {:induction false} WalkKeysLocal(n: Node, i: nat, store: set<Cid>)
    requires n.ProtoNode? && i <= |n.links|
    requires WalkChildren(n, i, store).Some?
    ensures WalkChildren(n, i, store).value.keys - {EMPTY_KEY} <= store
  {
    WalkChildrenNeedItsKeys(n, i, store, store + WalkChildren(n, i, store).value.keys);
  }

  lemma {:induction false} FilledStores(
      h: Hashing, depth: uint32, data: Bytes, links: seq<Link>, items: seq<Cid>, estimated: nat, leaf: seq<Cid>,
      keys: set<Cid>, store: set<Cid>)
    requires FANOUT <= |links| && ReadHdr(ProtoNode(data, links)) == Some(SetHeader(1, FANOUT, depth))
    requires Filled(h, depth, data, links, Overflow(items, estimated), FANOUT, keys, store)
    requires links[FANOUT..] == ItemLinks(leaf) && multiset(leaf) == multiset(LeafPart(items, estimated))
    ensures Stored(ProtoNode(data, links), items, keys, store)
  {
    var n := ProtoNode(data, links);
    assert LinkCids(n.links[FANOUT..]) == leaf;
    FilterAll(Overflow(items, estimated), Below(h, depth, FANOUT));
    LeafAndOverflow(items, estimated);
  }

  lemma {:induction false} FilledIsTrie(
      h: Hashing, depth: uint32, links: seq<Link>, items: seq<Cid>, estimated: nat, leaf: seq<Cid>)
    requires FANOUT <= |links| && Unnamed(links) && SlotsHold(h, depth, links, Overflow(items, estimated), FANOUT)
    requires links[FANOUT..] == ItemLinks(leaf) && multiset(leaf) == multiset(LeafPart(items, estimated))
    requires SortedBy(links[FANOUT..], CidKey(h))
    ensures IsTrie(h, ProtoNode(HeaderData(SetHeader(1, FANOUT, depth)), links), items, estimated, depth)
  {
    assert LinkCids(links[FANOUT..]) == leaf;
    forall b | 0 <= b < FANOUT
      ensures SlotHolds(h, depth, links[b].cid, Filter(Overflow(items, estimated), InBucket(h, depth, b)))
    {
    }
  }

  /** Sorting a leaf by CID bytes permutes its items. */
  lemma {:induction false} SortedLeaf(h: Hashing, items: seq<Cid>) returns (leaf: seq<Cid>)
    ensures StableSort(ItemLinks(items), CidKey(h)) == ItemLinks(leaf)
    ensures multiset(leaf) == multiset(items)
  {
    var ls := StableSort(ItemLinks(items), CidKey(h));
    StableSortPermutes(ItemLinks(items), CidKey(h));
    leaf := LinkCids(ls);
    forall i | 0 <= i < |ls| ensures ls[i] == ItemLinks(leaf)[i] {
      assert ls[i] in multiset(ItemLinks(items));
    }
    assert ls == ItemLinks(leaf);
    ItemLinksMultiset(items, leaf);
  }

  lemma {:induction false} CountItem(items: seq<Cid>, c: Cid)
    ensures multiset(ItemLinks(items))[ItemLink(c)] == multiset(items)[c]
  {
    if items == [] {
    } else {
      var front, last := items[..|items| - 1], items[|items| - 1];
      CountItem(front, c);
      assert items == front + [last];
      assert ItemLinks(items) == ItemLinks(front) + [ItemLink(last)];
    }
  }

  lemma {:induction false} ItemLinksMultiset(xs: seq<Cid>, ys: seq<Cid>)
    requires multiset(ItemLinks(xs)) == multiset(ItemLinks(ys))
    ensures multiset(xs) == multiset(ys)
  {
    forall c ensures multiset(xs)[c] == multiset(ys)[c] {
      CountItem(xs, c);
      CountItem(ys, c);
    }
  }

  /**
   Writes a trie of the iterator's items. `keys` are the keys reported to the
   observer. The ghost `fuel` only witnesses that the recursion ends.
   */
  method StoreItems(ds: DagService, h: Hashing, estimated: nat, depth: uint32, iter: ItemIterator, ghost fuel: nat)
    returns (r: Option<Node>, keys: set<Cid>)
    requires Terminates(h, iter.rest, estimated, depth, fuel)
    modifies ds, iter
    ensures old(ds.blocks) <= ds.blocks <= old(ds.blocks) + keys
    ensures r.Some? ==> Stored(r.value, old(iter.rest), keys, ds.blocks)
    ensures r.Some? ==> IsTrie(h, r.value, old(iter.rest), estimated, depth)
    ensures old(ds.faults) <= ds.faults && (r.None? ==> old(ds.faults) < ds.faults)
    decreases fuel, 1
  {
    ghost var items := iter.rest;
    var data := WriteHdr(depth);
    var links, leaf := OwnLinks(h, estimated, iter);
    var hashed := HashRest(h, depth, iter);
    var filled;
    filled, keys := StoreBuckets(ds, h, depth, data, links, hashed, Overflow(items, estimated), fuel);
    if filled.None? {
      return None, keys;
    }
    FilledStores(h, depth, data, filled.value, items, estimated, leaf, keys, ds.blocks);
    r := Some(ProtoNode(data, filled.value));
    FilledIsTrie(h, depth, filled.value, items, estimated, leaf);
  }

  /** The third loop: each bucket that holds items becomes a stored subtree in its own slot. */
  method StoreBuckets(ds: DagService, h: Hashing, depth: uint32, data: Bytes, links: seq<Link>,
                      hashed: seq<seq<Cid>>, ghost rest: seq<Cid>, ghost fuel: nat)
    returns (r: Option<seq<Link>>, keys: set<Cid>)
    requires |hashed| == FANOUT <= |links| && Unnamed(links)
    requires forall b :: 0 <= b < FANOUT ==> links[b] == Link("", EMPTY_KEY)
    requires forall b :: 0 <= b < FANOUT ==> hashed[b] == Filter(rest, InBucket(h, depth, b))
    requires forall b :: 0 <= b < FANOUT ==>
      hashed[b] == [] || (fuel > 0 && Terminates(h, hashed[b], |hashed[b]|, NextDepth(depth), fuel - 1))
    modifies ds
    ensures old(ds.blocks) <= ds.blocks <= old(ds.blocks) + keys
    ensures r.Some? ==> FilledTo(h, depth, data, r.value, rest, FANOUT, keys, ds.blocks)
    ensures r.Some? ==> r.value[FANOUT..] == links[FANOUT..]
    ensures old(ds.faults) <= ds.faults && (r.None? ==> old(ds.faults) < ds.faults)
    decreases fuel, 0
  {
    var slots := links;
    keys := {EMPTY_KEY};
    FilledAtFirst(h, depth, data, links, rest, ds.blocks);
    for b := 0 to FANOUT
      invariant old(ds.blocks) <= ds.blocks <= old(ds.blocks) + keys
      invariant FilledTo(h, depth, data, slots, rest, b, keys, ds.blocks)
      invariant slots[FANOUT..] == links[FANOUT..]
      invariant old(ds.faults) <= ds.faults
    {
      if hashed[b] == [] {
        SkipEmpty(h, depth, data, slots, rest, b, keys, ds.blocks);
        continue;
      }
      var ok;
      slots, keys, ok := FillSlot(ds, h, depth, data, slots, hashed[b], rest, b, keys, fuel);
      if !ok {
        return None, keys;
      }
    }
    r := Some(slots);
  }

  /** One bucket that holds items: its subtree is stored and takes its slot. */
  method FillSlot(ds: DagService, h: Hashing, depth: uint32, data: Bytes, links: seq<Link>, items: seq<Cid>,
                  ghost rest: seq<Cid>, b: nat, keys: set<Cid>, ghost fuel: nat)
    returns (slots: seq<Link>, allKeys: set<Cid>, ok: bool)
    requires b < FANOUT && items == Filter(rest, InBucket(h, depth, b)) && items != []
    requires fuel > 0 && Terminates(h, items, |items|, NextDepth(depth), fuel - 1)
    requires FilledTo(h, depth, data, links, rest, b, keys, ds.blocks)
    modifies ds
    ensures keys <= allKeys && old(ds.blocks) <= ds.blocks <= old(ds.blocks) + allKeys
    ensures ok ==> FilledTo(h, depth, data, slots, rest, b + 1, allKeys, ds.blocks)
    ensures ok ==> slots[FANOUT..] == links[FANOUT..]
    ensures old(ds.faults) <= ds.faults && (!ok ==> old(ds.faults) < ds.faults)
    decreases fuel - 1, 3
  {
    ghost var store := ds.blocks;
    var child, childKeys := StoreBucket(ds, h, depth, items, fuel);
    if child.None? {
      return links, keys + childKeys, false;
    }
    FilledChild(h, depth, data, links, rest, b, keys, store, child.value, childKeys, ds.blocks);
    SlotsHoldNext(h, depth, links, rest, b, Link("", Cid(child.value)));
    slots := links[b := Link("", Cid(child.value))];
    allKeys := keys + childKeys + {Cid(child.value)};
    ok := true;
  }

  method StoreBucket(ds: DagService, h: Hashing, depth: uint32, items: seq<Cid>, ghost fuel: nat)
    returns (r: Option<Node>, keys: set<Cid>)
    requires fuel > 0 && Terminates(h, items, |items|, NextDepth(depth), fuel - 1)
    modifies ds
    ensures r.None? ==> old(ds.blocks) <= ds.blocks <= old(ds.blocks) + keys
    ensures r.Some? ==> Cid(r.value) in ds.blocks && Stored(r.value, items, keys, ds.blocks)
    ensures r.Some? ==> IsTrie(h, r.value, items, |items|, NextDepth(depth))
    ensures old(ds.faults) <= ds.faults && (r.None? ==> old(ds.faults) < ds.faults)
    ensures r.Some? ==> old(ds.blocks) <= ds.blocks <= old(ds.blocks) + keys + {Cid(r.value)}
    decreases fuel - 1, 2
  {
    var childIter := new ItemIterator(items);
    var child;
    child, keys := StoreItems(ds, h, |items|, NextDepth(depth), childIter, fuel - 1);
    if child.None? {
      return None, keys;
    }
    ghost var store := ds.blocks;
    UnnamedIsCanonical(child.value);
    var ok := ds.Add(child.value);
    if !ok {
      return None, keys + {CidOf(child.value)};
    }
    WalkStays(child.value, items, keys, store, ds.blocks);
    r := child;
  }

  lemma {:induction false} WalkStays(n: Node, items: seq<Cid>, keys: set<Cid>, store: set<Cid>, other: set<Cid>)
    requires Stored(n, items, keys, store) && (store <= other || keys - {EMPTY_KEY} <= other)
    ensures Stored(n, items, keys, other)
    ensures keys - {EMPTY_KEY} <= store
  {
    WalkNeedsItsKeys(n, store, store + keys);
    WalkNeedsItsKeys(n, store, other);
  }

  /** Stores a list as a trie whose root is in the store too. */
  method StoreSet(ds: DagService, h: Hashing, cids: seq<Cid>, ghost fuel: nat)
    returns (r: Option<Node>, keys: set<Cid>)
    requires Terminates(h, cids, |cids|, 0, fuel)
    modifies ds
    ensures old(ds.blocks) <= ds.blocks <= old(ds.blocks) + keys
    ensures r.Some? ==> SetInStore(r.value, cids, keys, ds.blocks)
    ensures r.Some? ==> IsTrie(h, r.value, cids, |cids|, 0)
    ensures old(ds.faults) <= ds.faults && (r.None? ==> old(ds.faults) < ds.faults)
  {
    var iter := new ItemIterator(cids);
    r, keys := StoreItems(ds, h, |cids|, 0, iter, fuel);
    if r.None? {
      return;
    }
    ghost var store := ds.blocks;
    UnnamedIsCanonical(r.value);
    var ok := ds.Add(r.value);
    WalkStays(r.value, cids, keys, store, ds.blocks);
    ghost var walked := keys;
    keys := keys + {CidOf(r.value)};
    if !ok {
      return None, keys;
    }
    assert keys == walked + {Cid(r.value)};
  }

  /** The trie and its root are stored; `keys` are all their CIDs and the empty key. */
  ghost predicate SetInStore(n: Node, items: seq<Cid>, keys: set<Cid>, store: set<Cid>) {
    && CidOf(n) == Cid(n) && Cid(n) in store
    && exists walked :: keys == walked + {Cid(n)} && Stored(n, items, walked, store)
  }

  lemma {:induction false} SetStays(n: Node, items: seq<Cid>, keys: set<Cid>, store: set<Cid>, other: set<Cid>)
    requires SetInStore(n, items, keys, store) && store <= other
    ensures SetInStore(n, items, keys, other)
    ensures keys - {EMPTY_KEY} <= other && EMPTY_KEY in keys
  {
    var walked :| keys == walked + {Cid(n)} && Stored(n, items, walked, store);
    WalkStays(n, items, walked, store, other);
    assert keys == walked + {Cid(n)} && Stored(n, items, walked, other);
  }

  // ----- Loading a named set -----

  /** What `loadSet` finds: the items and every key it reports. */
  function LoadFrom(root: Node, name: string, store: set<Cid>): Option<Loaded> {
    match FindLink(NodeLinks(root), name)
    case None => None
    case Some(l) =>
      if l.cid !in store then None
      else
        match WalkItems(l.cid.block, store)
        case None => None
        case Some(w) => Some(Loaded(w.items, w.keys + {l.cid}))
  }

  method LoadSet(ds: DagService, root: Node, name: string) returns (r: Option<Loaded>)
    ensures r == LoadFrom(root, name, ds.blocks)
  {
    var l := FindLink(NodeLinks(root), name);
    if l.None? || l.value.cid !in ds.blocks {
      return None;
    }
    var w := Walk(ds, l.value.cid.block);
    if w.None? {
      return None;
    }
    r := Some(Loaded(w.value.items, w.value.keys + {l.value.cid}));
  }

  /**
   The round trip: what was stored is loaded as a permutation of the original
   list, and loading reports exactly the keys that storing reported. It keeps
   holding for any later store that still has these keys.
   */
  lemma {:induction false} PinSetRoundTrip(n: Node, items: seq<Cid>, keys: set<Cid>, root: Node, name: string,
                        store: set<Cid>, later: set<Cid>)
    requires SetInStore(n, items, keys, store)
    requires FindLink(NodeLinks(root), name) == Some(Link(name, CidOf(n)))
    requires keys - {EMPTY_KEY} <= later
    ensures LoadFrom(root, name, later).Some?
    ensures multiset(LoadFrom(root, name, later).value.items) == multiset(items)
    ensures LoadFrom(root, name, later).value.keys == keys
  {
    var walked :| keys == walked + {Cid(n)} && Stored(n, items, walked, store);
    WalkStays(n, items, walked, store, later);
  }

  // ----- When storing terminates -----

  /** The seed of the hash `i` levels below `depth`; depths are 32-bit numbers. */
  function SeedBelow(depth: uint32, i: nat): nat {
    (depth + i) % UINT32
  }

  /** The hashes of two CIDs agree modulo 256 on `levels` levels from `depth` on. */
  predicate SamePath(h: Hashing, x: Cid, y: Cid, depth: uint32, levels: nat) {
    forall i :: 0 <= i < levels ==> h.fnv(SeedBelow(depth, i), x) % FANOUT == h.fnv(SeedBelow(depth, i), y) % FANOUT
  }

  lemma {:induction false} SamePathStep(h: Hashing, x: Cid, y: Cid, depth: uint32, levels: nat)
    requires levels > 0
    ensures SamePath(h, x, y, depth, levels) <==>
            BucketOf(h, depth, x) == BucketOf(h, depth, y) && SamePath(h, x, y, NextDepth(depth), levels - 1)
  {
    assert SeedBelow(depth, 0) == depth;
    forall i: nat ensures SeedBelow(NextDepth(depth), i) == SeedBelow(depth, i + 1) {
    }
    if BucketOf(h, depth, x) == BucketOf(h, depth, y) && SamePath(h, x, y, NextDepth(depth), levels - 1) {
      forall i | 0 <= i < levels
        ensures h.fnv(SeedBelow(depth, i), x) % FANOUT == h.fnv(SeedBelow(depth, i), y) % FANOUT
      {
        assert i > 0 ==> SeedBelow(NextDepth(depth), i - 1) == SeedBelow(depth, i);
      }
    }
  }

  function SharesPath(h: Hashing, x: Cid, depth: uint32, levels: nat): Cid -> bool {
    (y: Cid) => SamePath(h, x, y, depth, levels)
  }

  lemma {:induction false} PeersInBucket(h: Hashing, items: seq<Cid>, x: Cid, depth: uint32, levels: nat)
    requires levels > 0
    ensures Filter(items, SharesPath(h, x, depth, levels))
         == Filter(Filter(items, InBucket(h, depth, BucketOf(h, depth, x))),
                   SharesPath(h, x, NextDepth(depth), levels - 1))
  {
    forall y ensures SamePath(h, x, y, depth, levels) <==>
                     BucketOf(h, depth, x) == BucketOf(h, depth, y) && SamePath(h, x, y, NextDepth(depth), levels - 1)
    {
      SamePathStep(h, x, y, depth, levels);
    }
    FilterTwice(items, InBucket(h, depth, BucketOf(h, depth, x)), SharesPath(h, x, NextDepth(depth), levels - 1),
                SharesPath(h, x, depth, levels));
  }

  /** No 8192 of the items share their buckets on all of the given levels. */
  ghost predicate Splits(h: Hashing, items: seq<Cid>, depth: uint32, levels: nat) {
    forall x :: x in items ==> |Filter(items, SharesPath(h, x, depth, levels))| < 8192
  }

  /** Storing ends within `levels` levels exactly when the hash has split the list by then. */
  lemma {:induction false} TerminatesIffSplits(h: Hashing, items: seq<Cid>, depth: uint32, levels: nat)
    ensures Terminates(h, items, |items|, depth, levels) <==> Splits(h, items, depth, levels)
    decreases levels
  {
    if |items| < MAX_ITEMS {
      SmallListSplits(h, items, depth, levels);
    } else {
      FilterElements(items, InBucket(h, depth, BucketOf(h, depth, items[0])));
      if levels == 0 {
        FilterAll(items, SharesPath(h, items[0], depth, 0));
        assert items[0] in items;
        assert Filter(items, InBucket(h, depth, BucketOf(h, depth, items[0]))) != [];
      } else {
        forall b | 0 <= b < FANOUT
          ensures var bucket := Filter(items, InBucket(h, depth, b));
                  Terminates(h, bucket, |bucket|, NextDepth(depth), levels - 1) <==>
                  Splits(h, bucket, NextDepth(depth), levels - 1)
        {
          var bucket := Filter(items, InBucket(h, depth, b));
          TerminatesIffSplits(h, bucket, NextDepth(depth), levels - 1);
        }
        SplitsByBucket(h, items, depth, levels);
      }
    }
  }

  lemma {:induction false} SmallListSplits(h: Hashing, items: seq<Cid>, depth: uint32, levels: nat)
    requires |items| < MAX_ITEMS
    ensures Terminates(h, items, |items|, depth, levels) && Splits(h, items, depth, levels)
  {
    forall b | 0 <= b < FANOUT ensures Filter(Overflow(items, |items|), InBucket(h, depth, b)) == [] {
      assert Overflow(items, |items|) == [];
    }
    forall x | x in items ensures |Filter(items, SharesPath(h, x, depth, levels))| < MAX_ITEMS {
      FilterElements(items, SharesPath(h, x, depth, levels));
    }
  }

  lemma {:induction false} SplitsByBucket(h: Hashing, items: seq<Cid>, depth: uint32, levels: nat)
    requires levels > 0
    ensures Splits(h, items, depth, levels) <==>
            forall b :: 0 <= b < FANOUT ==>
              Splits(h, Filter(items, InBucket(h, depth, b)), NextDepth(depth), levels - 1)
  {
    if Splits(h, items, depth, levels) {
      forall b | 0 <= b < FANOUT
        ensures Splits(h, Filter(items, InBucket(h, depth, b)), NextDepth(depth), levels - 1)
      {
        FilterElements(items, InBucket(h, depth, b));
        forall x | x in Filter(items, InBucket(h, depth, b))
          ensures |Filter(Filter(items, InBucket(h, depth, b)), SharesPath(h, x, NextDepth(depth), levels - 1))|
                  < MAX_ITEMS
        {
          PeersInBucket(h, items, x, depth, levels);
        }
      }
    }
    if forall b :: 0 <= b < FANOUT ==> Splits(h, Filter(items, InBucket(h, depth, b)), NextDepth(depth), levels - 1) {
      forall x | x in items ensures |Filter(items, SharesPath(h, x, depth, levels))| < MAX_ITEMS {
        var b := BucketOf(h, depth, x);
        FilterElements(items, InBucket(h, depth, b));
        PeersInBucket(h, items, x, depth, levels);
        assert Splits(h, Filter(items, InBucket(h, depth, b)), NextDepth(depth), levels - 1);
      }
    }
  }

  /** A hash that never separates the items makes storing 8192 or more of them run forever. */
  lemma {:induction false} UnsplitNeverTerminates(h: Hashing, items: seq<Cid>, fuel: nat)
    requires |items| >= 8192
    requires forall d: uint32, x, y :: x in items && y in items ==> h.fnv(d, x) % FANOUT == h.fnv(d, y) % FANOUT
    ensures !Terminates(h, items, |items|, 0, fuel)
  {
    TerminatesIffSplits(h, items, 0, fuel);
    assert items[0] in items;
    FilterAll(items, SharesPath(h, items[0], 0, fuel));
  }

  /** The same condition for a set of pins, whatever order its keys are listed in. */
  ghost predicate SetSplits(h: Hashing, s: set<Cid>, levels: nat) {
    forall x :: x in s ==> |set y | y in s && SamePath(h, x, y, 0, levels)| < 8192
  }

  lemma {:induction false} SetTerminates(h: Hashing, s: set<Cid>, ks: seq<Cid>, levels: nat)
    requires SetSplits(h, s, levels)
    requires NoDuplicates(ks) && forall x :: x in ks <==> x in s
    ensures Terminates(h, ks, |ks|, 0, levels)
  {
    forall x | x in ks ensures |Filter(ks, SharesPath(h, x, 0, levels))| < MAX_ITEMS {
      FilterElements(ks, SharesPath(h, x, 0, levels));
      FilterNoDuplicates(ks, SharesPath(h, x, 0, levels));
      NoDuplicatesBound(Filter(ks, SharesPath(h, x, 0, levels)), set y | y in s && SamePath(h, x, y, 0, levels));
    }
    TerminatesIffSplits(h, ks, 0, levels);
  }
}
