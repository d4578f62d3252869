/**
 The mutable protobuf node with its cached encoding and CID.

 The protobuf codec and the hash are arbitrary functions. Decoding is assumed to undo
 encoding; where prefixes are compared, a CID is assumed to show what it was made with.
 */
module ProtoNodes {
  import opened Sequences
  import opened Sorting
  import opened Dag
  import LinkEdits

  datatype Prefix = Prefix(codec: nat, version: nat, mhType: nat, mhLength: int)

  const DAG_PROTOBUF := 0x70
  const SHA2_256 := 0x12
  const SHA2_256_LENGTH := 32
  const V0_PREFIX: Prefix := Prefix(DAG_PROTOBUF, 0, SHA2_256, -1)
  const UNSET: Prefix := Prefix(0, 0, 0, 0)

  /** A parsed protobuf message; a link hash that is no CID leaves the links before it. */
  datatype Parsed =
    | Malformed
    | BadHash(before: seq<Link>)
    | Parsed(data: Bytes, links: seq<Link>)

  /** `sum` gives the bytes of a CID, and `size` the full length of a type of hash. */
  datatype Codec = Codec(
    marshal: (Bytes, seq<Link>) -> Bytes,
    parse: Bytes -> Parsed,
    sum: (Prefix, Bytes) -> Bytes,
    size: nat -> nat)

  ghost predicate Inverts(k: Codec) {
    forall d: Bytes, ls: seq<Link> :: k.parse(k.marshal(d, ls)) == Parsed(d, ls)
  }

  /** What a prefix stands for: a negative length is the full one, and version 0 knows only one codec. */
  function Norm(k: Codec, p: Prefix): Prefix {
    var q := if p.mhLength < 0 then p.(mhLength := k.size(p.mhType)) else p;
    if q.version == 0 then q.(codec := DAG_PROTOBUF) else q
  }

  /** A CID shows the version, the codec, and the type and length of the hash it was made with. */
  ghost predicate ShowsPrefix(k: Codec) {
    && k.size(SHA2_256) == SHA2_256_LENGTH
    && forall p: Prefix, q: Prefix, b: Bytes :: k.sum(p, b) == k.sum(q, b) <==> Norm(k, p) == Norm(k, q)
  }

  /** The prefix gives the CIDs that the default one gives. */
  predicate GivesV0(p: Prefix) {
    p.version == 0 && p.mhType == 0x12 && (p.mhLength < 0 || p.mhLength == 32)
  }

  /** The hash of the prefix takes two different byte strings to the same CID. */
  ghost predicate Collide(k: Codec, p: Prefix, b: Bytes, c: Bytes) {
    b != c && k.sum(p, b) == k.sum(p, c)
  }

  datatype NodeState = NodeState(
    links: seq<Link>,
    data: Bytes,
    encoded: Option<Bytes>,
    cached: Option<Bytes>,
    prefix: Prefix)

  function Sorted(ls: seq<Link>): seq<Link> {
    StableSort(ls, LinkName)
  }

  // ----- The operations on the fields -----

  function SetPrefixOn(s: NodeState, p: Option<Prefix>): NodeState {
    if p.None? then s.(prefix := V0_PREFIX)
    else s.(prefix := p.value.(codec := DAG_PROTOBUF), encoded := None, cached := None)
  }

  function AddLinkOn(s: NodeState, l: Link): NodeState {
    s.(encoded := None, links := s.links + [l])
  }

  function RemoveLinkOn(s: NodeState, name: string): NodeState {
    s.(encoded := None, links := Filter(s.links, LinkEdits.NotNamed(name)))
  }

  function SetDataOn(s: NodeState, d: Bytes): NodeState {
    s.(encoded := None, cached := None, data := d)
  }

  function SetLinksOn(s: NodeState, ls: seq<Link>): NodeState {
    s.(links := ls)
  }

  function Defaulted(p: Prefix): Prefix {
    if p.codec == 0 then V0_PREFIX else p
  }

  function EncodeOn(k: Codec, s: NodeState, force: bool): NodeState {
    var s1 := s.(links := Sorted(s.links));
    var s2 := if s.encoded.None? || force
              then s1.(cached := None, encoded := Some(k.marshal(s.data, s1.links))) else s1;
    if s2.cached.Some? then s2
    else s2.(prefix := Defaulted(s2.prefix), cached := Some(k.sum(Defaulted(s2.prefix), s2.encoded.value)))
  }

  function CidOn(k: Codec, s: NodeState): NodeState {
    if s.encoded.Some? && s.cached.Some? then s
    else
      var s1 := EncodeOn(k, s.(prefix := Defaulted(s.prefix)), false);
      s1.(cached := Some(k.sum(s1.prefix, s1.encoded.value)))
  }

  // ----- Coherence -----

  /**
   A cached encoding decodes to the current data and links, up to the order that
   encoding gives them, and a CID cached beside it is its hash.
   */
  ghost predicate Coherent(k: Codec, s: NodeState) {
    && (s.encoded.Some? ==> Describes(k, s.encoded.value, s))
    && (s.encoded.Some? && s.cached.Some? ==>
          s.prefix.codec != 0 && s.cached.value == k.sum(s.prefix, s.encoded.value))
  }

  ghost predicate Describes(k: Codec, bytes: Bytes, s: NodeState) {
    && k.parse(bytes).Parsed?
    && k.parse(bytes).data == s.data
    && Sorted(k.parse(bytes).links) == Sorted(s.links)
  }

  lemma {:induction false} SortedTwice(ls: seq<Link>)
    ensures Sorted(Sorted(ls)) == Sorted(ls)
  {
    StableSortSorts(ls, LinkName);
    SortedIsFixed(Sorted(ls), LinkName);
  }

  lemma {:induction false} EncodeKeepsCoherence(k: Codec, s: NodeState, force: bool)
    requires Inverts(k) && Coherent(k, s)
    ensures Coherent(k, EncodeOn(k, s, force))
    ensures EncodeOn(k, s, force).encoded.Some? && EncodeOn(k, s, force).cached.Some?
  {
    SortedTwice(s.links);
    assert k.parse(k.marshal(s.data, Sorted(s.links))) == Parsed(s.data, Sorted(s.links));
  }

  /**
   Cache coherence: `Cid()` is the prefix's hash of the bytes that `RawData()`
   returns, and these bytes decode to the current data and name-sorted links.
   */
  lemma {:induction false} CidIsHashOfBytes(k: Codec, s: NodeState)
    requires Inverts(k) && Coherent(k, s)
    ensures var s1 := CidOn(k, s);
            var s2 := EncodeOn(k, s1, false);
            && Coherent(k, s1) && s1.cached.Some? && s1.encoded.Some? && s2.encoded == s1.encoded
            && s1.cached.value == k.sum(s1.prefix, s2.encoded.value)
            && Describes(k, s2.encoded.value, s) && s2.links == Sorted(s.links) && s1.data == s.data
            && s1.prefix == Defaulted(s.prefix)
  {
    var s0 := s.(prefix := Defaulted(s.prefix));
    SortedTwice(s.links);
    if s.encoded.None? || s.cached.None? {
      assert Coherent(k, s0);
      EncodeKeepsCoherence(k, s0, false);
    }
  }

  // ----- Runs of operations -----

  datatype Op =
    | SetPrefix(p: Option<Prefix>)
    | AddLink(l: Link)
    | RemoveLink(name: string)
    | SetData(d: Bytes)
    | Encode(force: bool)
    | GetCid
    | SetLinks(ls: seq<Link>)

  function Step(k: Codec, s: NodeState, op: Op): NodeState {
    match op
    case SetPrefix(p) => SetPrefixOn(s, p)
    case AddLink(l) => AddLinkOn(s, l)
    case RemoveLink(name) => RemoveLinkOn(s, name)
    case SetData(d) => SetDataOn(s, d)
    case Encode(force) => EncodeOn(k, s, force)
    case GetCid => CidOn(k, s)
    case SetLinks(ls) => SetLinksOn(s, ls)
  }

  function Run(k: Codec, s: NodeState, ops: seq<Op>): NodeState {
    if ops == [] then s else Step(k, Run(k, s, ops[..|ops| - 1]), ops[|ops| - 1])
  }

  /** The two operations that change a part of the node without dropping its caches. */
  predicate LeavesCaches(op: Op) {
    op.SetLinks? || (op.SetPrefix? && op.p.None?)
  }

  /** Any run of the other operations keeps a node coherent, in particular from a new or decoded one. */
  lemma {:induction false} RunKeepsCoherence(k: Codec, s: NodeState, ops: seq<Op>)
    requires Inverts(k) && Coherent(k, s)
    requires forall i :: 0 <= i < |ops| ==> !LeavesCaches(ops[i])
    ensures Coherent(k, Run(k, s, ops))
    decreases |ops|
  {
    if ops == [] {
    } else {
      var before := Run(k, s, ops[..|ops| - 1]);
      RunKeepsCoherence(k, s, ops[..|ops| - 1]);
      match ops[|ops| - 1]
      case Encode(force) => EncodeKeepsCoherence(k, before, force);
      case GetCid => CidIsHashOfBytes(k, before);
      case _ =>
    }
  }

  /** Replacing the links keeps the node coherent exactly when nothing is encoded or the links sort alike. */
  lemma {:induction false} SetLinksCoherence(k: Codec, s: NodeState, ls: seq<Link>)
    requires Coherent(k, s)
    ensures Coherent(k, SetLinksOn(s, ls)) <==> s.encoded.None? || Sorted(ls) == Sorted(s.links)
  {
  }

  /**
   Resetting the prefix keeps the node coherent exactly when no CID is in use or the prefix
   gives the same CIDs as the default one.
   */
  lemma {:induction false} ResetPrefixCoherence(k: Codec, s: NodeState)
    requires Coherent(k, s)
    ensures Coherent(k, SetPrefixOn(s, None)) <==>
            s.encoded.None? || s.cached.None? || k.sum(V0_PREFIX, s.encoded.value) == k.sum(s.prefix, s.encoded.value)
    ensures ShowsPrefix(k) ==>
              (Coherent(k, SetPrefixOn(s, None)) <==> s.encoded.None? || s.cached.None? || GivesV0(s.prefix))
  {
    if ShowsPrefix(k) && s.encoded.Some? {
      assert k.sum(V0_PREFIX, s.encoded.value) == k.sum(s.prefix, s.encoded.value)
        <==> Norm(k, V0_PREFIX) == Norm(k, s.prefix);
    }
  }

  const NEW_NODE: NodeState := NodeState([], [], None, None, UNSET)

  /** Whatever the codec: dropping the only link of a node whose CID was asked for leaves a stale encoding. */
  lemma {:induction false} SetLinksCanBreak(k: Codec, l: Link)
    requires Inverts(k)
    ensures !Coherent(k, SetLinksOn(CidOn(k, AddLinkOn(NEW_NODE, l)), []))
  {
    var s := AddLinkOn(NEW_NODE, l);
    CidIsHashOfBytes(k, s);
    StableSortPermutes(s.links, LinkName);
    assert |multiset(Sorted(s.links))| == |multiset(s.links)| == 1;
    SortedTwice(s.links);
    SetLinksCoherence(k, CidOn(k, s), []);
    assert Sorted([]) == [];
  }

  /** Whatever the codec: after the CID was asked for, resetting a prefix leaves it stale unless it is a default one. */
  lemma {:induction false} ResetPrefixCanBreak(k: Codec, p: Prefix)
    requires Inverts(k) && ShowsPrefix(k)
    ensures Coherent(k, SetPrefixOn(CidOn(k, SetPrefixOn(NEW_NODE, Some(p))), None)) <==> GivesV0(p)
  {
    var s := SetPrefixOn(NEW_NODE, Some(p));
    CidIsHashOfBytes(k, s);
    ResetPrefixCoherence(k, CidOn(k, s));
  }

  /**
   The prefix of a decoded node has the length of its hash. A node from a block of version 0
   has another prefix than the default one, and resetting it does no harm.
   */
  lemma {:induction false} ResetDecodedV0(k: Codec, bytes: Bytes)
    requires ShowsPrefix(k) && k.parse(bytes).Parsed?
    ensures var s := DecodedFrom(k, bytes, V0_PREFIX.(mhLength := SHA2_256_LENGTH));
            && s.prefix != V0_PREFIX && s.encoded.Some? && s.cached.Some?
            && Coherent(k, s) && Coherent(k, SetPrefixOn(s, None))
  {
    var s := DecodedFrom(k, bytes, V0_PREFIX.(mhLength := SHA2_256_LENGTH));
    SortedTwice(k.parse(bytes).links);
    ResetPrefixCoherence(k, s);
  }

  // ----- Canonical form -----

  /** A node whose cached encoding, if any, is the one its own contents encode to. */
  ghost predicate CanonicallyEncoded(k: Codec, s: NodeState) {
    && Coherent(k, s)
    && (s.encoded.Some? ==> s.encoded.value == k.marshal(s.data, Sorted(s.links)))
  }

  lemma {:induction false} EncodeKeepsCanonical(k: Codec, s: NodeState, force: bool)
    requires Inverts(k) && CanonicallyEncoded(k, s)
    ensures CanonicallyEncoded(k, EncodeOn(k, s, force))
  {
    EncodeKeepsCoherence(k, s, force);
    SortedTwice(s.links);
  }

  /** A forced encoding repairs any node: whatever was cached, it leaves the canonical bytes and their CID. */
  lemma {:induction false} ForcedEncodingRepairs(k: Codec, s: NodeState)
    requires Inverts(k)
    ensures var t := EncodeOn(k, s, true);
            && CanonicallyEncoded(k, t) && t.encoded.Some? && t.cached.Some?
            && t.data == s.data && t.links == Sorted(s.links)
  {
    SortedTwice(s.links);
    assert k.parse(k.marshal(s.data, Sorted(s.links))) == Parsed(s.data, Sorted(s.links));
  }

  /** A given prefix is used for the next CID, with the codec of protobuf nodes in place of its own. */
  lemma {:induction false} PrefixGivesCid(k: Codec, s: NodeState, p: Prefix)
    requires Inverts(k)
    ensures CidOn(k, SetPrefixOn(s, Some(p))).cached
         == Some(k.sum(Prefix(0x70, p.version, p.mhType, p.mhLength), k.marshal(s.data, Sorted(s.links))))
  {
    SortedTwice(s.links);
  }

  /** What a name finds after the edits of a node. */
  lemma {:induction false} EditsResolve(s: NodeState, name: string, that: Cid, x: string)
    ensures FindLink(AddLinkOn(s, Link(name, that)).links, x)
         == if FindLink(s.links, x).None? && x == name then Some(Link(name, that)) else FindLink(s.links, x)
    ensures FindLink(RemoveLinkOn(s, name).links, x) == if x == name then None else FindLink(s.links, x)
    ensures FindLink(AddLinkOn(RemoveLinkOn(s, name), Link(name, that)).links, x)
         == if x == name then Some(Link(name, that)) else FindLink(s.links, x)
  {
    LinkEdits.FindLinkSnoc(s.links, Link(name, that), x);
    LinkEdits.FindLinkWithout(s.links, name, x);
    LinkEdits.FindLinkSnoc(RemoveLinkOn(s, name).links, Link(name, that), x);
  }

  lemma {:induction false} StepKeepsCanonical(k: Codec, s: NodeState, op: Op)
    requires Inverts(k) && CanonicallyEncoded(k, s) && !LeavesCaches(op)
    ensures CanonicallyEncoded(k, Step(k, s, op))
  {
    match op
    case Encode(force) => EncodeKeepsCanonical(k, s, force);
    case GetCid =>
      CidIsHashOfBytes(k, s);
      if s.encoded.None? || s.cached.None? {
        EncodeKeepsCanonical(k, s.(prefix := Defaulted(s.prefix)), false);
      }
    case _ =>
  }

  lemma {:induction false} RunKeepsCanonical(k: Codec, s: NodeState, ops: seq<Op>)
    requires Inverts(k) && CanonicallyEncoded(k, s)
    requires forall i :: 0 <= i < |ops| ==> !LeavesCaches(ops[i])
    ensures CanonicallyEncoded(k, Run(k, s, ops))
    decreases |ops|
  {
    if ops == [] {
    } else {
      RunKeepsCanonical(k, s, ops[..|ops| - 1]);
      StepKeepsCanonical(k, Run(k, s, ops[..|ops| - 1]), ops[|ops| - 1]);
    }
  }

  /**
   Canonical form: two nodes made by any two runs have the same CID as soon as they hold
   the same data and the same links, with distinct names, in whatever order.
   */
  lemma {:induction false} LinkOrderIsIrrelevant(
      k: Codec, s0: NodeState, sOps: seq<Op>, t0: NodeState, tOps: seq<Op>)
    requires Inverts(k) && CanonicallyEncoded(k, s0) && CanonicallyEncoded(k, t0)
    requires forall i :: 0 <= i < |sOps| ==> !LeavesCaches(sOps[i])
    requires forall i :: 0 <= i < |tOps| ==> !LeavesCaches(tOps[i])
    requires SameContents(Run(k, s0, sOps), Run(k, t0, tOps))
    ensures CidOn(k, Run(k, s0, sOps)).cached == CidOn(k, Run(k, t0, tOps)).cached
  {
    var s, t := Run(k, s0, sOps), Run(k, t0, tOps);
    RunKeepsCanonical(k, s0, sOps);
    RunKeepsCanonical(k, t0, tOps);
    PermutationSortsAlike(s.links, t.links, LinkName);
  }

  ghost predicate SameContents(s: NodeState, t: NodeState) {
    && DistinctKeys(s.links, LinkName)
    && DistinctKeys(t.links, LinkName)
    && (forall l :: l in s.links <==> l in t.links)
    && s.data == t.data
    && Defaulted(s.prefix) == Defaulted(t.prefix)
  }

  function CopyOf(s: NodeState): NodeState {
    NodeState(s.links, s.data, None, None, s.prefix)
  }

  /**
   A copy drops the cached bytes. It keeps the CID exactly when they are the ones the contents
   encode to, or the hash takes both to the same CID.
   */
  lemma {:induction false} CopyCid(k: Codec, s: NodeState)
    requires Inverts(k) && Coherent(k, s)
    ensures CidOn(k, CopyOf(s)).cached == CidOn(k, s).cached <==>
            || CanonicallyEncoded(k, s)
            || Collide(k, Defaulted(s.prefix), s.encoded.value, k.marshal(s.data, Sorted(s.links)))
  {
    CidIsHashOfBytes(k, s);
  }

  /** The state of a node decoded from a block whose CID is the hash of its bytes. */
  function DecodedFrom(k: Codec, bytes: Bytes, p: Prefix): NodeState
    requires k.parse(bytes).Parsed?
  {
    NodeState(Sorted(k.parse(bytes).links), k.parse(bytes).data, Some(bytes), Some(k.sum(p, bytes)), p)
  }

  /**
   Whatever the codec: a node decoded from unsorted links is coherent, but its copy has another
   CID, unless the hash collides on the two orders.
   */
  lemma {:induction false} CopyCanChangeCid(k: Codec, d: Bytes, ls: seq<Link>, p: Prefix)
    requires Inverts(k) && Sorted(ls) != ls && p.codec == DAG_PROTOBUF
    ensures k.parse(k.marshal(d, ls)) == Parsed(d, ls)
    ensures var s := DecodedFrom(k, k.marshal(d, ls), p);
            && Coherent(k, s)
            && (CidOn(k, CopyOf(s)).cached == CidOn(k, s).cached
                <==> Collide(k, p, k.marshal(d, ls), k.marshal(d, Sorted(ls))))
  {
    assert k.parse(k.marshal(d, ls)) == Parsed(d, ls);
    assert k.parse(k.marshal(d, Sorted(ls))) == Parsed(d, Sorted(ls));
    SortedTwice(ls);
    CopyCid(k, DecodedFrom(k, k.marshal(d, ls), p));
  }

  /** For instance, a node whose block lists "b" before "a". */
  lemma {:induction false} CopyOfUnsorted(k: Codec, d: Bytes, c: Cid, p: Prefix)
    requires Inverts(k) && p.codec == DAG_PROTOBUF
    requires var a, b := Link("a", c), Link("b", c); !Collide(k, p, k.marshal(d, [b, a]), k.marshal(d, [a, b]))
    ensures var bytes := k.marshal(d, [Link("b", c), Link("a", c)]);
            && k.parse(bytes).Parsed? && Coherent(k, DecodedFrom(k, bytes, p))
            && CidOn(k, CopyOf(DecodedFrom(k, bytes, p))).cached != CidOn(k, DecodedFrom(k, bytes, p)).cached
  {
    var a, b := Link("a", c), Link("b", c);
    assert Sorted([b, a]) == [a, b] by {
      assert !StrLe("b", "a");
      assert [b, a][1..] == [a] && [a][1..] == [];
      assert StableSort([a], LinkName) == Insert(a, StableSort([], LinkName), LinkName) == [a];
      assert Insert(b, [a], LinkName) == [a] + Insert(b, [], LinkName);
    }
    CopyCanChangeCid(k, d, [b, a], p);
  }

  // ----- Nodes that are written before they are encoded -----

  predicate Writes(op: Op) {
    op.SetLinks? || op.SetData? || op.AddLink? || op.RemoveLink?
  }

  /**
   As long as nothing asks for the bytes or the CID, replacing links and overwriting single
   links is as safe as the other writes.
   */
  lemma {:induction false} WritesBeforeEncoding(k: Codec, s: NodeState, ops: seq<Op>)
    requires Inverts(k) && s.encoded.None?
    requires forall i :: 0 <= i < |ops| ==> Writes(ops[i])
    ensures var t := Run(k, s, ops);
            && t.encoded.None? && t.prefix == s.prefix
            && CidOn(k, t).cached == Some(k.sum(Defaulted(s.prefix), k.marshal(t.data, Sorted(t.links))))
    decreases |ops|
  {
    if ops == [] {
    } else {
      WritesBeforeEncoding(k, s, ops[..|ops| - 1]);
    }
  }

  function LinkWrites(stages: seq<seq<Link>>): seq<Op> {
    seq(|stages|, i requires 0 <= i < |stages| => SetLinks(stages[i]))
  }

  /**
   How a node of a pin set is filled: its empty slots and its header are set, then its items
   are appended and its slots overwritten one by one. `stages` are the link lists on the way.
   The CID, asked for only afterwards, is that of the last list.
   */
  lemma {:induction false} SlotWritesCount(k: Codec, slots: seq<Link>, header: Bytes, stages: seq<seq<Link>>)
    requires Inverts(k)
    ensures var t := Run(k, NEW_NODE, [SetLinks(slots), SetData(header)] + LinkWrites(stages));
            var last := if stages == [] then slots else stages[|stages| - 1];
            && t.links == last && t.encoded.None?
            && CidOn(k, t).cached == Some(k.sum(V0_PREFIX, k.marshal(header, Sorted(last))))
  {
    var ops := [SetLinks(slots), SetData(header)] + LinkWrites(stages);
    WritesBeforeEncoding(k, NEW_NODE, ops);
    FilledWith(k, slots, header, stages);
  }

  lemma {:induction false} FilledWith(k: Codec, slots: seq<Link>, header: Bytes, stages: seq<seq<Link>>)
    ensures var t := Run(k, NEW_NODE, [SetLinks(slots), SetData(header)] + LinkWrites(stages));
            t.data == header && t.links == if stages == [] then slots else stages[|stages| - 1]
    decreases |stages|
  {
    var ops := [SetLinks(slots), SetData(header)] + LinkWrites(stages);
    if stages == [] {
      assert ops[..1] == [SetLinks(slots)] && ops[..1][..0] == [];
      assert Run(k, NEW_NODE, ops[..1]) == Step(k, Run(k, NEW_NODE, []), SetLinks(slots));
      assert ops[|ops| - 1] == SetData(header) && |ops| == 2;
    } else {
      var front := stages[..|stages| - 1];
      FilledWith(k, slots, header, front);
      assert ops[..|ops| - 1] == [SetLinks(slots), SetData(header)] + LinkWrites(front);
    }
  }

  // ----- The node object -----

  class ProtoNode {
    var links: seq<Link>
    var data: Bytes
    var encoded: Option<Bytes>
    var cached: Option<Bytes>
    var prefix: Prefix
    const codec: Codec

    ghost function State(): NodeState
      reads this
    {
      NodeState(links, data, encoded, cached, prefix)
    }

    constructor (codec: Codec, data: Bytes)
      ensures State() == NodeState([], data, None, None, UNSET) && this.codec == codec
      ensures Coherent(codec, State())
    {
      links, this.data, encoded, cached, prefix, this.codec := [], data, None, None, UNSET, codec;
    }

    /** Fills the node from encoded bytes. A bad link hash makes it fail after the links were replaced. */
    method Unmarshal(bytes: Bytes) returns (ok: bool)
      modifies this
      ensures ok <==> codec.parse(bytes).Parsed?
      ensures match codec.parse(bytes)
              case Malformed => State() == old(State())
              case BadHash(before) => State() == old(State()).(links := before)
              case Parsed(d, ls) =>
                && State() == old(State()).(encoded := Some(bytes), data := d, links := Sorted(ls))
                && (old(cached).None? ==> Coherent(codec, State()))
    {
      match codec.parse(bytes)
      case Malformed =>
        ok := false;
      case BadHash(before) =>
        links := before;
        ok := false;
      case Parsed(d, ls) =>
        SortedTwice(ls);
        links := Sorted(ls);
        data := d;
        encoded := Some(bytes);
        ok := true;
    }

    /** The new node trusts the block's CID `c`, so it is coherent exactly when the bytes hash to it. */
    static method DecodeProtobufBlock(codec: Codec, bytes: Bytes, c: Bytes, prefix: Prefix) returns (n: ProtoNode?)
      ensures n == null <==> prefix.codec != DAG_PROTOBUF || !codec.parse(bytes).Parsed?
      ensures n != null ==>
                && fresh(n) && n.codec == codec
                && n.State() == DecodedFrom(codec, bytes, prefix).(cached := Some(c))
                && (Coherent(codec, n.State()) <==> c == codec.sum(prefix, bytes))
    {
      if prefix.codec != DAG_PROTOBUF {
        return null;
      }
      var node := new ProtoNode(codec, []);
      var ok := node.Unmarshal(bytes);
      if !ok {
        return null;
      }
      node.cached := Some(c);
      node.prefix := prefix;
      SortedTwice(codec.parse(bytes).links);
      n := node;
    }

    method SetPrefix(p: Option<Prefix>)
      modifies this
      ensures State() == SetPrefixOn(old(State()), p)
    {
      if p.None? {
        prefix := V0_PREFIX;
      } else {
        prefix := p.value;
        prefix := prefix.(codec := DAG_PROTOBUF);
        encoded := None;
        cached := None;
      }
    }

    method AddNodeLink(name: string, that: Cid)
      modifies this
      ensures State() == AddLinkOn(old(State()), Link(name, that))
    {
      encoded := None;
      links := links + [Link(name, that)];
    }

    method RemoveNodeLink(name: string) returns (found: bool)
      modifies this
      ensures State() == RemoveLinkOn(old(State()), name)
      ensures found <==> exists l :: l in old(links) && l.name == name
    {
      encoded := None;
      var good: seq<Link> := [];
      found := false;
      for i := 0 to |links|
        invariant links == old(links) && State() == old(State()).(encoded := None)
        invariant good == Filter(links[..i], LinkEdits.NotNamed(name))
        invariant found <==> exists l :: l in links[..i] && l.name == name
      {
        FilterStep(links, LinkEdits.NotNamed(name), i);
        assert links[..i + 1] == links[..i] + [links[i]];
        if links[i].name != name {
          good := good + [links[i]];
        } else {
          found := true;
          assert links[i] in links[..i + 1];
        }
      }
      assert links[..|links|] == links;
      links := good;
    }

    method GetNodeLink(name: string) returns (r: Option<Link>)
      ensures r == FindLink(links, name)
    {
      for i := 0 to |links|
        invariant FindLink(links, name) == FindLink(links[i..], name)
      {
        if links[i].name == name {
          return Some(links[i]);
        }
        assert links[i..][1..] == links[i + 1..];
      }
      r := None;
    }

    method SetData(d: Bytes)
      modifies this
      ensures State() == SetDataOn(old(State()), d)
    {
      encoded := None;
      cached := None;
      data := d;
    }

    method SetLinks(ls: seq<Link>)
      modifies this
      ensures State() == SetLinksOn(old(State()), ls)
    {
      links := ls;
    }

    method EncodeProtobuf(force: bool) returns (bytes: Bytes)
      modifies this
      ensures State() == EncodeOn(codec, old(State()), force) && encoded == Some(bytes)
    {
      links := Sorted(links);
      if encoded.None? || force {
        cached := None;
        encoded := Some(codec.marshal(data, links));
        SortedTwice(old(links));
      }
      if cached.None? {
        if prefix.codec == 0 {
          prefix := V0_PREFIX;
        }
        cached := Some(codec.sum(prefix, encoded.value));
      }
      bytes := encoded.value;
    }

    method GetCid() returns (c: Bytes)
      modifies this
      ensures State() == CidOn(codec, old(State())) && cached == Some(c)
    {
      if encoded.Some? && cached.Some? {
        return cached.value;
      }
      if prefix.codec == 0 {
        SetPrefix(None);
      }
      var bytes := EncodeProtobuf(false);
      c := codec.sum(prefix, bytes);
      cached := Some(c);
    }

    method Copy() returns (n: ProtoNode)
      ensures fresh(n) && n.codec == codec && n.State() == CopyOf(State())
    {
      n := new ProtoNode(codec, data);
      n.links := links;
      n.prefix := prefix;
    }

    /** A new node with the link set, whatever links of that name there were; this node is unchanged. */
    method UpdateNodeLink(name: string, that: Cid) returns (n: ProtoNode)
      ensures fresh(n) && n.codec == codec
      ensures n.State() == CopyOf(State()).(links := Filter(links, LinkEdits.NotNamed(name)) + [Link(name, that)])
      ensures forall x :: FindLink(n.links, x) == if x == name then Some(Link(name, that)) else FindLink(links, x)
    {
      n := Copy();
      var _ := n.RemoveNodeLink(name);
      n.AddNodeLink(name, that);
      forall x ensures FindLink(n.links, x) == if x == name then Some(Link(name, that)) else FindLink(links, x) {
        EditsResolve(State(), name, that, x);
        assert n.links == AddLinkOn(RemoveLinkOn(State(), name), Link(name, that)).links;
      }
    }
  }
}
