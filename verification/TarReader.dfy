/**
 The tar export reader. It produces the archive piece by piece while it walks the
 DAG; the theorem is that the pieces, whatever the buffer sizes, join up to the
 flat serialization of the tree.

 Records are padded to 512 bytes, as in the "ustar Interchange Format" section of
 the pax utility in POSIX.1-2017.
 */
module TarExport {
  import opened Dag
  import opened DagServices

  const BLOCK_SIZE := 512

  /** The bytes of the file below a data node; None if it is not a file. */
  type Content = Cid -> Option<Bytes>

  function Zeros(n: nat): Bytes {
    seq(n, _ => 0)
  }

  function PadLen(n: nat): nat {
    (BLOCK_SIZE - n % BLOCK_SIZE) % BLOCK_SIZE
  }

  /** The padding fills up the last record, and is never a whole one. */
  lemma {:induction false} PadFillsRecord(n: nat)
    ensures (n + PadLen(n)) % 512 == 0 && PadLen(n) < 512
    ensures n + PadLen(n) == (n + 511) / 512 * 512
  {
    var q, r := n / BLOCK_SIZE, n % BLOCK_SIZE;
    assert n == q * BLOCK_SIZE + r;
    if r == 0 {
      assert (n + BLOCK_SIZE - 1) / BLOCK_SIZE == q;
    } else {
      assert n + PadLen(n) == (q + 1) * BLOCK_SIZE;
      assert (n + BLOCK_SIZE - 1) / BLOCK_SIZE == q + 1;
    }
  }

  function FileBytes(content: Content, c: Cid): Bytes {
    if content(c).Some? then content(c).value else []
  }

  /** The archive of a list of entries. */
  function Flat(content: Content, ls: seq<Link>): Bytes
    decreases ls, 0
  {
    if ls == [] then [] else FlatEntry(content, ls[0].cid) + Flat(content, ls[1..])
  }

  /** A header, then the padded file, or else the entries below. */
  function FlatEntry(content: Content, c: Cid): Bytes
    decreases c, 1
  {
    c.block.data + FlatBody(content, c)
  }

  function FlatBody(content: Content, c: Cid): Bytes
    decreases c, 0
  {
    if c.block.RawNode? then []
    else
      match FindLink(c.block.links, "data")
      case Some(l) => FileBytes(content, l.cid) + Zeros(PadLen(|FileBytes(content, l.cid)|))
      case None => Flat(content, c.block.links)
  }

  // ----- The archive, read back -----

  /** An entry of an archive: its header and the bytes of its file, if it has one. */
  datatype Entry = Entry(header: Bytes, file: Bytes)

  /** The entries in the order of the walk: each before those below it. */
  function Entries(content: Content, ls: seq<Link>): seq<Entry>
    decreases ls, 0
  {
    if ls == [] then [] else EntriesAt(content, ls[0].cid) + Entries(content, ls[1..])
  }

  function EntriesAt(content: Content, c: Cid): seq<Entry>
    decreases c, 0
  {
    if c.block.RawNode? then [Entry(c.block.data, [])]
    else
      match FindLink(c.block.links, "data")
      case Some(l) => [Entry(c.block.data, FileBytes(content, l.cid))]
      case None => [Entry(c.block.data, [])] + Entries(content, c.block.links)
  }

  /** Reads the header at the front of the bytes: its own length and the length of the file after it. */
  type HeaderReader = Bytes -> Option<(nat, nat)>

  predicate AllZero(bytes: Bytes) {
    forall i :: 0 <= i < |bytes| ==> bytes[i] == 0
  }

  /** The entries that a reader of archives finds. There have to be zeros after a file, up to a multiple of 512. */
  function Parse(read: HeaderReader, bytes: Bytes): Option<seq<Entry>>
    decreases |bytes|
  {
    if bytes == [] then Some([])
    else
      match read(bytes)
      case None => None
      case Some((len, size)) =>
        var next := len + (size + 511) / 512 * 512;
        if len == 0 || len + size > |bytes| || next > |bytes| || !AllZero(bytes[len + size..next]) then None
        else
          match Parse(read, bytes[next..])
          case None => None
          case Some(es) => Some([Entry(bytes[..len], bytes[len..len + size])] + es)
  }

  /** The header is read right wherever it stands in an archive, and takes whole records. */
  ghost predicate ReadsHeader(read: HeaderReader, e: Entry) {
    && |e.header| > 0 && |e.header| % BLOCK_SIZE == 0
    && forall more: Bytes :: read(e.header + more) == Some((|e.header|, |e.file|))
  }

  ghost predicate ReadsHeaders(read: HeaderReader, es: seq<Entry>) {
    forall i :: 0 <= i < |es| ==> ReadsHeader(read, es[i])
  }

  /** One entry of an archive: the header, the file, and zeros up to the next record. */
  function Record(e: Entry): Bytes {
    e.header + e.file + Zeros(PadLen(|e.file|))
  }

  function Records(es: seq<Entry>): Bytes {
    if es == [] then [] else Record(es[0]) + Records(es[1..])
  }

  lemma {:induction false} RecordsAppend(xs: seq<Entry>, ys: seq<Entry>)
    ensures Records(xs + ys) == Records(xs) + Records(ys)
  {
    if xs == [] {
      assert xs + ys == ys;
    } else {
      RecordsAppend(xs[1..], ys);
      assert (xs + ys)[1..] == xs[1..] + ys && (xs + ys)[0] == xs[0];
    }
  }

  lemma {:induction false} NoFile(header: Bytes)
    ensures Record(Entry(header, [])) == header
  {
  }

  /** The archive is the records of its entries, one after the other. */
  lemma {:induction false} FlatIsRecords(content: Content, ls: seq<Link>)
    ensures Flat(content, ls) == Records(Entries(content, ls))
    decreases ls, 0
  {
    if ls == [] {
    } else {
      FlatIsRecords(content, ls[1..]);
      EntryIsRecords(content, ls[0].cid);
      RecordsAppend(EntriesAt(content, ls[0].cid), Entries(content, ls[1..]));
    }
  }

  lemma {:induction false} EntryIsRecords(content: Content, c: Cid)
    ensures FlatEntry(content, c) == Records(EntriesAt(content, c))
    decreases c, 0
  {
    NoFile(c.block.data);
    if c.block.RawNode? || FindLink(c.block.links, "data").Some? {
      assert EntriesAt(content, c)[1..] == [];
    } else {
      var es := Entries(content, c.block.links);
      FlatIsRecords(content, c.block.links);
      assert ([Entry(c.block.data, [])] + es)[1..] == es;
    }
  }

  /** How many records of 512 bytes the entries take. */
  function Blocks(es: seq<Entry>): nat {
    if es == [] then 0 else |es[0].header| / 512 + (|es[0].file| + 511) / 512 + Blocks(es[1..])
  }

  /** Whole records make an archive of whole records. */
  lemma {:induction false} RecordsAreWhole(read: HeaderReader, es: seq<Entry>)
    requires ReadsHeaders(read, es)
    ensures |Records(es)| == 512 * Blocks(es)
  {
    if es == [] {
    } else {
      RecordsAreWhole(read, es[1..]);
      PadFillsRecord(|es[0].file|);
      assert ReadsHeader(read, es[0]) && |es[0].header| == 512 * (|es[0].header| / 512);
    }
  }

  /**
   The export can be read back: a reader that understands the headers finds every entry, in
   the order of the walk, with the bytes of its file.
   */
  lemma {:induction false} ExportReadsBack(content: Content, ls: seq<Link>, read: HeaderReader)
    requires ReadsHeaders(read, Entries(content, ls))
    ensures Parse(read, Flat(content, ls)) == Some(Entries(content, ls))
    ensures |Flat(content, ls)| == 512 * Blocks(Entries(content, ls))
  {
    FlatIsRecords(content, ls);
    ParseRecords(read, Entries(content, ls));
    RecordsAreWhole(read, Entries(content, ls));
  }

  lemma {:induction false} ParseRecords(read: HeaderReader, es: seq<Entry>)
    requires ReadsHeaders(read, es)
    ensures Parse(read, Records(es)) == Some(es)
    decreases |es|
  {
    if es == [] {
    } else {
      var e, more := es[0], Records(es[1..]);
      ParseRecords(read, es[1..]);
      PadFillsRecord(|e.file|);
      RecordParts(e, more);
      assert ReadsHeader(read, e);
      assert read(e.header + (e.file + Zeros(PadLen(|e.file|)) + more)) == Some((|e.header|, |e.file|));
      ParseStep(read, Record(e) + more, e, |Record(e)|, es[1..]);
      assert es == [e] + es[1..];
    }
  }

  lemma {:induction false} ParseStep(read: HeaderReader, bytes: Bytes, e: Entry, next: nat, es: seq<Entry>)
    requires 0 < |e.header| && |e.header| + |e.file| <= next <= |bytes|
    requires next == |e.header| + (|e.file| + 511) / 512 * 512 && read(bytes) == Some((|e.header|, |e.file|))
    requires bytes[..|e.header|] == e.header && bytes[|e.header|..|e.header| + |e.file|] == e.file
    requires AllZero(bytes[|e.header| + |e.file|..next]) && Parse(read, bytes[next..]) == Some(es)
    ensures Parse(read, bytes) == Some([e] + es)
  {
  }

  lemma {:induction false} RecordParts(e: Entry, more: Bytes)
    ensures var bytes := Record(e) + more;
            && bytes == e.header + (e.file + Zeros(PadLen(|e.file|)) + more)
            && bytes[..|e.header|] == e.header
            && bytes[|e.header|..|e.header| + |e.file|] == e.file
            && AllZero(bytes[|e.header| + |e.file|..|Record(e)|])
            && bytes[|Record(e)|..] == more
  {
  }

  // ----- What the reader needs -----

  /** Every block the export reads is there and of the right kind. */
  predicate Exportable(content: Content, ls: seq<Link>, store: set<Cid>)
    decreases ls, 0
  {
    ls == [] || (ExportableEntry(content, ls[0].cid, store) && Exportable(content, ls[1..], store))
  }

  predicate ExportableEntry(content: Content, c: Cid, store: set<Cid>)
    decreases c, 0
  {
    && c in store && c.block.ProtoNode?
    && match FindLink(c.block.links, "data")
       case Some(l) => l.cid in store && l.cid.block.ProtoNode? && content(l.cid).Some?
       case None => Exportable(content, c.block.links, store)
  }

  /** A bound on the reads still needed: one for each byte and for each end that is noticed. */
  function Work(content: Content, ls: seq<Link>): nat
    decreases ls, 0
  {
    if ls == [] then 0 else WorkEntry(content, ls[0].cid) + Work(content, ls[1..])
  }

  function WorkEntry(content: Content, c: Cid): nat
    decreases c, 1
  {
    |c.block.data| + 2 + WorkBody(content, c)
  }

  function WorkBody(content: Content, c: Cid): nat
    decreases c, 0
  {
    if c.block.RawNode? then 0
    else
      match FindLink(c.block.links, "data")
      case Some(l) => FileWork(FileBytes(content, l.cid), 0)
      case None => Work(content, c.block.links) + 1
  }

  function FileWork(rest: Bytes, n: nat): nat {
    |rest| + PadLen(n + |rest|) + 1
  }

  /** The file reader and the count of bytes it has given. */
  datatype CountReader = CountReader(rest: Bytes, n: nat)

  datatype Status = Ok | EOF | Failed

  /** What is left of the current entry and the later ones. */
  function Rest(hdr: Option<Bytes>, child: Bytes, file: Option<CountReader>, pad: nat, tail: Bytes): Bytes {
    (if hdr.Some? then hdr.value else []) + child + FileRest(file) + Zeros(pad) + tail
  }

  function FileRest(file: Option<CountReader>): Bytes {
    if file.None? then [] else file.value.rest + Zeros(PadLen(file.value.n + |file.value.rest|))
  }

  lemma {:induction false} RestAfterHeader(
      buf: Bytes, k: nat, child: Bytes, file: Option<CountReader>, pad: nat, tail: Bytes)
    requires k <= |buf|
    ensures buf[..k] + Rest(Some(buf[k..]), child, file, pad, tail) == Rest(Some(buf), child, file, pad, tail)
    ensures buf == [] ==> Rest(None, child, file, pad, tail) == Rest(Some(buf), child, file, pad, tail)
  {
    var more := child + FileRest(file) + Zeros(pad) + tail;
    assert Rest(Some(buf), child, file, pad, tail) == buf + more;
    assert Rest(Some(buf[k..]), child, file, pad, tail) == buf[k..] + more;
    SplitThenJoin(buf, k, more);
  }

  lemma {:induction false} SplitThenJoin(xs: Bytes, k: nat, more: Bytes)
    requires k <= |xs|
    ensures xs[..k] + (xs[k..] + more) == xs + more
  {
  }

  lemma {:induction false} RestAfterFile(f: CountReader, k: nat, tail: Bytes)
    requires k <= |f.rest|
    ensures f.rest[..k] + Rest(None, [], Some(CountReader(f.rest[k..], f.n + k)), 0, tail) ==
            Rest(None, [], Some(f), 0, tail)
  {
    var f' := CountReader(f.rest[k..], f.n + k);
    assert f'.n + |f'.rest| == f.n + |f.rest|;
    SplitThenJoin(f.rest, k, Zeros(PadLen(f.n + |f.rest|)) + tail);
  }

  /** At the end of the file, the padding takes its place. */
  lemma {:induction false} RestAtFileEnd(n: nat, tail: Bytes)
    ensures Rest(None, [], None, PadLen(n), tail) == Rest(None, [], Some(CountReader([], n)), 0, tail)
  {
    var zeros := Zeros(PadLen(n));
    assert FileRest(Some(CountReader([], n))) == zeros;
    assert Rest(None, [], None, PadLen(n), tail) == zeros + tail;
    assert Rest(None, [], Some(CountReader([], n)), 0, tail) == zeros + tail;
  }

  lemma {:induction false} RestOfEntry(content: Content, ls: seq<Link>)
    requires ls != []
    ensures Rest(None, [], None, 0, Flat(content, ls)) ==
            ls[0].cid.block.data + (FlatBody(content, ls[0].cid) + Flat(content, ls[1..]))
    ensures Work(content, ls) == |ls[0].cid.block.data| + 2 + WorkBody(content, ls[0].cid) + Work(content, ls[1..])
  {
    var c, tail := ls[0].cid, Flat(content, ls[1..]);
    assert Flat(content, ls) == (c.block.data + FlatBody(content, c)) + tail;
    assert (c.block.data + FlatBody(content, c)) + tail == c.block.data + (FlatBody(content, c) + tail);
  }

  lemma {:induction false} RestWithHeader(hdr: Bytes, child: Bytes, file: Option<CountReader>, pad: nat, tail: Bytes)
    ensures Rest(Some(hdr), child, file, pad, tail) == hdr + Rest(None, child, file, pad, tail)
  {
    var more := child + FileRest(file) + Zeros(pad) + tail;
    assert Rest(Some(hdr), child, file, pad, tail) == hdr + more;
    assert Rest(None, child, file, pad, tail) == more;
  }

  lemma {:induction false} RestInChild(child: Bytes, tail: Bytes)
    ensures Rest(None, child, None, 0, tail) == child + tail
  {
  }

  lemma {:induction false} FileStepsDecrease(f: CountReader, k: nat)
    requires k <= |f.rest|
    ensures FileWork(f.rest[k..], f.n + k) == FileWork(f.rest, f.n) - k
    ensures k == |f.rest| ==> PadLen(f.n + k) + 1 + k == FileWork(f.rest, f.n)
    ensures PadLen(f.n + k) < BLOCK_SIZE
  {
    assert f.n + k + |f.rest[k..]| == f.n + |f.rest|;
  }

  lemma {:induction false} RestAfterChild(out: Bytes, child: Bytes, before: Bytes, pad: nat, tail: Bytes)
    requires out + child == before
    ensures out + Rest(None, child, None, pad, tail) == Rest(None, before, None, pad, tail)
  {
    assert Rest(None, child, None, pad, tail) == child + (Zeros(pad) + tail);
    assert Rest(None, before, None, pad, tail) == before + (Zeros(pad) + tail);
    assert out + (child + (Zeros(pad) + tail)) == (out + child) + (Zeros(pad) + tail);
  }

  function HeaderSteps(buf: Option<Bytes>): nat {
    if buf.Some? then |buf.value| + 1 else 0
  }

  function FileSteps(file: Option<CountReader>): nat {
    if file.Some? then FileWork(file.value.rest, file.value.n) else 0
  }

  class TarReader {
    var links: seq<Link>
    var childRead: TarReader?
    var hdrBuf: Option<Bytes>
    var fileRead: Option<CountReader>
    var pad: nat
    const ds: DagService
    const content: Content
    ghost var Repr: set<object>

    constructor (links: seq<Link>, ds: DagService, content: Content)
      ensures Valid() && fresh(Repr) && this.ds == ds && this.content == content
      ensures Remaining() == Flat(content, links) && Steps() == Work(content, links)
      ensures Readable() <==> Exportable(content, links, ds.blocks)
    {
      this.links, this.ds, this.content := links, ds, content;
      childRead, hdrBuf, fileRead, pad := null, None, None, 0;
      Repr := {this};
    }

    ghost predicate Valid()
      reads this, Repr
      decreases Repr
    {
      && this in Repr && ds !in Repr
      && (childRead != null ==>
            && childRead in Repr && childRead.Repr < Repr && this !in childRead.Repr
            && childRead.ds == ds && childRead.content == content && childRead.Valid()
            && fileRead.None?)
      && pad < BLOCK_SIZE && (pad > 0 ==> fileRead.None? && childRead == null && hdrBuf.None?)
    }

    /** The bytes still to come. */
    ghost function Remaining(): Bytes
      requires Valid()
      reads this, Repr
      decreases Repr
    {
      Rest(hdrBuf, if childRead != null then childRead.Remaining() else [], fileRead, pad, Flat(content, links))
    }

    ghost function Steps(): nat
      requires Valid()
      reads this, Repr
      decreases Repr
    {
      HeaderSteps(hdrBuf)
      + (if childRead != null then childRead.Steps() + 1 else 0)
      + FileSteps(fileRead)
      + pad + Work(content, links)
    }

    ghost predicate Readable()
      requires Valid()
      reads this, Repr, ds
      decreases Repr
    {
      (childRead != null ==> childRead.Readable()) && Exportable(content, links, ds.blocks)
    }

    /** What is left while a nested reader is at work. */
    lemma {:induction false} WithChild()
      requires Valid() && hdrBuf.None? && childRead != null
      ensures fileRead.None? && pad == 0
      ensures Remaining() == Rest(None, childRead.Remaining(), None, 0, Flat(content, links))
      ensures Steps() == childRead.Steps() + 1 + Work(content, links)
      ensures Readable() <==> childRead.Readable() && Exportable(content, links, ds.blocks)
    {
    }

    /** What is left in a file, in its padding, or between two entries. */
    lemma {:induction false} WithoutChild()
      requires Valid() && hdrBuf.None? && childRead == null
      ensures Remaining() == Rest(None, [], fileRead, pad, Flat(content, links))
      ensures Steps() == FileSteps(fileRead) + pad + Work(content, links)
      ensures Readable() <==> Exportable(content, links, ds.blocks)
    {
    }

    /** Reading from the header buffer: a byte buffer that reports its end separately. */
    method ReadHeader(n: nat) returns (out: Bytes)
      requires Valid() && hdrBuf.Some?
      modifies this`hdrBuf
      ensures Valid() && |out| <= n && out + Remaining() == old(Remaining())
      ensures Steps() <= old(Steps()) && (n > 0 ==> Steps() < old(Steps()))
      ensures Readable() == old(Readable())
    {
      var buf := hdrBuf.value;
      var k := if n < |buf| then n else |buf|;
      ghost var nested := if childRead != null then childRead.Remaining() else [];
      RestAfterHeader(buf, k, nested, fileRead, pad, Flat(content, links));
      if buf == [] {
        SetBuffer(None);
        return [];
      }
      out := buf[..k];
      SetBuffer(Some(buf[k..]));
    }

    /** Only the header part of what is left changes. */
    method SetBuffer(buf: Option<Bytes>)
      requires Valid() && pad == 0
      modifies this`hdrBuf
      ensures Valid() && hdrBuf == buf
      ensures Remaining() == Rest(buf, if childRead != null then childRead.Remaining() else [], fileRead, pad,
                                  Flat(content, links))
      ensures childRead != null ==> childRead.Remaining() == old(childRead.Remaining())
      ensures Steps() - HeaderSteps(buf) == old(Steps()) - HeaderSteps(old(hdrBuf))
      ensures Readable() == old(Readable())
    {
      hdrBuf := buf;
    }

    /** Reading file bytes: at least one when there is room and a byte left; the end may come with the last bytes. */
    method ReadFile(n: nat) returns (out: Bytes)
      requires Valid() && hdrBuf.None? && childRead == null && fileRead.Some?
      modifies this`fileRead, this`pad
      ensures Valid() && |out| <= n && out + Remaining() == old(Remaining())
      ensures Steps() <= old(Steps()) && (n > 0 ==> Steps() < old(Steps()))
      ensures Readable() == old(Readable())
    {
      WithoutChild();
      var f := fileRead.value;
      var k: nat :| k <= n && k <= |f.rest| && (n > 0 && f.rest != [] ==> k > 0);
      var eof: bool := *;
      out := f.rest[..k];
      var f' := CountReader(f.rest[k..], f.n + k);
      RestAfterFile(f, k, Flat(content, links));
      RestAtFileEnd(f'.n, Flat(content, links));
      FileStepsDecrease(f, k);
      if f'.rest == [] && (eof || k == 0) {
        pad := PadLen(f'.n);
        fileRead := None;
      } else {
        fileRead := Some(f');
      }
      WithoutChild();
    }

    method ReadPad(n: nat) returns (out: Bytes)
      requires Valid() && pad > 0
      modifies this`pad
      ensures Valid() && |out| <= n && out + Remaining() == old(Remaining())
      ensures Steps() <= old(Steps()) && (n > 0 ==> Steps() < old(Steps()))
      ensures Readable() == old(Readable())
    {
      var k := if n < pad then n else pad;
      out := Zeros(k);
      pad := pad - k;
    }

    ghost predicate BetweenEntries()
      reads this
    {
      hdrBuf.None? && childRead == null && fileRead.None? && pad == 0
    }

    /** The header goes in front of whatever body the entry has. */
    method SetHeader(hdr: Bytes)
      requires Valid() && hdrBuf.None? && pad == 0
      modifies this`hdrBuf
      ensures Valid() && hdrBuf.Some? && Remaining() == hdr + old(Remaining())
      ensures Steps() == old(Steps()) + |hdr| + 1
      ensures Readable() == old(Readable())
    {
      SetBuffer(Some(hdr));
      RestWithHeader(hdr, if childRead != null then childRead.Remaining() else [], fileRead, pad, Flat(content, links));
    }

    method StartFile(file: Bytes)
      requires Valid() && BetweenEntries()
      modifies this`fileRead
      ensures Valid() && hdrBuf.None? && pad == 0
      ensures Remaining() == (file + Zeros(PadLen(|file|))) + Flat(content, links)
      ensures Steps() == FileWork(file, 0) + Work(content, links)
      ensures Readable() == old(Readable())
    {
      fileRead := Some(CountReader(file, 0));
    }

    method StartDir(entries: seq<Link>)
      requires Valid() && BetweenEntries()
      modifies this`childRead, this`Repr
      ensures Valid() && hdrBuf.None? && pad == 0 && fresh(Repr - old(Repr))
      ensures Remaining() == Flat(content, entries) + Flat(content, links)
      ensures Steps() == 1 + Work(content, entries) + Work(content, links)
      ensures Readable() <==> old(Readable()) && Exportable(content, entries, ds.blocks)
    {
      var child := new TarReader(entries, ds, content);
      childRead := child;
      Repr := Repr + child.Repr;
      RestInChild(Flat(content, entries), Flat(content, links));
    }

    /** Sets up the file or the nested reader of an entry. */
    method StartBody(next: Cid) returns (ok: bool)
      requires Valid() && BetweenEntries() && next in ds.blocks && next.block.ProtoNode?
      modifies this`fileRead, this`childRead, this`Repr
      ensures Valid() && hdrBuf.None? && pad == 0 && fresh(Repr - old(Repr))
      ensures ok ==> Remaining() == FlatBody(content, next) + Flat(content, links)
      ensures ok ==> Steps() <= WorkBody(content, next) + Work(content, links)
      ensures !ok ==> !ExportableEntry(content, next, ds.blocks)
      ensures ok ==> (Readable() <==> old(Readable()) && ExportableEntry(content, next, ds.blocks))
    {
      var data := FindLink(next.block.links, "data");
      if data.None? {
        if next.block.links != [] {
          StartDir(next.block.links);
        } else {
          RestInChild([], Flat(content, links));
        }
        return true;
      }
      var nd := data.value.cid;
      if nd !in ds.blocks || nd.block.RawNode? || content(nd).None? {
        return false;
      }
      StartFile(content(nd).value);
      ok := true;
    }

    /** Starts on the next entry. On a failure the entry is lost. */
    method NextEntry() returns (ok: bool)
      requires Valid() && BetweenEntries() && links != []
      modifies this
      ensures Valid() && fresh(Repr - old(Repr))
      ensures ok ==> hdrBuf.Some? && Remaining() == old(Remaining()) && Steps() < old(Steps())
      ensures if ok then Readable() == old(Readable()) else !old(Readable())
    {
      var next := links[0].cid;
      RestOfEntry(content, links);
      assert Readable() <==> ExportableEntry(content, next, ds.blocks) && Exportable(content, links[1..], ds.blocks);
      links := links[1..];
      if next !in ds.blocks || next.block.RawNode? { return false; }
      ok := StartBody(next);
      SetHeader(next.block.data);
    }

    /**
     One call of Read with room for `n` bytes. Unless it fails, what it returns and
     what is left are together what was left before; with a positive `n` it also
     makes progress. It reports the end only when nothing is left to come. A call that
     fails shows that some block is missing or of the wrong kind, and one that does not
     fail leaves open exactly as before whether this will show.
     */
    method Read(n: nat) returns (out: Bytes, status: Status)
      requires Valid()
      modifies Repr
      ensures Valid() && fresh(Repr - old(Repr)) && |out| <= n
      ensures status != Failed ==> out + Remaining() == old(Remaining())
      ensures status == EOF ==> out == [] && old(Remaining()) == []
      ensures status == Ok && n > 0 ==> Steps() < old(Steps())
      ensures status == EOF ==> Steps() <= old(Steps()) && Readable()
      ensures if status == Failed then !old(Readable()) else Readable() == old(Readable())
      decreases Repr, 2
    {
      if hdrBuf.Some? {
        out := ReadHeader(n);
        return out, Ok;
      }
      if childRead != null {
        out, status := ReadChild(n);
        return;
      }
      if fileRead.Some? {
        out := ReadFile(n);
        return out, Ok;
      }
      if pad > 0 {
        out := ReadPad(n);
        return out, Ok;
      }
      if links == [] {
        return [], EOF;
      }
      var ok := NextEntry();
      if !ok {
        return [], Failed;
      }
      out := ReadHeader(n);
      status := Ok;
    }

    /** The end of the nested reader is not the end of this one. */
    method ReadChild(n: nat) returns (out: Bytes, status: Status)
      requires Valid() && hdrBuf.None? && childRead != null
      modifies Repr
      ensures Valid() && fresh(Repr - old(Repr)) && |out| <= n
      ensures status == Ok ==> out + Remaining() == old(Remaining()) && (n > 0 ==> Steps() < old(Steps()))
      ensures status != EOF
      ensures if status == Failed then !old(Readable()) else Readable() == old(Readable())
      decreases Repr, 1
    {
      out, status := ReadNested(n);
      if status == EOF {
        DropChild();
        status := Ok;
      }
    }

    method ReadNested(n: nat) returns (out: Bytes, status: Status)
      requires Valid() && hdrBuf.None? && childRead != null
      modifies Repr
      ensures Valid() && fresh(Repr - old(Repr)) && |out| <= n
      ensures status != Failed ==> out + Remaining() == old(Remaining())
      ensures status == Ok && n > 0 ==> Steps() < old(Steps())
      ensures status == EOF ==>
                && Steps() <= old(Steps())
                && childRead != null && childRead.Remaining() == [] && childRead.Readable()
      ensures if status == Failed then !old(Readable()) else Readable() == old(Readable())
      decreases Repr, 0
    {
      WithChild();
      ghost var before, steps := childRead.Remaining(), childRead.Steps();
      out, status := childRead.Read(n);
      ghost var after, stepsLeft := childRead.Remaining(), childRead.Steps();
      Adopt();
      WithChild();
      assert childRead.Remaining() == after && childRead.Steps() == stepsLeft;
      if status != Failed {
        RestAfterChild(out, after, before, 0, Flat(content, links));
      }
    }

    /** Takes over the objects that the nested reader has made. */
    ghost method Adopt()
      requires this in Repr && ds !in Repr && pad == 0 && fileRead.None? && hdrBuf.None?
      requires childRead != null && childRead.Valid() && this !in childRead.Repr && childRead in Repr
      requires childRead.ds == ds && childRead.content == content
      modifies this`Repr
      ensures Valid() && Repr == old(Repr) + childRead.Repr
      ensures childRead.Remaining() == old(childRead.Remaining()) && childRead.Steps() == old(childRead.Steps())
      ensures childRead.Readable() == old(childRead.Readable())
    {
      Repr := Repr + childRead.Repr;
    }

    method DropChild()
      requires Valid() && childRead != null && childRead.Remaining() == [] && childRead.Readable()
      modifies this`childRead
      ensures Valid() && Remaining() == old(Remaining()) && Steps() < old(Steps())
      ensures Readable() == old(Readable())
    {
      childRead := null;
    }
  }

  /** A reader over the archive, if the root is marked as one. */
  method ExportTar(root: Cid, ds: DagService, content: Content) returns (r: TarReader?)
    ensures r == null <==> root.block.data != TAR_MARK
    ensures r != null ==> r.Valid() && fresh(r.Repr) && r.Remaining() == Flat(content, NodeLinks(root.block))
    ensures r != null ==> (r.Readable() <==> Exportable(content, NodeLinks(root.block), ds.blocks))
    ensures r != null ==> r.ds == ds && r.content == content
  {
    if root.block.data != TAR_MARK { return null; }
    r := new TarReader(NodeLinks(root.block), ds, content);
  }

  /** "ipfs/tar" */
  const TAR_MARK: Bytes := [105, 112, 102, 115, 47, 116, 97, 114]

  /**
   The export as its consumer sees it: for every schedule of positive buffer sizes,
   reading until the end takes finitely many reads and gives exactly the flat
   serialization. It fails exactly when some block is missing or of the wrong kind.
   */
  method ReadAll(root: Cid, ds: DagService, content: Content, sizes: nat -> nat) returns (r: Option<Bytes>)
    requires root.block.data == TAR_MARK && forall i :: sizes(i) > 0
    ensures r.Some? <==> Exportable(content, NodeLinks(root.block), ds.blocks)
    ensures r.Some? ==> r.value == Flat(content, NodeLinks(root.block))
  {
    var tr := ExportTar(root, ds, content);
    ghost var total := Flat(content, NodeLinks(root.block));
    ghost var complete := Exportable(content, NodeLinks(root.block), ds.blocks);
    r := Drain(tr, sizes, total, complete);
  }

  method Drain(tr: TarReader, sizes: nat -> nat, ghost total: Bytes, ghost complete: bool) returns (r: Option<Bytes>)
    requires tr.Valid() && tr.Remaining() == total && complete == tr.Readable()
    requires forall i :: sizes(i) > 0
    modifies tr.Repr
    ensures r.Some? <==> complete
    ensures r.Some? ==> r.value == total
  {
    var got: Bytes := [];
    var i := 0;
    while true
      invariant tr.Valid() && fresh(tr.Repr - old(tr.Repr))
      invariant got + tr.Remaining() == total
      invariant complete == tr.Readable()
      decreases tr.Steps()
    {
      ghost var before := tr.Remaining();
      var out, status := tr.Read(sizes(i));
      if status == Failed { return None; }
      if status == EOF {
        assert got + before == got;
        return Some(got);
      }
      assert got + (out + tr.Remaining()) == (got + out) + tr.Remaining();
      i := i + 1;
      got := got + out;
    }
  }
}
