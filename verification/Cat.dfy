/**
 The byte range that `cat` selects from the concatenation of several files, computed
 in the 64-bit arithmetic of the program, over the reader of a file split into blocks.
 */
module CatCommand {
  import opened Dag

  newtype Int64 = x: int | -0x8000_0000_0000_0000 <= x < 0x8000_0000_0000_0000
  newtype Uint64 = x: int | 0 <= x < 0x1_0000_0000_0000_0000

  const INT64_LIMIT: nat := 0x8000_0000_0000_0000

  // ----- Files and seeking -----

  /** A raw block, or a node with its own data followed by its child blocks. */
  datatype File =
    | Raw(data: Bytes)
    | Blocks(data: Bytes, children: seq<File>)

  function Flat(f: File): Bytes {
    match f
    case Raw(data) => data
    case Blocks(data, children) => data + FlatAll(children)
  }

  function FlatAll(fs: seq<File>): Bytes {
    if fs == [] then [] else Flat(fs[0]) + FlatAll(fs[1..])
  }

  /** The offset is the end of a file whose last byte is in a child block. */
  predicate Rewinds(f: File, offset: int) {
    f.Blocks? && |f.data| < offset == |Flat(f)|
  }

  /** What is read from `offset` to the end. */
  function Tail(f: File, offset: nat): Bytes
    requires offset <= |Flat(f)|
  {
    if Rewinds(f, offset) then FlatAll(f.children) else Flat(f)[offset..]
  }

  lemma {:induction false} FlatAllSplit(fs: seq<File>, i: nat)
    requires i < |fs|
    ensures FlatAll(fs[i..]) == Flat(fs[i]) + FlatAll(fs[i + 1..])
  {
    assert fs[i..][1..] == fs[i + 1..];
  }

  /**
   What a reader gives after seeking: the rest of the file while the offset is inside it. From
   the end on no block is chosen, and the seek goes on in the first one with what is left of
   the offset. None is an error.
   */
  function AfterSeek(f: File, offset: nat): Option<Bytes> {
    match f
    case Raw(data) => Some(if offset <= |data| then data[offset..] else [])
    case Blocks(data, children) =>
      if offset <= |data| || offset < |Flat(f)| then Some(Flat(f)[offset..])
      else if children == [] then None
      else
        match AfterSeek(children[0], offset - |Flat(f)|)
        case None => None
        case Some(rest) => Some(rest + FlatAll(children[1..]))
  }

  /** Up to the end, and at the end of a file without child blocks, this is the rest of the file. */
  lemma {:induction false} SeekInside(f: File, offset: nat)
    requires offset <= |Flat(f)|
    ensures AfterSeek(f, offset) == Some(Tail(f, offset))
  {
    if Rewinds(f, offset) {
      assert f.children != [];
      assert AfterSeek(f.children[0], 0) == Some(Flat(f.children[0]));
    }
  }

  lemma {:induction false} TailInBlock(fs: seq<File>, i: nat, left: nat)
    requires i < |fs| && left < |Flat(fs[i])|
    ensures FlatAll(fs[i..])[left..] == Flat(fs[i])[left..] + FlatAll(fs[i + 1..])
    ensures AfterSeek(fs[i], left) == Some(Flat(fs[i])[left..])
  {
    FlatAllSplit(fs, i);
  }

  method Seek(f: File, offset: Int64) returns (rest: Option<Bytes>)
    requires |Flat(f)| < INT64_LIMIT
    ensures rest == if offset < 0 then None else AfterSeek(f, offset as nat)
    decreases f
  {
    if offset < 0 {
      return None;
    }
    match f
    case Raw(data) =>
      rest := Some(if offset as int <= |data| then data[offset..] else []);
    case Blocks(data, children) =>
      if offset == 0 {
        return Some(Flat(f));
      }
      if |data| as Int64 >= offset {
        assert Flat(f)[offset..] == data[offset..] + FlatAll(children);
        return Some(data[offset..] + FlatAll(children));
      }
      var left := offset - |data| as Int64;
      var pos := 0;
      var i := 0;
      assert children[0..] == children;
      while i < |children|
        invariant 0 <= i <= |children| && pos == 0
        invariant 0 <= left && |FlatAll(children[i..])| <= |Flat(f)|
        invariant |FlatAll(children[i..])| - left as int == |Flat(f)| - offset as int
        invariant left as int <= |FlatAll(children[i..])| ==> FlatAll(children[i..])[left..] == Flat(f)[offset..]
      {
        FlatAllSplit(children, i);
        if |Flat(children[i])| as Int64 > left {
          TailInBlock(children, i, left as nat);
          pos := i;
          break;
        }
        left := left - |Flat(children[i])| as Int64;
        i := i + 1;
      }
      if pos >= |children| {
        return None;
      }
      FlatAllSplit(children, pos);
      var within := Seek(children[pos], left);
      if within.None? {
        return None;
      }
      rest := Some(within.value + FlatAll(children[pos + 1..]));
  }

  // ----- The command -----

  /** What a path resolves to: a file, or nothing when it cannot be opened. */
  function Contents(f: Option<File>): Bytes {
    if f.Some? then Flat(f.value) else []
  }

  function Joined(files: seq<Option<File>>): Bytes {
    if files == [] then [] else Joined(files[..|files| - 1]) + Contents(files[|files| - 1])
  }

  function Concat(parts: seq<Bytes>): Bytes {
    if parts == [] then [] else Concat(parts[..|parts| - 1]) + parts[|parts| - 1]
  }

  function Min(a: nat, b: nat): nat {
    if a < b then a else b
  }

  /** Bytes [offset, offset + max) of `all`, clipped to its end; a negative `max` is no limit. */
  function Range(all: Bytes, offset: nat, max: int): Bytes {
    var from := Min(offset, |all|);
    all[from..if max < 0 then |all| else Min(from + max, |all|)]
  }

  /** File `i` has to be opened: a limit is not met by the files before it. */
  predicate Reached(files: seq<Option<File>>, offset: int, max: int, i: nat)
    requires i < |files|
  {
    max < 0 || (max > 0 && (offset < 0 || |Joined(files[..i])| - offset < max))
  }

  /** The offset falls exactly on the end of file `k`, and that file has bytes in child blocks. */
  predicate AtBlockEnd(files: seq<Option<File>>, offset: int, k: nat)
    requires k < |files|
  {
    && files[k].Some?
    && offset == |Joined(files[..k + 1])|
    && Rewinds(files[k].value, |Flat(files[k].value)|)
  }

  predicate NoBlockEnd(files: seq<Option<File>>, offset: int, n: nat)
    requires n <= |files|
  {
    forall k :: 0 <= k < n ==> !AtBlockEnd(files, offset, k)
  }

  /** No file that has to be opened is missing, and the offset can be sought in it. */
  predicate CanOpen(files: seq<Option<File>>, offset: int, max: int) {
    forall i :: 0 <= i < |files| && Reached(files, offset, max, i) ==> files[i].Some? && offset >= 0
  }

  predicate AllOpened(files: seq<Option<File>>, n: nat)
    requires n <= |files|
  {
    forall i :: 0 <= i < n ==> files[i].Some?
  }

  lemma {:induction false} JoinedStep(files: seq<Option<File>>, i: nat)
    requires i < |files|
    ensures Joined(files[..i + 1]) == Joined(files[..i]) + Contents(files[i])
  {
    assert files[..i + 1][..i] == files[..i];
  }

  lemma {:induction false} JoinedPrefix(files: seq<Option<File>>, i: nat, j: nat)
    requires i <= j <= |files|
    ensures Joined(files[..i]) <= Joined(files[..j])
    decreases j - i
  {
    if i == j {
    } else {
      JoinedStep(files, i);
      JoinedPrefix(files, i + 1, j);
    }
  }

  lemma {:induction false} JoinedWhole(files: seq<Option<File>>, i: nat)
    requires i <= |files|
    ensures Joined(files[..i]) <= Joined(files)
  {
    JoinedPrefix(files, i, |files|);
    assert files[..|files|] == files;
  }

  lemma {:induction false} ConcatStep(parts: seq<Bytes>, part: Bytes)
    ensures Concat(parts + [part]) == Concat(parts) + part
  {
    assert (parts + [part])[..|parts|] == parts;
  }

  /** The file that the offset ends exactly in is the first one that is not skipped. */
  lemma {:induction false} BlockEndIsRewind(files: seq<Option<File>>, offset: nat, i: nat)
    requires i < |files| && files[i].Some?
    ensures var before := |Joined(files[..i])|;
            AtBlockEnd(files, offset, i) <==> Rewinds(files[i].value, offset - Min(offset, before))
    ensures AtBlockEnd(files, offset, i) ==> NoBlockEnd(files, offset, i)
  {
    JoinedStep(files, i);
    forall k | 0 <= k < i && AtBlockEnd(files, offset, k) ensures offset <= |Joined(files[..i])| {
      JoinedPrefix(files, k + 1, i);
    }
  }

  lemma {:induction false} Associates(a: Bytes, b: Bytes, c: Bytes)
    ensures a + b + c == a + (b + c)
  {
  }

  /** A prefix that already meets the limit has the whole range. */
  lemma {:induction false} RangeOfPrefix(pre: Bytes, all: Bytes, offset: nat, max: int)
    requires pre <= all
    requires max > 0 && |pre| - offset >= max
    ensures Range(all, offset, max) == pre[offset..offset + max]
  {
  }

  lemma {:induction false} CannotOpen(files: seq<Option<File>>, offset: int, max: int, i: nat)
    requires i < |files| && Reached(files, offset, max, i)
    requires files[i].None? || offset < 0
    ensures !CanOpen(files, offset, max)
  {
  }

  lemma {:induction false} LimitEndsReach(files: seq<Option<File>>, offset: nat, max: int, i: nat)
    requires i <= |files| && max > 0 && |Joined(files[..i])| - offset >= max
    requires AllOpened(files, i)
    ensures CanOpen(files, offset, max)
  {
    forall j | i <= j < |files| ensures !Reached(files, offset, max, j) {
      JoinedPrefix(files, i, j);
    }
  }

  /** The child blocks that are read again before the range, if one of the first `n` files is such. */
  function Again(files: seq<Option<File>>, offset: int, n: nat): Bytes
    requires n <= |files|
  {
    if n == 0 then []
    else if AtBlockEnd(files, offset, n - 1) then FlatAll(files[n - 1].value.children)
    else Again(files, offset, n - 1)
  }

  lemma {:induction false} AgainIffBlockEnd(files: seq<Option<File>>, offset: int, n: nat)
    requires n <= |files|
    ensures Again(files, offset, n) == [] <==> NoBlockEnd(files, offset, n)
  {
    if n == 0 {
    } else {
      AgainIffBlockEnd(files, offset, n - 1);
    }
  }

  /** Once the offset is behind, no later file is read again. */
  lemma {:induction false} AgainStays(files: seq<Option<File>>, offset: nat, i: nat, n: nat)
    requires i <= n <= |files| && offset <= |Joined(files[..i])|
    ensures Again(files, offset, n) == Again(files, offset, i)
  {
    if i == n {
    } else {
      AgainStays(files, offset, i, n - 1);
      NotAtBlockEnd(files, offset, i, n - 1);
    }
  }

  lemma {:induction false} NotAtBlockEnd(files: seq<Option<File>>, offset: nat, i: nat, k: nat)
    requires i <= k < |files| && offset <= |Joined(files[..i])|
    ensures !AtBlockEnd(files, offset, k)
  {
    JoinedPrefix(files, i, k);
    JoinedStep(files, k);
  }

  /** The state of the loop after `i` files, all of which could be opened. */
  ghost predicate Progress(files: seq<Option<File>>, offset: nat, i: nat, rest: int, readers: seq<Bytes>, length: int)
    requires i <= |files|
  {
    && Counted(files, offset, i, rest, length)
    && Concat(readers) == Again(files, offset, i) + Joined(files[..i])[Min(offset, |Joined(files[..i])|)..]
  }

  ghost predicate Counted(files: seq<Option<File>>, offset: nat, i: nat, rest: int, length: int)
    requires i <= |files|
  {
    var done := |Joined(files[..i])|;
    rest == offset - Min(offset, done) && length == done - Min(offset, done)
  }

  lemma {:induction false} CountedFits(files: seq<Option<File>>, offset: nat, i: nat, rest: int, length: int)
    requires i < |files| && files[i].Some? && Counted(files, offset, i, rest, length)
    ensures length + |Flat(files[i].value)| <= |Joined(files)|
    ensures 0 <= rest <= |Flat(files[i].value)| ==>
              length + |Flat(files[i].value)| - rest == |Joined(files[..i + 1])| - offset
  {
    JoinedStep(files, i);
    JoinedWhole(files, i + 1);
  }

  /** What lies behind the offset grows by the part of the next file that is not skipped. */
  lemma {:induction false} Extend(done: Bytes, file: Bytes, offset: nat, rest: int)
    requires rest == offset - Min(offset, |done|) <= |file|
    ensures Min(offset, |done + file|) == offset
    ensures (done + file)[offset..] == done[Min(offset, |done|)..] + file[rest..]
  {
  }

  lemma {:induction false} SkipStep(
      files: seq<Option<File>>, offset: nat, i: nat, rest: int, readers: seq<Bytes>, length: int)
    requires i < |files| && files[i].Some? && Progress(files, offset, i, rest, readers, length)
    requires rest > |Flat(files[i].value)|
    ensures Progress(files, offset, i + 1, rest - |Flat(files[i].value)|, readers, length)
  {
    JoinedStep(files, i);
  }

  /** Reading file `i` from `rest` on extends the readers by the rest of it, or by its blocks again. */
  lemma {:induction false} ReadStep(
      files: seq<Option<File>>, offset: nat, i: nat, rest: int, readers: seq<Bytes>, length: int, part: Bytes)
    requires i < |files| && files[i].Some? && Progress(files, offset, i, rest, readers, length)
    requires 0 <= rest <= |Flat(files[i].value)|
    requires part == Tail(files[i].value, rest)
    ensures Progress(files, offset, i + 1, 0, readers + [part], length + |Flat(files[i].value)| - rest)
  {
    var f := files[i].value;
    var done := Joined(files[..i]);
    JoinedStep(files, i);
    Extend(done, Flat(f), offset, rest);
    BlockEndIsRewind(files, offset, i);
    ConcatStep(readers, part);
    if Rewinds(f, rest) {
      AgainIffBlockEnd(files, offset, i);
      assert (done + Flat(f))[offset..] == [];
      assert Concat(readers + [part]) == part;
    } else {
      Associates(Again(files, offset, i), done[Min(offset, |done|)..], part);
    }
  }

  /** Once the limit is met, cutting the last part leaves exactly the range after what is read again. */
  lemma {:induction false} LimitStep(
      files: seq<Option<File>>, offset: nat, i: nat, rest: int, readers: seq<Bytes>, length: int, max: int, part: Bytes)
    requires i < |files| && files[i].Some? && Progress(files, offset, i, rest, readers, length)
    requires 0 <= rest <= |Flat(files[i].value)|
    requires 0 <= length < max <= length + |Flat(files[i].value)| - rest
    requires part == Flat(files[i].value)[rest..][..max - length]
    ensures Concat(readers + [part]) == Again(files, offset, |files|) + Range(Joined(files), offset, max)
    ensures |Range(Joined(files), offset, max)| == max
  {
    var file, done := Flat(files[i].value), Joined(files[..i]);
    JoinedStep(files, i);
    JoinedWhole(files, i + 1);
    RangeOfPrefix(done + file, Joined(files), offset, max);
    Cut(done, file, offset, rest, max);
    ConcatStep(readers, part);
    Associates(Again(files, offset, i), done[Min(offset, |done|)..], part);
    BlockEndIsRewind(files, offset, i);
    AgainStays(files, offset, i + 1, |files|);
  }

  lemma {:induction false} Cut(done: Bytes, file: Bytes, offset: nat, rest: int, max: int)
    requires rest == offset - Min(offset, |done|) <= |file|
    requires |done| - Min(offset, |done|) <= max <= |done + file| - offset
    ensures (done + file)[offset..offset + max]
            == done[Min(offset, |done|)..] + file[rest..][..max - (|done| - Min(offset, |done|))]
  {
    var a, b := done[Min(offset, |done|)..], file[rest..];
    Extend(done, file, offset, rest);
    assert (done + file)[offset..offset + max] == (done + file)[offset..][..max];
    assert (a + b)[..max] == a + b[..max - |a|];
  }

  /** The part of an opened file that is wanted, and whether it meets the limit. */
  method ReadPart(file: File, rest: Int64, length: Uint64, max: Int64)
    returns (part: Option<Bytes>, newLength: Uint64, done: bool)
    requires rest as int <= |Flat(file)| && length as int + |Flat(file)| < INT64_LIMIT
    requires max > 0 ==> length < max as Uint64
    ensures part.None? <==> rest < 0
    ensures rest >= 0 ==> var sum := length as int + |Flat(file)| - rest as int;
              && (done <==> 0 < max as int <= sum)
              && newLength as int == (if done then max as int else sum)
              && (!done ==> part.value == Tail(file, rest as nat))
              && (done ==> part.value == Flat(file)[rest..][..max as int - length as int])
  {
    if rest >= 0 {
      SeekInside(file, rest as nat);
    }
    part := Seek(file, rest);
    newLength, done := length, false;
    if part.None? {
      return;
    }
    var size := |Flat(file)| as Uint64 - rest as Uint64;
    newLength := length + size;
    if max > 0 && newLength >= max as Uint64 {
      done := true;
      var overshoot := (newLength - max as Uint64) as Int64;
      if overshoot != 0 {
        part := Some(part.value[..size as Int64 - overshoot]);
        newLength := max as Uint64;
      }
    }
  }

  /** Where the loop stands: the part of the offset still to skip, the readers so far and their length. */
  datatype Loop = Loop(rest: Int64, readers: seq<Bytes>, length: Uint64)

  datatype Next = Failed | Finished(readers: seq<Bytes>, length: Uint64) | Continue(loop: Loop)

  ghost predicate LoopInv(files: seq<Option<File>>, offset: Int64, max: Int64, i: nat, loop: Loop)
    requires i <= |files|
  {
    && AllOpened(files, i)
    && (max > 0 ==> loop.length as int < max as int)
    && (if offset < 0 then i == 0 && loop == Loop(offset, [], 0)
        else Progress(files, offset as nat, i, loop.rest as int, loop.readers, loop.length as int))
  }

  /** What the readers and the reported length have to be. */
  ghost predicate RightOutput(files: seq<Option<File>>, offset: nat, max: int, readers: seq<Bytes>, length: nat) {
    && length == |Range(Joined(files), offset, max)|
    && Concat(readers) == Again(files, offset, if max == 0 then 0 else |files|) + Range(Joined(files), offset, max)
  }

  /** A round of the loop did what it should. */
  ghost predicate RightNext(files: seq<Option<File>>, offset: Int64, max: Int64, i: nat, next: Next)
    requires i < |files|
  {
    match next
    case Failed => !CanOpen(files, offset as int, max as int)
    case Finished(readers, length) =>
      && offset >= 0 && CanOpen(files, offset as int, max as int)
      && RightOutput(files, offset as nat, max as int, readers, length as nat)
    case Continue(loop) => offset >= 0 && LoopInv(files, offset, max, i + 1, loop)
  }

  lemma {:induction false} FailsRightly(files: seq<Option<File>>, offset: Int64, max: Int64, i: nat, loop: Loop)
    requires max != 0 && i < |files| && LoopInv(files, offset, max, i, loop) && (files[i].None? || offset < 0)
    ensures RightNext(files, offset, max, i, Failed)
  {
    CannotOpen(files, offset as int, max as int, i);
  }

  lemma {:induction false} SkipsRightly(files: seq<Option<File>>, offset: Int64, max: Int64, i: nat, loop: Loop)
    requires i < |files| && LoopInv(files, offset, max, i, loop) && files[i].Some?
    requires loop.rest as int > |Flat(files[i].value)|
    ensures RightNext(files, offset, max, i, Continue(loop.(rest := loop.rest - |Flat(files[i].value)| as Int64)))
  {
    SkipStep(files, offset as nat, i, loop.rest as int, loop.readers, loop.length as int);
  }

  lemma {:induction false} ReadsRightly(
      files: seq<Option<File>>, offset: Int64, max: Int64, i: nat, loop: Loop, part: Bytes, length: Uint64)
    requires i < |files| && LoopInv(files, offset, max, i, loop) && files[i].Some?
    requires 0 <= loop.rest as int <= |Flat(files[i].value)| && part == Tail(files[i].value, loop.rest as nat)
    requires length as int == loop.length as int + |Flat(files[i].value)| - loop.rest as int
    requires max > 0 ==> length as int < max as int
    ensures RightNext(files, offset, max, i, Continue(Loop(0, loop.readers + [part], length)))
  {
    ReadStep(files, offset as nat, i, loop.rest as int, loop.readers, loop.length as int, part);
  }

  /** The file that meets the limit: what was read is the range, and no later file has to be opened. */
  lemma {:induction false} LimitMet(
      files: seq<Option<File>>, offset: nat, i: nat, rest: int, readers: seq<Bytes>, length: int, max: int, part: Bytes)
    requires i < |files| && files[i].Some? && Progress(files, offset, i, rest, readers, length) && AllOpened(files, i)
    requires 0 <= rest <= |Flat(files[i].value)|
    requires 0 <= length < max <= length + |Flat(files[i].value)| - rest
    requires part == Flat(files[i].value)[rest..][..max - length]
    ensures CanOpen(files, offset, max) && RightOutput(files, offset, max, readers + [part], max)
  {
    CountedFits(files, offset, i, rest, length);
    LimitStep(files, offset, i, rest, readers, length, max, part);
    LimitEndsReach(files, offset, max, i + 1);
  }

  lemma {:induction false} FinishesRightly(
      files: seq<Option<File>>, offset: Int64, max: Int64, i: nat, loop: Loop, part: Bytes)
    requires i < |files| && LoopInv(files, offset, max, i, loop) && files[i].Some? && max > 0
    requires 0 <= loop.rest as int <= |Flat(files[i].value)|
    requires max as int <= loop.length as int + |Flat(files[i].value)| - loop.rest as int
    requires part == Flat(files[i].value)[loop.rest..][..max as int - loop.length as int]
    ensures RightNext(files, offset, max, i, Finished(loop.readers + [part], max as Uint64))
  {
    LimitMet(files, offset as nat, i, loop.rest as int, loop.readers, loop.length as int, max as int, part);
  }

  lemma {:induction false} LengthFits(files: seq<Option<File>>, offset: Int64, max: Int64, i: nat, loop: Loop)
    requires |Joined(files)| < INT64_LIMIT && i < |files| && LoopInv(files, offset, max, i, loop) && files[i].Some?
    ensures loop.length as int + |Flat(files[i].value)| < INT64_LIMIT
  {
    if offset >= 0 {
      CountedFits(files, offset as nat, i, loop.rest as int, loop.length as int);
    } else {
      CountedFits(files, 0, 0, 0, 0);
    }
  }

  /** One round of the loop, for file `i`. */
  method CatFile(files: seq<Option<File>>, offset: Int64, max: Int64, i: nat, loop: Loop) returns (next: Next)
    requires |Joined(files)| < INT64_LIMIT && max != 0 && i < |files| && LoopInv(files, offset, max, i, loop)
    ensures RightNext(files, offset, max, i, next)
  {
    if files[i].None? {
      FailsRightly(files, offset, max, i, loop);
      return Failed;
    }
    var file := files[i].value;
    LengthFits(files, offset, max, i, loop);
    if loop.rest > |Flat(file)| as Int64 {
      SkipsRightly(files, offset, max, i, loop);
      return Continue(loop.(rest := loop.rest - |Flat(file)| as Int64));
    }
    var part, length, done := ReadPart(file, loop.rest, loop.length, max);
    if part.None? {
      FailsRightly(files, offset, max, i, loop);
      next := Failed;
    } else if done {
      FinishesRightly(files, offset, max, i, loop, part.value);
      next := Finished(loop.readers + [part.value], length);
    } else {
      ReadsRightly(files, offset, max, i, loop, part.value, length);
      next := Continue(Loop(0, loop.readers + [part.value], length));
    }
  }

  lemma {:induction false} LoopEnds(files: seq<Option<File>>, offset: Int64, max: Int64, loop: Loop)
    requires max != 0 && LoopInv(files, offset, max, |files|, loop)
    ensures CanOpen(files, offset as int, max as int)
    ensures offset >= 0 ==> RightOutput(files, offset as nat, max as int, loop.readers, loop.length as nat)
  {
    assert files[..|files|] == files;
  }

  /**
   The readers give the range, after the blocks of the file that is read again, if any, and
   the reported length is that of the range. It fails exactly when a file that has to be
   opened is missing, or the offset is negative and a file has to be opened.
   */
  method Cat(files: seq<Option<File>>, offset: Int64, max: Int64)
    returns (ok: bool, readers: seq<Bytes>, length: Uint64)
    requires |Joined(files)| < INT64_LIMIT
    ensures ok <==> CanOpen(files, offset as int, max as int)
    ensures ok && offset >= 0 ==> RightOutput(files, offset as nat, max as int, readers, length as nat)
  {
    if max == 0 {
      return true, [], 0;
    }
    var loop := Loop(offset, [], 0);
    for i := 0 to |files|
      invariant LoopInv(files, offset, max, i, loop)
    {
      var next := CatFile(files, offset, max, i, loop);
      match next
      case Failed => return false, [], 0;
      case Finished(readers, length) => return true, readers, length;
      case Continue(loop') => loop := loop';
    }
    LoopEnds(files, offset, max, loop);
    ok, readers, length := true, loop.readers, loop.length;
  }

  /** The output is exactly the range if and only if the offset is not the end of a file with child blocks. */
  lemma {:induction false} RangeIff(files: seq<Option<File>>, offset: nat, max: int, output: Bytes)
    requires output == Again(files, offset, if max == 0 then 0 else |files|) + Range(Joined(files), offset, max)
    ensures output == Range(Joined(files), offset, max) <==> max == 0 || NoBlockEnd(files, offset, |files|)
  {
    AgainIffBlockEnd(files, offset, |files|);
  }

  /** A one-byte file in one child block, read from its end on: the byte comes out, though the range is empty. */
  lemma {:induction false} EndOfFileReadsAgain(b: byte)
    ensures var files := [Some(Blocks([], [Raw([b])]))];
            && Range(Joined(files), 1, -1) == []
            && Again(files, 1, 1) + Range(Joined(files), 1, -1) == [b]
  {
    var file := Blocks([], [Raw([b])]);
    var files := [Some(file)];
    assert FlatAll([Raw([b])]) == Flat(Raw([b])) + FlatAll([]);
    assert Flat(file) == [b];
    assert files[..0] == [] && files[..1] == files;
    assert Joined(files) == [b];
    assert AtBlockEnd(files, 1, 0);
  }
}
