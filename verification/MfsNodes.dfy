/**
 The DAG behind the mutable file system: folders, files, paths, and what replacing one
 entry does to every folder above it.
 */
module MfsNodes {
  import opened Dag

  /** A unixfs node: a folder, a file, or a node that cannot be opened as either. */
  datatype Entry =
    | Folder(entries: map<string, Entry>)
    | Blob(data: Bytes)
    | Unsupported(data: Bytes)

  const EMPTY_FOLDER: Entry := Folder(map[])

  type Path = seq<string>

  function Resolve(e: Entry, p: Path): Option<Entry> {
    if p == [] then Some(e)
    else if e.Folder? && p[0] in e.entries then Resolve(e.entries[p[0]], p[1..])
    else None
  }

  lemma {:induction false} ResolveAppend(e: Entry, p: Path, q: Path)
    ensures Resolve(e, p + q) == if Resolve(e, p).Some? then Resolve(Resolve(e, p).value, q) else None
    decreases p
  {
    if p == [] {
      assert p + q == q;
    } else {
      assert (p + q)[1..] == p[1..] + q;
      if e.Folder? && p[0] in e.entries {
        ResolveAppend(e.entries[p[0]], p[1..], q);
      }
    }
  }

  // ----- Replacing one node of a tree -----

  /** The tree with the node at an existing path replaced. */
  function Put(e: Entry, p: Path, x: Entry): Entry {
    if p == [] then x
    else if e.Folder? && p[0] in e.entries then Folder(e.entries[p[0] := Put(e.entries[p[0]], p[1..], x)])
    else e
  }

  lemma {:induction false} PutAppend(e: Entry, p: Path, q: Path, x: Entry)
    requires Resolve(e, p).Some?
    ensures Put(e, p + q, x) == Put(e, p, Put(Resolve(e, p).value, q, x))
    decreases p
  {
    if p == [] {
      assert p + q == q;
    } else {
      assert (p + q)[1..] == p[1..] + q;
      PutAppend(e.entries[p[0]], p[1..], q, x);
    }
  }

  lemma {:induction false} PutTwice(e: Entry, p: Path, x: Entry, y: Entry)
    requires Resolve(e, p).Some?
    ensures Resolve(Put(e, p, x), p) == Some(x)
    ensures Put(Put(e, p, x), p, y) == Put(e, p, y)
    decreases p
  {
    if p == [] {
    } else {
      PutTwice(e.entries[p[0]], p[1..], x, y);
    }
  }

  /** Paths that leave `p` at some step resolve as before. */
  lemma {:induction false} PutKeepsOthers(e: Entry, p: Path, x: Entry, q: Path)
    requires !(q <= p) && !(p <= q)
    ensures Resolve(Put(e, p, x), q) == Resolve(e, q)
    decreases p
  {
    if !e.Folder? || p[0] !in e.entries {
    } else if p[0] == q[0] {
      assert p == [p[0]] + p[1..] && q == [q[0]] + q[1..];
      PutKeepsOthers(e.entries[p[0]], p[1..], x, q[1..]);
    }
  }

  // ----- Upward propagation -----

  /** The entries and the name of one folder; a list of levels runs from a folder up to the root. */
  datatype Level = Level(entries: map<string, Entry>, name: string)

  /** The new root after entry `name` of the lowest folder is set, using each folder's own entries. */
  function Lift(levels: seq<Level>, name: string, x: Entry): Entry
    requires levels != []
  {
    var lowest := Folder(levels[0].entries[name := x]);
    if |levels| == 1 then lowest else Lift(levels[1..], levels[0].name, lowest)
  }

  /** The path from the root to the lowest folder. */
  function PathOf(levels: seq<Level>): Path {
    if |levels| <= 1 then [] else PathOf(levels[1..]) + [levels[0].name]
  }

  /** The new root leads down to the new version of the lowest folder. */
  lemma {:induction false} LiftLeadsDown(levels: seq<Level>, name: string, x: Entry)
    requires levels != []
    ensures Resolve(Lift(levels, name, x), PathOf(levels)) == Some(Folder(levels[0].entries[name := x]))
  {
    if |levels| <= 1 {
    } else {
      var lowest := Folder(levels[0].entries[name := x]);
      LiftLeadsDown(levels[1..], levels[0].name, lowest);
      ResolveAppend(Lift(levels, name, x), PathOf(levels[1..]), [levels[0].name]);
    }
  }

  /** The flushed path resolves to the flushed node, and everything below it as in that node. */
  lemma {:induction false} LiftResolves(levels: seq<Level>, name: string, x: Entry, q: Path)
    requires levels != []
    ensures Resolve(Lift(levels, name, x), PathOf(levels) + [name] + q) == Resolve(x, q)
  {
    var root := Lift(levels, name, x);
    LiftLeadsDown(levels, name, x);
    ResolveAppend(root, PathOf(levels), [name] + q);
    assert PathOf(levels) + ([name] + q) == PathOf(levels) + [name] + q;
    assert ([name] + q)[1..] == q;
  }

  /** The name that leads from level `j` towards the flushed node. */
  function StepAt(levels: seq<Level>, name: string, j: nat): string
    requires j < |levels|
  {
    if j == 0 then name else levels[j - 1].name
  }

  /** A path that leaves the flushed path at level `j` resolves as in that folder's own entries. */
  lemma {:induction false} LiftKeepsOthers(levels: seq<Level>, name: string, x: Entry, j: nat, other: string, q: Path)
    requires j < |levels| && other != StepAt(levels, name, j)
    ensures Resolve(Lift(levels, name, x), PathOf(levels[j..]) + [other] + q)
            == Resolve(Folder(levels[j].entries), [other] + q)
    decreases j
  {
    if j == 0 {
      var root := Lift(levels, name, x);
      LiftLeadsDown(levels, name, x);
      assert levels[0..] == levels;
      ResolveAppend(root, PathOf(levels), [other] + q);
      assert PathOf(levels) + ([other] + q) == PathOf(levels) + [other] + q;
    } else {
      assert levels[1..][j - 1..] == levels[j..];
      LiftKeepsOthers(levels[1..], levels[0].name, Folder(levels[0].entries[name := x]), j - 1, other, q);
    }
  }
}
