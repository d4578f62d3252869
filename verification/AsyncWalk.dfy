/** The concurrent graph walk `EnumerateChildrenAsync`. */
module AsyncWalk {
  import opened Dag

  /** What a worker is doing. */
  datatype Stage<T> =
    | Idle                                  // waiting to receive from the feed channel
    | Holding(item: T)                      // received an item, visit not called yet
    | Fetching(item: T)                     // visit said yes, getLinks is running
    | SendingLinks(item: T, links: seq<T>)  // blocked on the out channel
    | SendingDone(item: T)                  // blocked on the done channel
    | SendingErr(item: T)                   // blocked on the error channel
    | Exited

  datatype Main = Running | ReturnedNil | ReturnedErr

  /** The call: where to start, what is already visited, and the graph. */
  datatype Walk<!T> = Walk(root: T, initial: set<T>, links: T -> seq<T>, workers: nat)

  /**
   `fetched` and `failed` record the getLinks calls that returned, and `dropped`
   counts the received items for which no done signal will ever be delivered.
   */
  datatype State<T> = State(
    workers: seq<Stage<T>>,
    next: Option<T>,
    todo: seq<T>,
    inProgress: int,
    main: Main,
    cancelled: bool,
    visited: set<T>,
    fetched: multiset<T>,
    failed: multiset<T>,
    dropped: nat)

  /**
   One main select loop and a fixed number of workers communicate over unbuffered channels.
   Each action is one atomic step: a rendezvous on a channel, one call of `visit` (which the
   code serialises with a lock), the return of one `getLinks` call, or a context event. A
   run is any list of enabled actions, so every theorem here is about every interleaving.
   */
  datatype Action =
    | Feed(w: nat)       // send <- next
    | Visit(w: nat)
    | FetchOk(w: nat)
    | FetchErr(w: nat)
    | TakeLinks(w: nat)  // links := <-out
    | TakeDone(w: nat)   // <-done
    | TakeErr(w: nat)    // err := <-errChan
    | Cancel             // the caller's context ends
    | SeeCancel          // main returns because of it
    | DropLinks(w: nat)  // a worker sees the fetchers' context end
    | DropDone(w: nat)
    | Quit(w: nat)       // the feed channel is closed

  function Init<T>(k: Walk<T>): State<T> {
    State(seq(k.workers, _ => Idle), Some(k.root), [], 0, Running, false, k.initial,
          multiset{}, multiset{}, 0)
  }

  predicate Enabled<T>(s: State<T>, a: Action) {
    match a
    case Feed(w) => w < |s.workers| && s.workers[w].Idle? && s.main.Running? && s.next.Some?
    case Visit(w) => w < |s.workers| && s.workers[w].Holding?
    case FetchOk(w) => w < |s.workers| && s.workers[w].Fetching?
    case FetchErr(w) => w < |s.workers| && s.workers[w].Fetching?
    case TakeLinks(w) => w < |s.workers| && s.workers[w].SendingLinks? && s.main.Running?
    case TakeDone(w) => w < |s.workers| && s.workers[w].SendingDone? && s.main.Running?
    case TakeErr(w) => w < |s.workers| && s.workers[w].SendingErr? && s.main.Running?
    case Cancel => !s.cancelled
    case SeeCancel => s.main.Running? && s.cancelled
    case DropLinks(w) => w < |s.workers| && s.workers[w].SendingLinks? && Stopping(s)
    case DropDone(w) => w < |s.workers| && s.workers[w].SendingDone? && Stopping(s)
    case Quit(w) => w < |s.workers| && s.workers[w].Idle? && !s.main.Running?
  }

  /** The fetchers' context ends with the caller's context and when main returns. */
  predicate Stopping<T>(s: State<T>) {
    s.cancelled || !s.main.Running?
  }

  /** Main's loop over received links: the first one may become `next`. */
  function Enqueue<T>(next: Option<T>, todo: seq<T>, ls: seq<T>): (Option<T>, seq<T>)
    decreases |ls|
  {
    if ls == [] then (next, todo)
    else if next.None? then Enqueue(Some(ls[0]), todo, ls[1..])
    else Enqueue(next, todo + [ls[0]], ls[1..])
  }

  function Apply<T>(k: Walk<T>, s: State<T>, a: Action): State<T>
    requires Enabled(s, a)
  {
    match a
    case Feed(w) =>
      var s1 := s.(workers := s.workers[w := Holding(s.next.value)], inProgress := s.inProgress + 1);
      if s.todo != [] then s1.(next := Some(s.todo[0]), todo := s.todo[1..])
      else s1.(next := None)
    case Visit(w) =>
      var x := s.workers[w].item;
      if x in s.visited then s.(workers := s.workers[w := SendingDone(x)])
      else s.(workers := s.workers[w := Fetching(x)], visited := s.visited + {x})
    case FetchOk(w) =>
      var x := s.workers[w].item;
      s.(workers := s.workers[w := SendingLinks(x, k.links(x))], fetched := s.fetched + multiset{x})
    case FetchErr(w) =>
      var x := s.workers[w].item;
      s.(workers := s.workers[w := SendingErr(x)], failed := s.failed + multiset{x})
    case TakeLinks(w) =>
      var st := s.workers[w];
      var (next, todo) := Enqueue(s.next, s.todo, st.links);
      s.(workers := s.workers[w := SendingDone(st.item)], next := next, todo := todo)
    case TakeDone(w) =>
      var s1 := s.(workers := s.workers[w := Idle], inProgress := s.inProgress - 1);
      if s1.inProgress == 0 && s.next.None? then s1.(main := ReturnedNil) else s1
    case TakeErr(w) =>
      s.(workers := s.workers[w := Exited], main := ReturnedErr, dropped := s.dropped + 1)
    case Cancel => s.(cancelled := true)
    case SeeCancel => s.(main := ReturnedErr)
    case DropLinks(w) => s.(workers := s.workers[w := Exited], dropped := s.dropped + 1)
    case DropDone(w) => s.(workers := s.workers[w := Idle], dropped := s.dropped + 1)
    case Quit(w) => s.(workers := s.workers[w := Exited])
  }

  ghost predicate ValidRun<T(!new)>(k: Walk<T>, s: State<T>, run: seq<Action>)
    decreases |run|
  {
    run != [] ==> Enabled(s, run[0]) && ValidRun(k, Apply(k, s, run[0]), run[1..])
  }

  ghost function Exec<T(!new)>(k: Walk<T>, s: State<T>, run: seq<Action>): State<T>
    requires ValidRun(k, s, run)
    decreases |run|
  {
    if run == [] then s else Exec(k, Apply(k, s, run[0]), run[1..])
  }

  /** A state that some run of the call leads to. */
  ghost predicate Reachable<T(!new)>(k: Walk<T>, s: State<T>) {
    exists run :: ValidRun(k, Init(k), run) && Exec(k, Init(k), run) == s
  }

  lemma {:induction false} InitReachable<T(!new)>(k: Walk<T>)
    ensures Reachable(k, Init(k))
  {
    assert ValidRun(k, Init(k), []);
    assert Exec(k, Init(k), []) == Init(k);
  }

  lemma {:induction false} ExecAppend<T(!new)>(k: Walk<T>, s: State<T>, run: seq<Action>, a: Action)
    requires ValidRun(k, s, run) && Enabled(Exec(k, s, run), a)
    ensures ValidRun(k, s, run + [a])
    ensures Exec(k, s, run + [a]) == Apply(k, Exec(k, s, run), a)
    decreases |run|
  {
    if run == [] {
      assert (run + [a])[1..] == [];
      assert ValidRun(k, Apply(k, s, a), []);
    } else {
      assert (run + [a])[1..] == run[1..] + [a];
      ExecAppend(k, Apply(k, s, run[0]), run[1..], a);
    }
  }

  lemma {:induction false} ReachableStep<T(!new)>(k: Walk<T>, s: State<T>, a: Action)
    requires Reachable(k, s) && Enabled(s, a)
    ensures Reachable(k, Apply(k, s, a))
  {
    var run :| ValidRun(k, Init(k), run) && Exec(k, Init(k), run) == s;
    ExecAppend(k, Init(k), run, a);
  }

  // ----- What the walk should visit -----

  /** A path from the root all of whose nodes were not visited at the call. */
  ghost predicate FreshPath<T(!new)>(k: Walk<T>, p: seq<T>) {
    && p != [] && p[0] == k.root
    && (forall i :: 0 <= i < |p| ==> p[i] !in k.initial)
    && (forall i :: 0 <= i < |p| - 1 ==> p[i + 1] in k.links(p[i]))
  }

  ghost predicate FreshReach<T(!new)>(k: Walk<T>, x: T) {
    exists p :: FreshPath(k, p) && p[|p| - 1] == x
  }

  lemma {:induction false} FreshReachRoot<T(!new)>(k: Walk<T>)
    requires k.root !in k.initial
    ensures FreshReach(k, k.root)
  {
    assert FreshPath(k, [k.root]);
  }

  lemma {:induction false} FreshReachStep<T(!new)>(k: Walk<T>, x: T, y: T)
    requires FreshReach(k, x) && y in k.links(x) && y !in k.initial
    ensures FreshReach(k, y)
  {
    var p :| FreshPath(k, p) && p[|p| - 1] == x;
    var q := p + [y];
    assert FreshPath(k, q) && q[|q| - 1] == y;
  }

  /** A set that holds the root and is closed under fresh links holds every freshly reachable node. */
  lemma {:induction false} ClosedHoldsReach<T(!new)>(k: Walk<T>, s: set<T>, p: seq<T>)
    requires k.root in s
    requires forall x, y :: x in s && x !in k.initial && y in k.links(x) ==> y in s
    requires FreshPath(k, p)
    ensures p[|p| - 1] in s
    decreases |p|
  {
    if |p| <= 1 {
    } else {
      var q := p[..|p| - 1];
      assert FreshPath(k, q);
      ClosedHoldsReach(k, s, q);
      assert p[|p| - 2 + 1] in k.links(p[|p| - 2]);
    }
  }

  // ----- Sums over workers -----

  function Total<T>(ws: seq<Stage<T>>, f: Stage<T> -> nat): nat {
    if ws == [] then 0 else f(ws[0]) + Total(ws[1..], f)
  }

  lemma {:induction false} TotalUpdate<T>(ws: seq<Stage<T>>, f: Stage<T> -> nat, w: nat, st: Stage<T>)
    requires w < |ws|
    ensures Total(ws[w := st], f) == Total(ws, f) - f(ws[w]) + f(st)
    ensures Total(ws, f) >= f(ws[w])
  {
    if w == 0 {
      assert ws[0 := st][1..] == ws[1..];
    } else {
      assert ws[w := st][1..] == ws[1..][w - 1 := st];
      TotalUpdate(ws[1..], f, w - 1, st);
    }
  }

  lemma {:induction false} TotalZero<T>(ws: seq<Stage<T>>, f: Stage<T> -> nat)
    ensures Total(ws, f) == 0 <==> forall w :: 0 <= w < |ws| ==> f(ws[w]) == 0
  {
    if ws == [] {
    } else {
      TotalZero(ws[1..], f);
      assert forall w :: 0 < w < |ws| ==> ws[w] == ws[1..][w - 1];
    }
  }

  function HoldsItem<T>(st: Stage<T>): nat {
    if st.Idle? || st.Exited? then 0 else 1
  }

  function HoldsErr<T>(st: Stage<T>): nat {
    if st.SendingErr? then 1 else 0
  }

  function FetchesItem<T(==)>(x: T): Stage<T> -> nat {
    (st: Stage<T>) => if st == Fetching(x) then 1 else 0
  }

  // ----- The invariant -----

  /** An item the main loop will still hand out, or a worker has not looked at yet. */
  ghost predicate Pending<T(!new)>(s: State<T>, x: T) {
    || s.next == Some(x)
    || x in s.todo
    || exists w :: 0 <= w < |s.workers| && s.workers[w] == Holding(x)
  }

  ghost predicate Expands<T(!new)>(st: Stage<T>, x: T) {
    st == Fetching(x) || (st.SendingLinks? && st.item == x)
  }

  ghost predicate Expanding<T(!new)>(s: State<T>, x: T) {
    exists w :: 0 <= w < |s.workers| && Expands(s.workers[w], x)
  }

  /** The counter is the number of unfinished items, and no failure is forgotten. */
  ghost predicate Counters<T(!new)>(s: State<T>) {
    && s.inProgress == Total(s.workers, HoldsItem) + s.dropped
    && Total(s.workers, HoldsErr) <= |s.failed| <= Total(s.workers, HoldsErr) + s.dropped
  }

  /** What the main loop knows about its own variables. */
  ghost predicate MainLoop<T(!new)>(s: State<T>) {
    && (s.next.None? ==> s.todo == [])
    && (s.main.Running? && s.inProgress == 0 ==> s.next.Some?)
    && (s.main.ReturnedNil? ==> s.inProgress == 0 && s.next.None?)
    && (s.main.ReturnedErr? ==> s.cancelled || s.failed != multiset{})
    && (s.main.Running? && s.dropped > 0 ==> s.cancelled)
    && (s.main.Running? && !s.cancelled ==>
          forall w :: 0 <= w < |s.workers| ==> !s.workers[w].Exited?)
  }

  /** Only the root and links of freshly reached nodes are ever handed out or visited. */
  ghost predicate Sound<T(!new)>(k: Walk<T>, s: State<T>) {
    && k.initial <= s.visited
    && (forall x :: x in s.visited && x !in k.initial ==> FreshReach(k, x))
    && (forall x :: Pending(s, x) ==> Offered(k, x))
    && (forall x :: Expanding(s, x) ==> x in s.visited && x !in k.initial)
    && (forall w :: 0 <= w < |s.workers| && s.workers[w].SendingLinks? ==>
                      s.workers[w].links == k.links(s.workers[w].item))
  }

  ghost predicate Offered<T(!new)>(k: Walk<T>, x: T) {
    x in k.initial || FreshReach(k, x)
  }

  /** While nothing was dropped or failed, no link of a visited node has been forgotten. */
  ghost predicate Covered<T(!new)>(k: Walk<T>, s: State<T>) {
    s.failed == multiset{} && s.dropped == 0 ==>
      && (k.root in s.visited || Pending(s, k.root))
      && (forall x, y :: x in s.visited && x !in k.initial && !Expanding(s, x) && y in k.links(x) ==>
                           y in s.visited || Pending(s, y))
  }

  /** Each newly visited node is being fetched, was fetched, or failed: exactly one of these, once. */
  ghost predicate FetchedOnce<T(!new)>(k: Walk<T>, s: State<T>) {
    forall x :: FetchedOnceFor(k, s, x)
  }

  ghost predicate FetchedOnceFor<T(!new)>(k: Walk<T>, s: State<T>, x: T) {
    s.fetched[x] + s.failed[x] + Total(s.workers, FetchesItem(x)) == if x in s.visited && x !in k.initial then 1 else 0
  }

  ghost predicate Inv<T(!new)>(k: Walk<T>, s: State<T>) {
    Counters(s) && MainLoop(s) && Sound(k, s) && Covered(k, s) && FetchedOnce(k, s)
  }

  // ----- Every action keeps the invariant -----

  lemma {:induction false} EnqueueHolds<T>(next: Option<T>, todo: seq<T>, ls: seq<T>)
    ensures var (n, t) := Enqueue(next, todo, ls);
            && (n.None? <==> next.None? && ls == [])
            && ((next.None? ==> todo == []) ==> (n.None? ==> t == []))
    ensures var (n, t) := Enqueue(next, todo, ls);
            forall x :: n == Some(x) || x in t <==> next == Some(x) || x in todo || x in ls
    ensures var (n, t) := Enqueue(next, todo, ls);
            |t| + (if n.Some? then 1 else 0) == |todo| + (if next.Some? then 1 else 0) + |ls|
    decreases |ls|
  {
    if ls == [] {
    } else {
      assert ls == [ls[0]] + ls[1..];
      if next.None? {
        EnqueueHolds(Some(ls[0]), todo, ls[1..]);
      } else {
        EnqueueHolds(next, todo + [ls[0]], ls[1..]);
      }
    }
  }

  lemma {:induction false} WorkersStay<T(!new)>(k: Walk<T>, s: State<T>, a: Action)
    requires Enabled(s, a)
    ensures |Apply(k, s, a).workers| == |s.workers|
  {
  }

  /** Every action changes at most one worker. */
  lemma {:induction false} TotalAfter<T(!new)>(k: Walk<T>, s: State<T>, a: Action, f: Stage<T> -> nat)
    requires Enabled(s, a) && !a.Cancel? && !a.SeeCancel?
    ensures |Apply(k, s, a).workers| == |s.workers|
    ensures var ws := Apply(k, s, a).workers;
            Total(ws, f) == Total(s.workers, f) - f(s.workers[a.w]) + f(ws[a.w])
    ensures Total(s.workers, f) >= f(s.workers[a.w])
  {
    var ws := Apply(k, s, a).workers;
    assert ws == s.workers[a.w := ws[a.w]];
    TotalUpdate(s.workers, f, a.w, ws[a.w]);
  }

  lemma {:induction false} ItemDelta<T(!new)>(k: Walk<T>, s: State<T>, a: Action)
    requires Enabled(s, a) && !a.Cancel? && !a.SeeCancel? && |Apply(k, s, a).workers| == |s.workers|
    ensures var s' := Apply(k, s, a);
            HoldsItem(s'.workers[a.w]) + s'.dropped - s'.inProgress
            == HoldsItem(s.workers[a.w]) + s.dropped - s.inProgress
  {
  }

  lemma {:induction false} ItemsCounted<T(!new)>(k: Walk<T>, s: State<T>, a: Action)
    requires Counters(s) && Enabled(s, a)
    ensures var s' := Apply(k, s, a);
            s'.inProgress == Total(s'.workers, HoldsItem) + s'.dropped
  {
    if !a.Cancel? && !a.SeeCancel? {
      TotalAfter(k, s, a, HoldsItem);
      ItemDelta(k, s, a);
    }
  }

  lemma {:induction false} FailuresCounted<T(!new)>(k: Walk<T>, s: State<T>, a: Action)
    requires Counters(s) && Enabled(s, a)
    ensures var s' := Apply(k, s, a);
            Total(s'.workers, HoldsErr) <= |s'.failed| <= Total(s'.workers, HoldsErr) + s'.dropped
  {
    if !a.Cancel? && !a.SeeCancel? {
      TotalAfter(k, s, a, HoldsErr);
    }
  }

  lemma {:induction false} ErrWasRecorded<T(!new)>(s: State<T>, w: nat)
    requires Counters(s) && w < |s.workers| && s.workers[w].SendingErr?
    ensures s.failed != multiset{}
  {
    TotalUpdate(s.workers, HoldsErr, w, Idle);
    assert |s.failed| > 0;
  }

  lemma {:induction false} BufferKept<T(!new)>(k: Walk<T>, s: State<T>, a: Action)
    requires MainLoop(s) && Enabled(s, a)
    ensures var s' := Apply(k, s, a); s'.next.None? ==> s'.todo == []
    ensures !a.Feed? && Apply(k, s, a).next.None? ==> s.next.None?
  {
    if a.TakeLinks? {
      EnqueueHolds(s.next, s.todo, s.workers[a.w].links);
    }
  }

  lemma {:induction false} ReturnsKept<T(!new)>(k: Walk<T>, s: State<T>, a: Action)
    requires Counters(s) && MainLoop(s) && Enabled(s, a)
    ensures var s' := Apply(k, s, a);
            && (s'.main.Running? && s'.inProgress == 0 ==> s'.next.Some?)
            && (s'.main.ReturnedNil? ==> s'.inProgress == 0 && s'.next.None?)
            && (s'.main.ReturnedErr? ==> s'.cancelled || s'.failed != multiset{})
  {
    BufferKept(k, s, a);
    if a.TakeErr? {
      ErrWasRecorded(s, a.w);
    } else if a.FetchErr? {
      assert s.workers[a.w].item in Apply(k, s, a).failed;
    } else if a.Feed? {
      ItemsCounted(k, s, a);
    }
  }

  lemma {:induction false} MainLoopKept<T(!new)>(k: Walk<T>, s: State<T>, a: Action)
    requires Counters(s) && MainLoop(s) && Enabled(s, a)
    ensures MainLoop(Apply(k, s, a))
  {
    BufferKept(k, s, a);
    ReturnsKept(k, s, a);
  }

  lemma {:induction false} PendingAfter<T(!new)>(k: Walk<T>, s: State<T>, a: Action, x: T)
    requires Enabled(s, a)
    requires Pending(Apply(k, s, a), x)
    ensures Pending(s, x) || (a.TakeLinks? && x in s.workers[a.w].links)
  {
    var s' := Apply(k, s, a);
    if a.TakeLinks? {
      EnqueueHolds(s.next, s.todo, s.workers[a.w].links);
    }
    if w :| 0 <= w < |s'.workers| && s'.workers[w] == Holding(x) {
    }
  }

  lemma {:induction false} ExpandingAfter<T(!new)>(k: Walk<T>, s: State<T>, a: Action, x: T)
    requires Enabled(s, a)
    requires Expanding(Apply(k, s, a), x)
    ensures Expanding(s, x) || (a.Visit? && s.workers[a.w] == Holding(x) && x !in s.visited)
  {
    var s' := Apply(k, s, a);
    var w :| 0 <= w < |s'.workers| && Expands(s'.workers[w], x);
    WorkersStay(k, s, a);
  }

  lemma {:induction false} PendingIsOffered<T(!new)>(k: Walk<T>, s: State<T>, a: Action, x: T)
    requires Sound(k, s) && Enabled(s, a)
    requires Pending(Apply(k, s, a), x)
    ensures Offered(k, x)
  {
    PendingAfter(k, s, a, x);
    if !Pending(s, x) {
      var u := s.workers[a.w].item;
      assert Expanding(s, u);
      if x !in k.initial { FreshReachStep(k, u, x); }
    }
  }

  lemma {:induction false} VisitedIsReached<T(!new)>(k: Walk<T>, s: State<T>, a: Action, x: T)
    requires Sound(k, s) && Enabled(s, a)
    requires x in Apply(k, s, a).visited && x !in k.initial
    ensures FreshReach(k, x)
  {
    if x !in s.visited {
      assert a.Visit? && s.workers[a.w] == Holding(x);
      assert Pending(s, x);
    }
  }

  lemma {:induction false} ExpandingIsVisited<T(!new)>(k: Walk<T>, s: State<T>, a: Action, x: T)
    requires Sound(k, s) && Enabled(s, a)
    requires Expanding(Apply(k, s, a), x)
    ensures x in Apply(k, s, a).visited && x !in k.initial
  {
    ExpandingAfter(k, s, a, x);
  }

  lemma {:induction false} SoundKept<T(!new)>(k: Walk<T>, s: State<T>, a: Action)
    requires Sound(k, s) && Enabled(s, a)
    ensures Sound(k, Apply(k, s, a))
  {
    var s' := Apply(k, s, a);
    forall x | x in s'.visited && x !in k.initial ensures FreshReach(k, x) {
      VisitedIsReached(k, s, a, x);
    }
    forall x | Pending(s', x) ensures Offered(k, x) {
      PendingIsOffered(k, s, a, x);
    }
    forall x | Expanding(s', x) ensures x in s'.visited && x !in k.initial {
      ExpandingIsVisited(k, s, a, x);
    }
    LinksAreThoseOf(k, s, a);
  }

  lemma {:induction false} LinksAreThoseOf<T(!new)>(k: Walk<T>, s: State<T>, a: Action)
    requires Sound(k, s) && Enabled(s, a)
    ensures var s' := Apply(k, s, a);
            && k.initial <= s'.visited
            && forall w :: 0 <= w < |s'.workers| && s'.workers[w].SendingLinks? ==>
                             s'.workers[w].links == k.links(s'.workers[w].item)
  {
    WorkersStay(k, s, a);
  }

  lemma {:induction false} PendingKept<T(!new)>(k: Walk<T>, s: State<T>, a: Action, x: T)
    requires Enabled(s, a) && Pending(s, x) && Counters(s)
    ensures Pending(Apply(k, s, a), x) || (a.Visit? && s.workers[a.w].item == x)
  {
    var s' := Apply(k, s, a);
    if a.TakeLinks? {
      EnqueueHolds(s.next, s.todo, s.workers[a.w].links);
    }
    if s.next == Some(x) {
      if a.Feed? { assert s'.workers[a.w] == Holding(x); }
    } else if x in s.todo {
      if a.Feed? { assert s.todo == [s.todo[0]] + s.todo[1..]; }
    } else {
      var w :| 0 <= w < |s.workers| && s.workers[w] == Holding(x);
      if !(a.Visit? && a.w == w) { assert s'.workers[w] == Holding(x); }
    }
  }

  lemma {:induction false} CoveredKept<T(!new)>(k: Walk<T>, s: State<T>, a: Action)
    requires Counters(s) && Sound(k, s) && Covered(k, s) && Enabled(s, a)
    ensures Covered(k, Apply(k, s, a))
  {
    var s' := Apply(k, s, a);
    if s'.failed == multiset{} && s'.dropped == 0 {
      assert s.failed == multiset{} by {
        assert s.failed <= s'.failed;
      }
      if Pending(s, k.root) { PendingKept(k, s, a, k.root); }
      forall x, y | x in s'.visited && x !in k.initial && !Expanding(s', x) && y in k.links(x)
        ensures y in s'.visited || Pending(s', y)
      {
        CoveredLink(k, s, a, x, y);
      }
    }
  }

  lemma {:induction false} VisitedAfter<T(!new)>(k: Walk<T>, s: State<T>, a: Action, x: T)
    requires Enabled(s, a) && x in Apply(k, s, a).visited
    ensures x in s.visited || Expanding(Apply(k, s, a), x)
  {
    var s' := Apply(k, s, a);
    if x !in s.visited {
      assert s'.workers[a.w] == Fetching(x);
    }
  }

  /** A node stops being expanded only when main takes all its links. */
  lemma {:induction false} LinksAreTaken<T(!new)>(k: Walk<T>, s: State<T>, a: Action, x: T, y: T)
    requires Sound(k, s) && Enabled(s, a) && Apply(k, s, a).dropped == 0 && Apply(k, s, a).failed == multiset{}
    requires Expanding(s, x) && !Expanding(Apply(k, s, a), x) && y in k.links(x)
    ensures Pending(Apply(k, s, a), y)
  {
    var w :| 0 <= w < |s.workers| && Expands(s.workers[w], x);
    OnlyTaken(k, s, a, x, w);
    EnqueueHolds(s.next, s.todo, s.workers[w].links);
  }

  lemma {:induction false} OnlyTaken<T(!new)>(k: Walk<T>, s: State<T>, a: Action, x: T, w: nat)
    requires Enabled(s, a) && Apply(k, s, a).dropped == 0 && Apply(k, s, a).failed == multiset{}
    requires w < |s.workers| && Expands(s.workers[w], x)
    requires !Expanding(Apply(k, s, a), x)
    ensures a == TakeLinks(w) && s.workers[w].SendingLinks?
  {
    var s' := Apply(k, s, a);
    WorkersStay(k, s, a);
    assert s'.workers[w] != s.workers[w];
    if a.FetchErr? {
      FailureIsRecorded(k, s, a.w);
    }
  }

  lemma {:induction false} FailureIsRecorded<T(!new)>(k: Walk<T>, s: State<T>, w: nat)
    requires Enabled(s, FetchErr(w))
    ensures Apply(k, s, FetchErr(w)).failed != multiset{}
  {
    assert s.workers[w].item in Apply(k, s, FetchErr(w)).failed;
  }

  lemma {:induction false} CoveredLink<T(!new)>(k: Walk<T>, s: State<T>, a: Action, x: T, y: T)
    requires Counters(s) && Sound(k, s) && Covered(k, s) && Enabled(s, a)
    requires s.failed == multiset{} && Apply(k, s, a).dropped == 0 && Apply(k, s, a).failed == multiset{}
    requires x in Apply(k, s, a).visited && x !in k.initial && !Expanding(Apply(k, s, a), x) && y in k.links(x)
    ensures y in Apply(k, s, a).visited || Pending(Apply(k, s, a), y)
  {
    if Expanding(s, x) {
      LinksAreTaken(k, s, a, x, y);
    } else {
      assert x in s.visited by { VisitedAfter(k, s, a, x); }
      assert y in s.visited || Pending(s, y);
      if Pending(s, y) { PendingKept(k, s, a, y); }
    }
  }

  lemma {:induction false} OnceAfterVisit<T(!new)>(k: Walk<T>, s: State<T>, w: nat, x: T)
    requires Sound(k, s) && Enabled(s, Visit(w)) && FetchedOnceFor(k, s, x)
    ensures FetchedOnceFor(k, Apply(k, s, Visit(w)), x)
  {
    TotalAfter(k, s, Visit(w), FetchesItem(x));
  }

  lemma {:induction false} OnceAfterFetch<T(!new)>(k: Walk<T>, s: State<T>, a: Action, x: T)
    requires Enabled(s, a) && (a.FetchOk? || a.FetchErr?) && FetchedOnceFor(k, s, x)
    ensures FetchedOnceFor(k, Apply(k, s, a), x)
  {
    TotalAfter(k, s, a, FetchesItem(x));
  }

  lemma {:induction false} OnceAfterOther<T(!new)>(k: Walk<T>, s: State<T>, a: Action, x: T)
    requires Enabled(s, a) && !a.Visit? && !a.FetchOk? && !a.FetchErr? && FetchedOnceFor(k, s, x)
    ensures FetchedOnceFor(k, Apply(k, s, a), x)
  {
    if !a.Cancel? && !a.SeeCancel? {
      TotalAfter(k, s, a, FetchesItem(x));
    }
  }

  lemma {:induction false} FetchedOnceKept<T(!new)>(k: Walk<T>, s: State<T>, a: Action)
    requires Sound(k, s) && FetchedOnce(k, s) && Enabled(s, a)
    ensures FetchedOnce(k, Apply(k, s, a))
  {
    forall x ensures FetchedOnceFor(k, Apply(k, s, a), x) {
      assert FetchedOnceFor(k, s, x);
      if a.Visit? {
        OnceAfterVisit(k, s, a.w, x);
      } else if a.FetchOk? || a.FetchErr? {
        OnceAfterFetch(k, s, a, x);
      } else {
        OnceAfterOther(k, s, a, x);
      }
    }
  }

  lemma {:induction false} ActionKeepsInv<T(!new)>(k: Walk<T>, s: State<T>, a: Action)
    requires Inv(k, s) && Enabled(s, a)
    ensures Inv(k, Apply(k, s, a))
  {
    ItemsCounted(k, s, a);
    FailuresCounted(k, s, a);
    MainLoopKept(k, s, a);
    SoundKept(k, s, a);
    CoveredKept(k, s, a);
    FetchedOnceKept(k, s, a);
  }

  lemma {:induction false} RunKeepsInv<T(!new)>(k: Walk<T>, s: State<T>, run: seq<Action>)
    requires Inv(k, s) && ValidRun(k, s, run)
    ensures Inv(k, Exec(k, s, run))
    decreases |run|
  {
    if run == [] {
    } else {
      ActionKeepsInv(k, s, run[0]);
      RunKeepsInv(k, Apply(k, s, run[0]), run[1..]);
    }
  }

  lemma {:induction false} ReachableInv<T(!new)>(k: Walk<T>, s: State<T>)
    requires Reachable(k, s)
    ensures Inv(k, s)
  {
    var run :| ValidRun(k, Init(k), run) && Exec(k, Init(k), run) == s;
    assert Inv(k, Init(k)) by {
      var ws := Init(k).workers;
      TotalZero(ws, HoldsItem);
      TotalZero(ws, HoldsErr);
      forall x ensures Total(ws, FetchesItem(x)) == 0 {
        TotalZero(ws, FetchesItem(x));
      }
      if k.root !in k.initial { FreshReachRoot(k); }
    }
    RunKeepsInv(k, Init(k), run);
  }

  // ----- Safety -----

  /**
   Safety of the walk, for any number of workers and any interleaving. If the
   call has returned nil, no getLinks call failed, the visited set is the initial
   one plus exactly the nodes reachable from the root through nodes that were not
   visited before, and the links of each of these were fetched exactly once. What
   the workers still do afterwards does not change this.
   */
  lemma {:induction false} WalkIsSafe<T(!new)>(k: Walk<T>, s: State<T>)
    requires Reachable(k, s) && s.main.ReturnedNil?
    ensures s.failed == multiset{}
    ensures forall x :: x in s.visited <==> x in k.initial || FreshReach(k, x)
    ensures forall x :: s.fetched[x] == if FreshReach(k, x) then 1 else 0
  {
    ReachableInv(k, s);
    TotalZero(s.workers, HoldsItem);
    TotalZero(s.workers, HoldsErr);
    assert forall w :: 0 <= w < |s.workers| ==> HoldsItem(s.workers[w]) == 0;
    assert |s.failed| == 0;
    assert forall x :: !Pending(s, x) && !Expanding(s, x);
    forall x | FreshReach(k, x) ensures x in s.visited && x !in k.initial {
      var p :| FreshPath(k, p) && p[|p| - 1] == x;
      ClosedHoldsReach(k, s.visited, p);
    }
    forall x ensures s.fetched[x] == if FreshReach(k, x) then 1 else 0 {
      TotalZero(s.workers, FetchesItem(x));
      assert FetchedOnceFor(k, s, x);
    }
  }

  /** Also when the call fails, only nodes it should visit were fetched, and none twice. */
  lemma {:induction false} FetchedAtMostOnce<T(!new)>(k: Walk<T>, s: State<T>)
    requires Reachable(k, s)
    ensures forall x :: s.fetched[x] <= 1
    ensures forall x :: x in s.fetched ==> x in s.visited && FreshReach(k, x)
  {
    ReachableInv(k, s);
    forall x ensures s.fetched[x] <= 1 && (x in s.fetched ==> x in s.visited && FreshReach(k, x)) {
      assert FetchedOnceFor(k, s, x);
    }
  }

  /** An error return has a cause: a failed getLinks call or a cancelled context. */
  lemma {:induction false} ErrReturnHasCause<T(!new)>(k: Walk<T>, s: State<T>)
    requires Reachable(k, s) && s.main.ReturnedErr?
    ensures s.cancelled || s.failed != multiset{}
  {
    ReachableInv(k, s);
  }

  // ----- Progress -----

  /** A finite set of nodes that holds the root and is closed under links. */
  ghost predicate Universe<T(!new)>(k: Walk<T>, u: set<T>) {
    && k.root in u
    && (forall x, y :: x in u && y in k.links(x) ==> y in u)
  }

  /**
   Whatever happened before, some step is enabled until main returns, and it needs
   neither a failure nor a cancellation.
   */
  lemma {:induction false} NeverStuck<T(!new)>(k: Walk<T>, s: State<T>)
    requires Reachable(k, s) && s.main.Running? && |s.workers| > 0
    ensures exists a :: Enabled(s, a) && !a.Cancel? && !a.FetchErr?
  {
    var a;
    ReachableInv(k, s);
    TotalZero(s.workers, HoldsItem);
    if s.cancelled {
      a := SeeCancel;
    } else if w :| 0 <= w < |s.workers| && HoldsItem(s.workers[w]) != 0 {
      match s.workers[w] {
        case Holding(_) => a := Visit(w);
        case Fetching(_) => a := FetchOk(w);
        case SendingLinks(_, _) => a := TakeLinks(w);
        case SendingDone(_) => a := TakeDone(w);
        case SendingErr(_) => a := TakeErr(w);
      }
    } else {
      assert Total(s.workers, HoldsItem) == 0;
      a := Feed(0);
    }
    assert Enabled(s, a);
  }

  function StageWeight<T>(k: Walk<T>): Stage<T> -> nat {
    (st: Stage<T>) =>
      match st
      case Idle => 1
      case Holding(_) => 3
      case Fetching(x) => 4 + 3 * |k.links(x)|
      case SendingLinks(_, ls) => 3 + 3 * |ls|
      case SendingDone(_) => 2
      case SendingErr(_) => 1
      case Exited => 0
  }

  /** The items that main has still to hand out. */
  function Queued<T>(s: State<T>): nat {
    |s.todo| + if s.next.Some? then 1 else 0
  }

  /** The work left, apart from the nodes not visited yet. */
  function Weight<T>(k: Walk<T>, s: State<T>): nat {
    3 * Queued(s) + Total(s.workers, StageWeight(k))
    + (if s.cancelled then 0 else 1) + (if s.main.Running? then 1 else 0)
  }

  ghost predicate Less<T(!new)>(k: Walk<T>, u: set<T>, s': State<T>, s: State<T>) {
    || |u - s'.visited| < |u - s.visited|
    || (|u - s'.visited| == |u - s.visited| && Weight(k, s') < Weight(k, s))
  }

  lemma {:induction false} FirstVisitDecreases<T(!new)>(k: Walk<T>, u: set<T>, s: State<T>, w: nat)
    requires Universe(k, u) && Sound(k, s) && Enabled(s, Visit(w)) && s.workers[w].item !in s.visited
    ensures |u - Apply(k, s, Visit(w)).visited| < |u - s.visited|
  {
    var x := s.workers[w].item;
    assert Pending(s, x);
    var p :| FreshPath(k, p) && p[|p| - 1] == x;
    ClosedHoldsReach(k, u, p);
    assert u - Apply(k, s, Visit(w)).visited == (u - s.visited) - {x};
  }

  lemma {:induction false} QueuedAfter<T(!new)>(k: Walk<T>, s: State<T>, a: Action)
    requires Enabled(s, a)
    ensures Queued(Apply(k, s, a))
            == Queued(s) + if a.Feed? then -1 else if a.TakeLinks? then |s.workers[a.w].links| else 0
  {
    if a.TakeLinks? {
      EnqueueHolds(s.next, s.todo, s.workers[a.w].links);
    }
  }

  /** What the worker gives up is more than what the queue gets. */
  lemma {:induction false} StageDecreases<T(!new)>(k: Walk<T>, s: State<T>, a: Action)
    requires Enabled(s, a) && !a.Cancel? && !a.SeeCancel?
    requires !(a.Visit? && s.workers[a.w].item !in s.visited)
    ensures |Apply(k, s, a).workers| == |s.workers|
    ensures var f := StageWeight(k);
            f(Apply(k, s, a).workers[a.w])
            + 3 * (if a.Feed? then -1 else if a.TakeLinks? then |s.workers[a.w].links| else 0)
            < f(s.workers[a.w])
  {
  }

  lemma {:induction false} OtherActionDecreases<T(!new)>(k: Walk<T>, s: State<T>, a: Action)
    requires Enabled(s, a) && !(a.Visit? && s.workers[a.w].item !in s.visited)
    ensures Apply(k, s, a).visited == s.visited && Weight(k, Apply(k, s, a)) < Weight(k, s)
  {
    QueuedAfter(k, s, a);
    if !a.Cancel? && !a.SeeCancel? {
      TotalAfter(k, s, a, StageWeight(k));
      StageDecreases(k, s, a);
    }
  }

  /** Every action, also of a failing or cancelled walk, uses up some of the work left. */
  lemma {:induction false} ActionDecreases<T(!new)>(k: Walk<T>, u: set<T>, s: State<T>, a: Action)
    requires Universe(k, u) && Reachable(k, s) && Enabled(s, a)
    ensures Less(k, u, Apply(k, s, a), s)
  {
    if a.Visit? && s.workers[a.w].item !in s.visited {
      ReachableInv(k, s);
      FirstVisitDecreases(k, u, s, a.w);
    } else {
      OtherActionDecreases(k, s, a);
    }
  }

  ghost predicate KeepsMoving<T(!new)>(k: Walk<T>, schedule: nat -> State<T>, i: nat) {
    schedule(i).main.Running? ==>
      exists a :: Enabled(schedule(i), a) && schedule(i + 1) == Apply(k, schedule(i), a)
  }

  /**
   Progress of the walk. On a finite graph every schedule in which the walk keeps
   taking steps leads main to a return, and the return is nil unless a getLinks
   call failed or the context was cancelled.
   */
  lemma {:induction false} EveryScheduleReturns<T(!new)>(k: Walk<T>, u: set<T>, schedule: nat -> State<T>)
    returns (n: nat)
    requires Universe(k, u) && schedule(0) == Init(k)
    requires forall i: nat :: KeepsMoving(k, schedule, i)
    ensures Reachable(k, schedule(n)) && !schedule(n).main.Running?
    ensures schedule(n).main.ReturnedNil? || schedule(n).cancelled || schedule(n).failed != multiset{}
  {
    InitReachable(k);
    n := ReturnFrom(k, u, schedule, 0);
    if schedule(n).main.ReturnedErr? { ErrReturnHasCause(k, schedule(n)); }
  }

  lemma {:induction false} ReturnFrom<T(!new)>(k: Walk<T>, u: set<T>, schedule: nat -> State<T>, i: nat)
    returns (n: nat)
    requires Universe(k, u) && Reachable(k, schedule(i))
    requires forall i: nat :: KeepsMoving(k, schedule, i)
    ensures Reachable(k, schedule(n)) && !schedule(n).main.Running?
    decreases |u - schedule(i).visited|, Weight(k, schedule(i))
  {
    if schedule(i).main.Running? {
      assert KeepsMoving(k, schedule, i);
      var a :| Enabled(schedule(i), a) && schedule(i + 1) == Apply(k, schedule(i), a);
      ReachableStep(k, schedule(i), a);
      ActionDecreases(k, u, schedule(i), a);
      n := ReturnFrom(k, u, schedule, i + 1);
    } else {
      n := i;
    }
  }

  /**
   The call as its callers see it: an arbitrary scheduler runs the machine until
   main returns. `fetched` holds the nodes whose links were fetched.
   */
  method EnumerateChildrenAsync<T(==, !new)>(k: Walk<T>, ghost u: set<T>)
    returns (ok: bool, visited: set<T>, fetched: multiset<T>, failed: multiset<T>, cancelled: bool)
    requires Universe(k, u) && k.workers > 0
    ensures forall x :: x in fetched ==> FreshReach(k, x)
    ensures ok ==> forall x :: x in visited <==> x in k.initial || FreshReach(k, x)
    ensures ok ==> forall x :: fetched[x] == if FreshReach(k, x) then 1 else 0
    ensures if ok then failed == multiset{} else cancelled || failed != multiset{}
  {
    var s := Init(k);
    InitReachable(k);
    while s.main.Running?
      invariant Reachable(k, s) && |s.workers| == k.workers
      decreases |u - s.visited|, Weight(k, s)
    {
      NeverStuck(k, s);
      var a :| Enabled(s, a);
      ReachableStep(k, s, a);
      WorkersStay(k, s, a);
      ActionDecreases(k, u, s, a);
      s := Apply(k, s, a);
    }
    ok, visited, fetched, failed, cancelled := s.main.ReturnedNil?, s.visited, s.fetched, s.failed, s.cancelled;
    FetchedAtMostOnce(k, s);
    if ok {
      WalkIsSafe(k, s);
    } else {
      ErrReturnHasCause(k, s);
    }
  }
}
