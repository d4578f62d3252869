/**
 The republisher of the mutable file system: callers of `Update` and `WaitPub`
 and the `Run` loop, interleaved step by step.

 `WaitPub` compares pointers, so a value is modelled by the identity of the
 pointer that was set.
 */
module Republish {
  import opened Dag

  type Ref = nat

  /** Where the `Run` loop is. A waiter is a caller of `WaitPub` that Run has heard of. */
  datatype RunPc =
    | Idle                                       // the outer select
    | Waiting                                    // the inner select, after taking a token
    | Reading(waiter: Option<nat>)               // in publish, val not read yet
    | Publishing(i: nat, waiter: Option<nat>)    // the publish function runs on the i-th value
    | Storing(i: nat, waiter: Option<nat>)       // it succeeded, lastpub not set yet
    | Replying(i: nat, w: nat)                   // about to answer a waiter

  /** A call of `WaitPub`, with the number of values set when it looked at `val`. */
  datatype Waiter =
    | Sending(n: nat)    // blocked on the pubnow channel
    | Blocked(n: nat)    // waiting for the answer
    | Returned(n: nat)

  /**
   `hist` are the values in the order they were set, so `val` is the last one.
   `lastpub` and `published` refer to its positions. `pending` counts the calls of
   `Update` between setting the value and sending the token.
   */
  datatype State = State(
    hist: seq<Ref>,
    lastpub: Option<nat>,
    published: set<nat>,
    token: bool,
    pending: nat,
    updated: bool,
    pc: RunPc,
    waiters: seq<Waiter>)

  datatype Action =
    | UpdateSet(v: Ref)     // Update: set the value
    | UpdateSend            // Update: send the token unless one is queued
    | TakeToken             // Run: outer receive
    | TakeMore              // Run: inner receive, then wait again
    | Timer                 // Run: one of the two timers
    | TakeWaiter(w: nat)    // Run: receive from the pubnow channel
    | Read
    | PublishOk
    | PublishErr
    | Store
    | Reply
    | WaitCall              // WaitPub: compare, and return or go on to send

  /** `NewRoot` sets a first value without sending a token. */
  function Init(first: Option<Ref>): State {
    State(if first.Some? then [first.value] else [], None, {}, false, 0, false, Idle, [])
  }

  /** The last published value is the current one. */
  predicate Consistent(s: State) {
    if s.lastpub.None? then s.hist == []
    else s.hist != [] && s.lastpub.value < |s.hist| && s.hist[s.lastpub.value] == s.hist[|s.hist| - 1]
  }

  predicate Enabled(s: State, a: Action) {
    match a
    case UpdateSet(_) => true
    case UpdateSend => s.pending > 0
    case TakeToken => s.pc.Idle? && s.token
    case TakeMore => s.pc.Waiting? && s.token
    case Timer => s.pc.Waiting?
    case TakeWaiter(w) => s.pc.Waiting? && w < |s.waiters| && s.waiters[w].Sending?
    case Read => s.pc.Reading? && s.hist != []
    case PublishOk => s.pc.Publishing?
    case PublishErr => s.pc.Publishing?
    case Store => s.pc.Storing?
    case Reply => s.pc.Replying? && s.pc.w < |s.waiters| && s.waiters[s.pc.w].Blocked?
    case WaitCall => true
  }

  function AfterPublish(i: nat, waiter: Option<nat>): RunPc {
    if waiter.Some? then Replying(i, waiter.value) else Idle
  }

  function Apply(s: State, a: Action): State
    requires Enabled(s, a)
  {
    match a
    case UpdateSet(v) => s.(hist := s.hist + [v], pending := s.pending + 1, updated := true)
    case UpdateSend => s.(pending := s.pending - 1, token := true)
    case TakeToken => s.(token := false, pc := Waiting)
    case TakeMore => s.(token := false)
    case Timer => s.(pc := Reading(None))
    case TakeWaiter(w) => s.(pc := Reading(Some(w)), waiters := s.waiters[w := Blocked(s.waiters[w].n)])
    case Read => s.(pc := Publishing(|s.hist| - 1, s.pc.waiter))
    case PublishOk => s.(pc := Storing(s.pc.i, s.pc.waiter), published := s.published + {s.pc.i})
    case PublishErr => s.(pc := AfterPublish(s.pc.i, s.pc.waiter))
    case Store => s.(lastpub := Some(s.pc.i), pc := AfterPublish(s.pc.i, s.pc.waiter))
    case Reply => s.(pc := Idle, waiters := s.waiters[s.pc.w := Returned(s.waiters[s.pc.w].n)])
    case WaitCall =>
      s.(waiters := s.waiters + [if Consistent(s) then Returned(|s.hist|) else Sending(|s.hist|)])
  }

  ghost predicate ValidRun(s: State, run: seq<Action>)
    decreases |run|
  {
    run != [] ==> Enabled(s, run[0]) && ValidRun(Apply(s, run[0]), run[1..])
  }

  ghost function Exec(s: State, run: seq<Action>): State
    requires ValidRun(s, run)
    decreases |run|
  {
    if run == [] then s else Exec(Apply(s, run[0]), run[1..])
  }

  // ----- No update is lost -----

  /**
   After the first `Update`, if the current value is not the last published one,
   somebody still has to act on it: a token is queued or about to be sent, or Run
   holds one and has not read the value yet, or it is publishing exactly this value.
   */
  ghost predicate NothingLost(s: State) {
    s.updated && !Consistent(s) ==>
      || s.token || s.pending > 0 || s.pc.Waiting? || s.pc.Reading?
      || ((s.pc.Publishing? || s.pc.Storing?) && s.pc.i < |s.hist| && s.hist[s.pc.i] == s.hist[|s.hist| - 1])
  }

  /** The value that was current at the call, or a later one, has been published. */
  ghost predicate Served(s: State, n: nat) {
    || n == 0
    || exists i :: i in s.published && i < |s.hist| && (i + 1 >= n || (n <= |s.hist| && s.hist[i] == s.hist[n - 1]))
  }

  /** While a value is being published, it is the current one or a token is there for the current one. */
  ghost predicate InFlight(s: State) {
    (s.pc.Publishing? || s.pc.Storing?) && s.pc.i < |s.hist| && s.hist[s.pc.i] != s.hist[|s.hist| - 1] ==>
      s.token || s.pending > 0
  }

  /** The waiter that Run serves, if any. */
  function InService(s: State): Option<nat> {
    if s.pc.Replying? then Some(s.pc.w)
    else if s.pc.Reading? || s.pc.Publishing? || s.pc.Storing? then s.pc.waiter
    else None
  }

  /**
   What holds in every run, however many publications fail. The waiter that Run serves
   is blocked, and what is being published is recent enough for it.
   */
  ghost predicate Shape(s: State) {
    Positions(s) && ServesBlocked(s)
  }

  ghost predicate Positions(s: State) {
    && (forall i :: i in s.published ==> i < |s.hist|)
    && (s.lastpub.Some? ==> s.lastpub.value in s.published)
    && (s.updated ==> s.hist != [])
    && (s.token || s.pending > 0 || !s.pc.Idle? ==> s.updated)
    && (s.pc.Publishing? || s.pc.Replying? ==> s.pc.i < |s.hist|)
    && (s.pc.Storing? ==> s.pc.i in s.published)
    && (forall w :: 0 <= w < |s.waiters| ==> s.waiters[w].n <= |s.hist|)
  }

  ghost predicate ServesBlocked(s: State) {
    InService(s).Some? ==>
      var w := InService(s).value;
      && w < |s.waiters| && s.waiters[w].Blocked?
      && (!s.pc.Reading? ==> s.pc.i + 1 >= s.waiters[w].n)
  }

  /** Every call of `WaitPub` that returned, or is about to, was served. */
  ghost predicate Answered(s: State) {
    && (s.pc.Replying? ==> s.pc.i in s.published)
    && (forall w :: 0 <= w < |s.waiters| && s.waiters[w].Returned? ==> Served(s, s.waiters[w].n))
  }

  ghost predicate Inv(s: State) {
    NothingLost(s) && InFlight(s) && Shape(s) && Answered(s)
  }

  lemma {:induction false} NothingLostKept(s: State, a: Action)
    requires NothingLost(s) && InFlight(s) && Shape(s) && Enabled(s, a) && a != PublishErr
    ensures NothingLost(Apply(s, a)) && InFlight(Apply(s, a))
  {
  }

  lemma {:induction false} ShapeKept(s: State, a: Action)
    requires Shape(s) && Enabled(s, a)
    ensures Shape(Apply(s, a))
  {
  }

  lemma {:induction false} AnsweredKept(s: State, a: Action)
    requires Inv(s) && Enabled(s, a) && a != PublishErr
    ensures Answered(Apply(s, a))
  {
    var s' := Apply(s, a);
    forall w | 0 <= w < |s'.waiters| && s'.waiters[w].Returned? ensures Served(s', s'.waiters[w].n) {
      var n := s'.waiters[w].n;
      if w < |s.waiters| && s.waiters[w].Returned? {
      } else if a.Reply? {
        assert s.pc.i in s.published && s.pc.i + 1 >= n;
      } else if s.hist != [] {
        assert s.hist[s.lastpub.value] == s.hist[n - 1];
      }
    }
  }

  lemma {:induction false} InvKept(s: State, a: Action)
    requires Inv(s) && Enabled(s, a) && a != PublishErr
    ensures Inv(Apply(s, a))
  {
    NothingLostKept(s, a);
    ShapeKept(s, a);
    AnsweredKept(s, a);
  }

  lemma {:induction false} RunKeepsInv(s: State, run: seq<Action>)
    requires Inv(s) && ValidRun(s, run) && PublishErr !in run
    ensures Inv(Exec(s, run))
    decreases |run|
  {
    if run == [] {
    } else {
      assert run[0] in run;
      InvKept(s, run[0]);
      RunKeepsInv(Apply(s, run[0]), run[1..]);
    }
  }

  /** In every interleaving with a publish function that does not fail, no update is lost. */
  lemma {:induction false} NoUpdateIsLost(first: Option<Ref>, run: seq<Action>)
    requires ValidRun(Init(first), run) && PublishErr !in run
    ensures NothingLost(Exec(Init(first), run))
  {
    RunKeepsInv(Init(first), run);
  }

  /** Whenever `WaitPub` returns, the value current at its call, or a later one, was published. */
  lemma {:induction false} WaitPubMeansPublished(first: Option<Ref>, run: seq<Action>, w: nat)
    requires ValidRun(Init(first), run) && PublishErr !in run
    requires var s := Exec(Init(first), run); w < |s.waiters| && s.waiters[w].Returned?
    ensures var s := Exec(Init(first), run); Served(s, s.waiters[w].n)
  {
    RunKeepsInv(Init(first), run);
  }

  // ----- What happens when no more calls arrive -----

  /** Steps of Run and of calls already begun. */
  predicate Internal(a: Action) {
    !a.UpdateSet? && !a.WaitCall? && !a.PublishErr?
  }

  /** Run sits in the outer select with nothing to take. */
  predicate Quiet(s: State) {
    s.pc.Idle? && !s.token && s.pending == 0
  }

  /** The internal step that leads on, if there is one. */
  function Approach(s: State): Action {
    if s.pending > 0 then UpdateSend
    else match s.pc
      case Idle => TakeToken
      case Waiting => Timer
      case Reading(_) => Read
      case Publishing(_, _) => PublishOk
      case Storing(_, _) => Store
      case Replying(_, _) => Reply
  }

  /** An internal step is possible exactly when the republisher is not quiet. */
  lemma {:induction false} QuietIffStuck(s: State)
    requires Inv(s)
    ensures Quiet(s) <==> forall a :: Enabled(s, a) ==> !Internal(a)
  {
    if !Quiet(s) {
      var a := Approach(s);
      assert Enabled(s, a) && Internal(a);
    }
  }

  function Rank(s: State): nat {
    10 * s.pending + (if s.token then 8 else 0) +
    match s.pc
    case Idle => 0
    case Waiting => 6
    case Reading(_) => 5
    case Publishing(_, _) => 4
    case Storing(_, _) => 3
    case Replying(_, _) => 2
  }

  /**
   Every update is published in the end: once no more calls arrive and publishing
   does not fail, the internal steps run out after at most `Rank` of them, and then
   the current value is the last published one.
   */
  lemma {:induction false} UpdatesGetPublished(s: State, run: seq<Action>)
    requires Inv(s) && ValidRun(s, run) && forall a :: a in run ==> Internal(a)
    ensures |run| <= Rank(s)
    ensures Quiet(Exec(s, run)) && s.updated ==> Consistent(Exec(s, run))
    decreases |run|
  {
    if run == [] {
    } else {
      assert run[0] in run;
      InvKept(s, run[0]);
      UpdatesGetPublished(Apply(s, run[0]), run[1..]);
    }
  }

  // ----- Which calls of WaitPub are served -----

  /** Run holds a token, or one is queued or about to be sent. */
  predicate TokenComing(s: State) {
    s.token || s.pending > 0 || s.pc.Waiting?
  }

  predicate IsSending(s: State, w: nat) {
    w < |s.waiters| && s.waiters[w].Sending?
  }

  predicate HasReturned(s: State, w: nat) {
    w < |s.waiters| && s.waiters[w].Returned?
  }

  ghost predicate InternalRun(s: State, run: seq<Action>) {
    ValidRun(s, run) && forall a :: a in run ==> Internal(a)
  }

  /** Anything may happen but another `Update`. */
  ghost predicate WithoutUpdate(s: State, run: seq<Action>) {
    ValidRun(s, run) && forall a :: a in run ==> !a.UpdateSet?
  }

  lemma {:induction false} ExecCons(s: State, a: Action, run: seq<Action>)
    requires Enabled(s, a) && Internal(a) && InternalRun(Apply(s, a), run)
    ensures InternalRun(s, [a] + run) && Exec(s, [a] + run) == Exec(Apply(s, a), run)
  {
    assert ([a] + run)[1..] == run;
  }

  ghost predicate ServesInternally(s: State, w: nat, run: seq<Action>) {
    InternalRun(s, run) && HasReturned(Exec(s, run), w)
  }

  /** From the inner select Run can take the waiter, publish and reply. */
  lemma {:induction false} ServeNow(s: State, w: nat)
    requires Shape(s) && s.pc.Waiting? && IsSending(s, w)
    ensures exists run :: ServesInternally(s, w, run)
  {
    var s1 := Apply(s, TakeWaiter(w));
    var s2 := Apply(s1, Read);
    var s3 := Apply(s2, PublishOk);
    var s4 := Apply(s3, Store);
    var run: seq<Action> := [];
    ExecCons(s4, Reply, run);
    run := [Reply] + run;
    ExecCons(s3, Store, run);
    run := [Store] + run;
    ExecCons(s2, PublishOk, run);
    run := [PublishOk] + run;
    ExecCons(s1, Read, run);
    run := [Read] + run;
    ExecCons(s, TakeWaiter(w), run);
    assert ServesInternally(s, w, [TakeWaiter(w)] + run);
  }

  /** As long as a token is coming, some continuation serves the call. */
  lemma {:induction false} CanBeServed(s: State, w: nat)
    requires Shape(s) && TokenComing(s) && IsSending(s, w)
    ensures exists run :: ServesInternally(s, w, run)
    decreases Rank(s)
  {
    if s.pc.Waiting? {
      ServeNow(s, w);
    } else {
      var a := Approach(s);
      ShapeKept(s, a);
      CanBeServed(Apply(s, a), w);
      var run :| ServesInternally(Apply(s, a), w, run);
      ExecCons(s, a, run);
      assert ServesInternally(s, w, [a] + run);
    }
  }

  /** Otherwise no continuation without another `Update` ever serves it. */
  lemma {:induction false} NeverServed(s: State, w: nat, run: seq<Action>)
    requires Shape(s) && !TokenComing(s) && IsSending(s, w) && WithoutUpdate(s, run)
    ensures IsSending(Exec(s, run), w)
    decreases |run|
  {
    if run == [] {
    } else {
      assert run[0] in run;
      ShapeKept(s, run[0]);
      NeverServed(Apply(s, run[0]), w, run[1..]);
    }
  }

  ghost predicate Serves(s: State, w: nat, run: seq<Action>) {
    WithoutUpdate(s, run) && HasReturned(Exec(s, run), w)
  }

  /** A call of `WaitPub` that has to wait can return without another `Update` exactly when a token is coming. */
  lemma {:induction false} ServedIffTokenComing(s: State, w: nat)
    requires Shape(s) && IsSending(s, w)
    ensures (exists run :: Serves(s, w, run)) <==> TokenComing(s)
  {
    if TokenComing(s) {
      CanBeServed(s, w);
      var run :| ServesInternally(s, w, run);
      assert Serves(s, w, run);
    } else {
      forall run | Serves(s, w, run) ensures false {
        NeverServed(s, w, run);
      }
    }
  }

  /** A call that Run has taken stays with it or has returned, whatever else happens. */
  lemma {:induction false} TakenIsServed(s: State, w: nat, run: seq<Action>)
    requires Shape(s) && (InService(s) == Some(w) || HasReturned(s, w)) && ValidRun(s, run)
    ensures InService(Exec(s, run)) == Some(w) || HasReturned(Exec(s, run), w)
    decreases |run|
  {
    if run == [] {
    } else {
      ShapeKept(s, run[0]);
      TakenIsServed(Apply(s, run[0]), w, run[1..]);
    }
  }

  /** The run leads to the end of all work, and the call has not returned. */
  ghost predicate LeavesOut(s: State, w: nat, run: seq<Action>) {
    InternalRun(s, run) && Quiet(Exec(s, run)) && !HasReturned(Exec(s, run), w)
  }

  /** A call that Run has not taken can be passed over: the timer may always be first. */
  lemma {:induction false} CanBeLeftOut(s: State, w: nat)
    requires Shape(s) && InService(s) != Some(w) && !HasReturned(s, w)
    ensures exists run :: LeavesOut(s, w, run)
    decreases Rank(s)
  {
    if Quiet(s) {
      assert LeavesOut(s, w, []);
    } else {
      var a := Approach(s);
      ShapeKept(s, a);
      CanBeLeftOut(Apply(s, a), w);
      var run :| LeavesOut(Apply(s, a), w, run);
      ExecCons(s, a, run);
      assert LeavesOut(s, w, [a] + run);
    }
  }

  ghost predicate ReturnedAtEnd(s: State, w: nat, run: seq<Action>) {
    ValidRun(s, run) && Quiet(Exec(s, run)) ==> HasReturned(Exec(s, run), w)
  }

  /**
   A call that has not returned yet is sure to return, in every run that comes to rest,
   exactly when Run has already taken it.
   */
  lemma {:induction false} SureToReturnIff(s: State, w: nat)
    requires Shape(s) && !HasReturned(s, w)
    ensures (forall run :: ReturnedAtEnd(s, w, run)) <==> InService(s) == Some(w)
  {
    if InService(s) == Some(w) {
      forall run | ValidRun(s, run) && Quiet(Exec(s, run)) ensures HasReturned(Exec(s, run), w) {
        TakenIsServed(s, w, run);
      }
    } else {
      CanBeLeftOut(s, w);
      var run :| LeavesOut(s, w, run);
      assert !ReturnedAtEnd(s, w, run);
    }
  }

  /** A call is sure to return exactly when the current value is the last published one; then it does so at once. */
  lemma {:induction false} WaitPubReturnsIff(s: State)
    requires Shape(s)
    ensures (forall run :: ReturnedAtEnd(Apply(s, WaitCall), |s.waiters|, run)) <==> Consistent(s)
    ensures Consistent(s) ==> HasReturned(Apply(s, WaitCall), |s.waiters|)
  {
    var s', w := Apply(s, WaitCall), |s.waiters|;
    ShapeKept(s, WaitCall);
    if Consistent(s) {
      forall run | ValidRun(s', run) && Quiet(Exec(s', run)) ensures HasReturned(Exec(s', run), w) {
        TakenIsServed(s', w, run);
      }
    } else {
      SureToReturnIff(s', w);
    }
  }

  /** There is nothing to wait for as long as there is no value. */
  lemma {:induction false} NothingToWaitFor(run: seq<Action>)
    requires ValidRun(Init(None), run) && forall a :: a in run ==> a.WaitCall?
    ensures forall w :: 0 <= w < |Exec(Init(None), run).waiters| ==> HasReturned(Exec(Init(None), run), w)
  {
    AllReturn(Init(None), run);
  }

  lemma {:induction false} AllReturn(s: State, run: seq<Action>)
    requires ValidRun(s, run) && (forall a :: a in run ==> a.WaitCall?) && s.hist == [] && s.lastpub.None?
    requires forall w :: 0 <= w < |s.waiters| ==> HasReturned(s, w)
    ensures forall w :: 0 <= w < |Exec(s, run).waiters| ==> HasReturned(Exec(s, run), w)
    decreases |run|
  {
    if run == [] {
    } else {
      assert run[0] in run;
      var s' := Apply(s, run[0]);
      forall w | 0 <= w < |s'.waiters| ensures HasReturned(s', w) {
        assert w < |s.waiters| ==> HasReturned(s, w);
      }
      AllReturn(s', run[1..]);
    }
  }

  /** So once an update has come and all work is done, a call returns at once. */
  lemma {:induction false} WaitPubAtRest(s: State, run: seq<Action>)
    requires Inv(s) && s.updated && InternalRun(s, run) && Quiet(Exec(s, run))
    ensures HasReturned(Apply(Exec(s, run), WaitCall), |Exec(s, run).waiters|)
  {
    UpdatesGetPublished(s, run);
    RunKeepsShape(s, run);
    WaitPubReturnsIff(Exec(s, run));
  }

  /** A call before any `Update` blocks until there is one, because `NewRoot` sets a value without a token. */
  lemma {:induction false} FirstWaitPubBlocks(v: Ref, run: seq<Action>)
    requires WithoutUpdate(Apply(Init(Some(v)), WaitCall), run)
    ensures IsSending(Exec(Apply(Init(Some(v)), WaitCall), run), 0)
  {
    NeverServed(Apply(Init(Some(v)), WaitCall), 0, run);
  }

  /** An `Update`, two calls that wait for its value, and Run serving the first of them. */
  function TwoWaiters(v: Ref): seq<Action> {
    [UpdateSet(v), UpdateSend] + ([WaitCall, WaitCall] + ([TakeToken, TakeWaiter(0)] + ServeFirst()))
  }

  function ServeFirst(): seq<Action> {
    [Read, PublishOk] + ([Store, Reply] + [])
  }

  lemma {:induction false} FirstIsServed(v: Ref)
    ensures var s := State([v], None, {}, false, 0, true, Reading(Some(0)), [Blocked(1), Sending(1)]);
            && ValidRun(s, ServeFirst())
            && Exec(s, ServeFirst()) == State([v], Some(0), {0}, false, 0, true, Idle, [Returned(1), Sending(1)])
  {
    var s := State([v], None, {}, false, 0, true, Reading(Some(0)), [Blocked(1), Sending(1)]);
    var s1 := State([v], None, {0}, false, 0, true, Storing(0, Some(0)), [Blocked(1), Sending(1)]);
    var s2 := State([v], Some(0), {0}, false, 0, true, Idle, [Returned(1), Sending(1)]);
    assert Apply(Apply(s, Read), PublishOk) == s1;
    assert Apply(Apply(s1, Store), Reply) == s2;
    ExecSteps(s, Read, PublishOk, [Store, Reply] + []);
    ExecSteps(s1, Store, Reply, []);
  }

  lemma {:induction false} AfterTwoWaiters(v: Ref)
    ensures ValidRun(Init(None), TwoWaiters(v))
    ensures Exec(Init(None), TwoWaiters(v))
            == State([v], Some(0), {0}, false, 0, true, Idle, [Returned(1), Sending(1)])
  {
    var s1 := State([v], None, {}, true, 0, true, Idle, []);
    var s2 := State([v], None, {}, true, 0, true, Idle, [Sending(1), Sending(1)]);
    var s3 := State([v], None, {}, false, 0, true, Reading(Some(0)), [Blocked(1), Sending(1)]);
    assert Apply(Apply(Init(None), UpdateSet(v)), UpdateSend) == s1;
    assert Apply(Apply(s1, WaitCall), WaitCall) == s2;
    assert Apply(Apply(s2, TakeToken), TakeWaiter(0)) == s3;
    FirstIsServed(v);
    ExecSteps(s2, TakeToken, TakeWaiter(0), ServeFirst());
    ExecSteps(s1, WaitCall, WaitCall, [TakeToken, TakeWaiter(0)] + ServeFirst());
    ExecSteps(Init(None), UpdateSet(v), UpdateSend, [WaitCall, WaitCall] + ([TakeToken, TakeWaiter(0)] + ServeFirst()));
  }

  /**
   The first call uses up the token, and the second one blocks for good although its value
   has been published.
   */
  lemma {:induction false} SecondWaitPubBlocks(v: Ref, run: seq<Action>)
    requires ValidRun(Init(None), TwoWaiters(v)) ==> WithoutUpdate(Exec(Init(None), TwoWaiters(v)), run)
    ensures ValidRun(Init(None), TwoWaiters(v)) && Consistent(Exec(Init(None), TwoWaiters(v)))
    ensures Exec(Init(None), TwoWaiters(v)).waiters == [Returned(1), Sending(1)]
    ensures IsSending(Exec(Exec(Init(None), TwoWaiters(v)), run), 1)
  {
    AfterTwoWaiters(v);
    NeverServed(Exec(Init(None), TwoWaiters(v)), 1, run);
  }

  lemma {:induction false} ExecSteps(s: State, a: Action, b: Action, run: seq<Action>)
    requires Enabled(s, a) && Enabled(Apply(s, a), b)
    ensures ValidRun(s, [a, b] + run) <==> ValidRun(Apply(Apply(s, a), b), run)
    ensures ValidRun(s, [a, b] + run) ==> Exec(s, [a, b] + run) == Exec(Apply(Apply(s, a), b), run)
  {
    assert ([a, b] + run)[1..] == [b] + run && ([b] + run)[1..] == run;
  }

  // ----- When publishing fails -----

  lemma {:induction false} RunKeepsShape(s: State, run: seq<Action>)
    requires Shape(s) && ValidRun(s, run)
    ensures Shape(Exec(s, run))
    decreases |run|
  {
    if run == [] {
    } else {
      ShapeKept(s, run[0]);
      RunKeepsShape(Apply(s, run[0]), run[1..]);
    }
  }

  /**
   A failed publication, the first or a later one, loses the update unless a newer one is
   already on its way, because the token is used up.
   */
  lemma {:induction false} FailureLosesUpdate(first: Option<Ref>, run: seq<Action>)
    requires ValidRun(Init(first), run)
    requires var s := Exec(Init(first), run); s.pc.Publishing? && !Consistent(s)
    ensures var s := Exec(Init(first), run); NothingLost(Apply(s, PublishErr)) <==> s.token || s.pending > 0
  {
    RunKeepsShape(Init(first), run);
  }

  /** Whatever failed before, from the next `Update` on nothing is lost until another publication fails. */
  lemma {:induction false} NextUpdateRecovers(first: Option<Ref>, before: seq<Action>, v: Ref, run: seq<Action>)
    requires ValidRun(Init(first), before)
    requires ValidRun(Apply(Exec(Init(first), before), UpdateSet(v)), run) && PublishErr !in run
    ensures NothingLost(Exec(Apply(Exec(Init(first), before), UpdateSet(v)), run))
  {
    var s := Exec(Init(first), before);
    RunKeepsShape(Init(first), before);
    ShapeKept(s, UpdateSet(v));
    NothingLostAlong(Apply(s, UpdateSet(v)), run);
  }

  lemma {:induction false} NothingLostAlong(s: State, run: seq<Action>)
    requires NothingLost(s) && InFlight(s) && Shape(s) && ValidRun(s, run) && PublishErr !in run
    ensures NothingLost(Exec(s, run))
    decreases |run|
  {
    if run == [] {
    } else {
      assert run[0] in run;
      NothingLostKept(s, run[0]);
      ShapeKept(s, run[0]);
      NothingLostAlong(Apply(s, run[0]), run[1..]);
    }
  }

  /** `WaitPub` also returns when the publication it asked for failed, with nothing new published. */
  lemma {:induction false} WaitPubReturnsAfterFailure(first: Option<Ref>, run: seq<Action>)
    requires ValidRun(Init(first), run)
    requires var s := Exec(Init(first), run); s.pc.Publishing? && s.pc.waiter.Some?
    ensures var s := Exec(Init(first), run);
            && Enabled(s, PublishErr) && Enabled(Apply(s, PublishErr), Reply)
            && var s' := Apply(Apply(s, PublishErr), Reply);
            HasReturned(s', s.pc.waiter.value) && s'.published == s.published && s'.lastpub == s.lastpub
  {
    RunKeepsShape(Init(first), run);
  }
}
