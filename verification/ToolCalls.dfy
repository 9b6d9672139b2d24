/** `mcp_requests.go`: tool calls that run side by side and may be cancelled, as steps that hold the lock. */
module ToolCalls {

  datatype Reply = ResultReply | ErrorReply

  /** Where the goroutine of a call is. `ok` says whether the tool succeeded. */
  datatype Phase =
    | Running
    | ToolDone(ok: bool)   // the tool has returned, the last progress message is still to come
    | Checking(ok: bool)   // about to look whether the call is cancelled
    | Silenced             // it was: nothing more is written
    | Replying(ok: bool)   // it was not: the reply is next
    | Finishing            // about to drop its key
    | Done

  /** One call. `hit` is history: a cancellation of its key was accepted between its start and its check. */
  datatype Call = Call(key: string, progress: bool, phase: Phase, hit: bool, written: seq<Reply>)

  /** What the lock-protected sections did, per key. */
  datatype Event = Started(key: string) | Hit(key: string) | Finished(key: string)

  /** `active` and `cancelled` are the server's maps; `active` leads to the call whose context it cancels. */
  datatype State = State(active: map<string, nat>, cancelled: set<string>, calls: seq<Call>, log: seq<Event>)

  const START := State(map[], {}, [], [])

  // ----- the steps -----

  /** The critical section of `handleToolCall`. */
  function Start(s: State, key: string, progress: bool): State {
    State(s.active[key := |s.calls|], s.cancelled - {key}, s.calls + [Call(key, progress, Running, false, [])],
          s.log + [Started(key)])
  }

  predicate Unchecked(p: Phase) {
    p.Running? || p.ToolDone? || p.Checking?
  }

  function Notified(c: Call, key: string): Call {
    if c.key == key && Unchecked(c.phase) then c.(hit := true) else c
  }

  /** The critical section of `handleCancelledNotification`. A key that is not active is ignored. */
  function Cancel(s: State, key: string): State {
    if key !in s.active then s
    else State(s.active, s.cancelled + {key}, seq(|s.calls|, i requires 0 <= i < |s.calls| => Notified(s.calls[i], key)),
               s.log + [Hit(key)])
  }

  predicate At(s: State, n: nat, p: Phase) {
    n < |s.calls| && s.calls[n].phase == p
  }

  function Moved(s: State, n: nat, p: Phase): State
    requires n < |s.calls|
  {
    s.(calls := s.calls[n := s.calls[n].(phase := p)])
  }

  /** The tool returns. Only a call with a progress token reports progress. */
  ghost predicate Returns(s: State, n: nat, ok: bool, s': State) {
    && At(s, n, Running)
    && s' == Moved(s, n, if s.calls[n].progress then ToolDone(ok) else Checking(ok))
  }

  ghost predicate Reports(s: State, n: nat, s': State) {
    && n < |s.calls| && s.calls[n].phase.ToolDone?
    && s' == Moved(s, n, Checking(s.calls[n].phase.ok))
  }

  /** The last `isCancelled`. */
  ghost predicate Checks(s: State, n: nat, s': State) {
    && n < |s.calls| && s.calls[n].phase.Checking?
    && s' == Moved(s, n, if s.calls[n].key in s.cancelled then Silenced else Replying(s.calls[n].phase.ok))
  }

  ghost predicate Writes(s: State, n: nat, s': State) {
    && n < |s.calls| && s.calls[n].phase.Replying?
    && var reply := if s.calls[n].phase.ok then ResultReply else ErrorReply;
       s' == s.(calls := s.calls[n := s.calls[n].(phase := Finishing, written := s.calls[n].written + [reply])])
  }

  /** `finishRequest`. */
  ghost predicate Finishes(s: State, n: nat, s': State) {
    && n < |s.calls| && (s.calls[n].phase.Silenced? || s.calls[n].phase.Finishing?)
    && var key := s.calls[n].key;
       s' == State(s.active - {key}, s.cancelled - {key}, s.calls[n := s.calls[n].(phase := Done)], s.log + [Finished(key)])
  }

  ghost predicate Next(s: State, s': State) {
    || (exists key, progress :: s' == Start(s, key, progress))
    || (exists key :: s' == Cancel(s, key))
    || (exists n: nat, ok :: Returns(s, n, ok, s'))
    || (exists n: nat :: Reports(s, n, s'))
    || (exists n: nat :: Checks(s, n, s'))
    || (exists n: nat :: Writes(s, n, s'))
    || (exists n: nat :: Finishes(s, n, s'))
  }

  // ----- what every step keeps, whatever ids the client uses -----

  /** What last happened to a key under the lock. */
  ghost predicate LastIsHit(log: seq<Event>, key: string) {
    log != [] && (log[|log| - 1] == Hit(key) || (log[|log| - 1].key != key && LastIsHit(log[..|log| - 1], key)))
  }

  lemma LastIsHitSnoc(log: seq<Event>, e: Event, key: string)
    ensures LastIsHit(log + [e], key) <==> e == Hit(key) || (e.key != key && LastIsHit(log, key))
  {
    assert (log + [e])[..|log|] == log;
  }

  /** `cancelled` is exactly the keys whose latest event is an accepted cancellation. */
  ghost predicate CancelledFits(s: State) {
    && (forall key :: key in s.cancelled <==> LastIsHit(s.log, key))
    && s.cancelled <= s.active.Keys
  }

  /** A call has written nothing before it is told to reply, and one reply, the tool's, after. */
  ghost predicate WritesFit(c: Call) {
    match c.phase
    case Done => |c.written| <= 1
    case Finishing => |c.written| == 1
    case _ => c.written == []
  }

  /** Every active key belongs to a call that has not finished. */
  ghost predicate ActiveFits(s: State) {
    forall key <- s.active :: exists n :: IsLive(s, key, n)
  }

  ghost predicate IsLive(s: State, key: string, n: nat) {
    n < |s.calls| && s.calls[n].key == key && !s.calls[n].phase.Done?
  }

  ghost predicate Inv(s: State) {
    CancelledFits(s) && ActiveFits(s) && forall c <- s.calls :: WritesFit(c)
  }

  lemma ActiveStays(s: State, s': State)
    requires ActiveFits(s)
    requires forall key, n :: IsLive(s, key, n) && key in s'.active ==> IsLive(s', key, n)
    requires forall key <- s'.active :: key in s.active || exists n :: IsLive(s', key, n)
    ensures ActiveFits(s')
  {
    hide IsLive;
    forall key <- s'.active ensures exists n :: IsLive(s', key, n) {
      if key in s.active {
        var n :| IsLive(s, key, n);
        assert IsLive(s', key, n);
      }
    }
  }

  lemma StartKeeps(s: State, key: string, progress: bool)
    requires Inv(s)
    ensures Inv(Start(s, key, progress))
  {
    hide LastIsHit;
    forall k {
      LastIsHitSnoc(s.log, Started(key), k);
    }
    assert WritesFit(Call(key, progress, Running, false, []));
    hide WritesFit;
    assert IsLive(Start(s, key, progress), key, |s.calls|);
    ActiveStays(s, Start(s, key, progress));
  }

  lemma CancelKeeps(s: State, key: string)
    requires Inv(s)
    ensures Inv(Cancel(s, key))
  {
    hide LastIsHit;
    forall k {
      LastIsHitSnoc(s.log, Hit(key), k);
    }
    forall c ensures WritesFit(Notified(c, key)) == WritesFit(c) {
    }
    hide WritesFit;
    ActiveStays(s, Cancel(s, key));
  }

  lemma MoveKeeps(s: State, n: nat, c: Call, s': State)
    requires Inv(s) && n < |s.calls| && WritesFit(c) && s' == s.(calls := s.calls[n := c])
    requires c.key == s.calls[n].key && !c.phase.Done?
    ensures Inv(s')
  {
    hide LastIsHit, WritesFit;
    ActiveStays(s, s');
  }

  lemma FinishKeeps(s: State, n: nat, s': State)
    requires Inv(s) && Finishes(s, n, s')
    ensures Inv(s')
  {
    hide LastIsHit;
    forall k {
      LastIsHitSnoc(s.log, Finished(s.calls[n].key), k);
    }
    assert WritesFit(s.calls[n]);
    assert WritesFit(s'.calls[n]);
    hide WritesFit;
    ActiveStays(s, s');
  }

  lemma NextKeeps(s: State, s': State)
    requires Inv(s) && Next(s, s')
    ensures Inv(s')
  {
    hide Start, Cancel, Returns, Reports, Checks, Writes, Finishes, Inv;
    if key, progress :| s' == Start(s, key, progress) {
      StartKeeps(s, key, progress);
    } else if key :| s' == Cancel(s, key) {
      CancelKeeps(s, key);
    } else if n: nat :| Finishes(s, n, s') {
      FinishKeeps(s, n, s');
    } else {
      GoroutineMoves(s, s');
    }
  }

  lemma GoroutineMoves(s: State, s': State)
    requires Inv(s)
    requires (exists n: nat, ok :: Returns(s, n, ok, s')) || (exists n: nat :: Reports(s, n, s'))
          || (exists n: nat :: Checks(s, n, s')) || (exists n: nat :: Writes(s, n, s'))
    ensures Inv(s')
  {
    hide Inv;
    forall m: nat | m < |s.calls| ensures WritesFit(s.calls[m]) {
      WrittenFits(s, m);
    }
    if n: nat, ok :| Returns(s, n, ok, s') {
      MoveKeeps(s, n, s'.calls[n], s');
    } else if n: nat :| Reports(s, n, s') {
      MoveKeeps(s, n, s'.calls[n], s');
    } else if n: nat :| Checks(s, n, s') {
      MoveKeeps(s, n, s'.calls[n], s');
    } else {
      var n: nat :| Writes(s, n, s');
      MoveKeeps(s, n, s'.calls[n], s');
    }
  }

  lemma WrittenFits(s: State, n: nat)
    requires Inv(s) && n < |s.calls|
    ensures WritesFit(s.calls[n])
  {
  }

  // ----- whole runs -----

  ghost predicate IsRun(states: seq<State>) {
    && states != [] && states[0] == START
    && forall i :: 1 <= i < |states| ==> Next(states[i - 1], states[i])
  }

  lemma {:induction false} RunKeeps(states: seq<State>, i: nat)
    requires IsRun(states) && i < |states|
    ensures Inv(states[i])
  {
    hide Next;
    if i > 0 {
      RunKeeps(states, i - 1);
      NextKeeps(states[i - 1], states[i]);
    }
  }

  /** In any run, whatever ids the client repeats: only active keys are cancelled, no call writes two replies, and
      once every call is done both maps are empty. */
  lemma SafeRuns(states: seq<State>, i: nat)
    requires IsRun(states) && i < |states|
    ensures states[i].cancelled <= states[i].active.Keys
    ensures forall c <- states[i].calls :: |c.written| <= 1
    ensures (forall c <- states[i].calls :: c.phase.Done?) ==> states[i].active == map[] && states[i].cancelled == {}
  {
    RunKeeps(states, i);
    var s := states[i];
    forall c <- s.calls ensures |c.written| <= 1 {
      assert WritesFit(c);
    }
    if forall c <- s.calls :: c.phase.Done? {
      assert forall key, n :: !IsLive(s, key, n);
      assert forall key :: key !in s.active;
    }
  }

  lemma {:induction false} LastIsHitWhen(log: seq<Event>, key: string)
    ensures LastIsHit(log, key) <==>
      exists i :: 0 <= i < |log| && log[i] == Hit(key) && Undisturbed(log, i, key)
  {
    if log != [] {
      var m := |log| - 1;
      var init := log[..m];
      LastIsHitWhen(init, key);
      if LastIsHit(log, key) {
        if log[m] == Hit(key) {
          assert Undisturbed(log, m, key);
        } else {
          var i :| 0 <= i < |init| && init[i] == Hit(key) && Undisturbed(init, i, key);
          assert Undisturbed(log, i, key);
        }
      }
      if i :| 0 <= i < |log| && log[i] == Hit(key) && Undisturbed(log, i, key) {
        if i < m && log[m] != Hit(key) {
          assert init[i] == Hit(key) && Undisturbed(init, i, key);
        }
      }
    }
  }

  /** Since event `i` no call with that key has started or finished. */
  ghost predicate Undisturbed(log: seq<Event>, i: nat, key: string) {
    forall j :: i < j < |log| ==> log[j] != Started(key) && log[j] != Finished(key)
  }

  /** Exactly when a call is silenced at its check: a cancellation of its key was accepted, and since then no call with
      that key, this one or another, has started or finished. */
  lemma SilencedWhen(states: seq<State>, i: nat, n: nat)
    requires IsRun(states) && i < |states| - 1 && Checks(states[i], n, states[i + 1])
    ensures states[i + 1].calls[n].phase.Silenced? <==>
      exists j :: 0 <= j < |states[i].log| && states[i].log[j] == Hit(states[i].calls[n].key)
               && Undisturbed(states[i].log, j, states[i].calls[n].key)
  {
    RunKeeps(states, i);
    LastIsHitWhen(states[i].log, states[i].calls[n].key);
  }

  // ----- runs in which no call starts under a key that another still holds -----

  /** The server has dropped the key of every earlier call that had it, which no client can see. */
  ghost predicate Unused(s: State, key: string) {
    forall c <- s.calls :: c.key == key ==> c.phase.Done?
  }

  ghost predicate CarefulNext(s: State, s': State) {
    Next(s, s') && forall key, progress :: s' == Start(s, key, progress) ==> Unused(s, key)
  }

  /** Each open call owns its key, and `cancelled` tells whether it was cancelled in time. */
  ghost predicate OwnsKey(s: State, n: nat)
    requires n < |s.calls|
  {
    var c := s.calls[n];
    && (!c.phase.Done? ==> c.key in s.active && s.active[c.key] == n)
    && match c.phase {
         case Silenced => c.hit
         case Replying(_) => !c.hit
         case Finishing => !c.hit && c.written != []
         case Done => c.hit <==> c.written == []
         case _ => c.hit <==> c.key in s.cancelled
       }
  }

  ghost predicate CarefulInv(s: State) {
    && (forall n :: 0 <= n < |s.calls| ==> OwnsKey(s, n))
    && (forall c <- s.calls :: WritesFit(c)) && s.cancelled <= s.active.Keys
  }

  lemma CarefulStart(s: State, key: string, progress: bool)
    requires Inv(s) && CarefulInv(s) && Unused(s, key)
    ensures CarefulInv(Start(s, key, progress))
  {
    StartKeeps(s, key, progress);
    hide WritesFit, LastIsHit;
    var s' := Start(s, key, progress);
    forall n | 0 <= n < |s'.calls| ensures OwnsKey(s', n) {
      assert n < |s.calls| ==> OwnsKey(s, n) && s.calls[n] in s.calls;
    }
  }

  lemma CarefulCancel(s: State, key: string)
    requires Inv(s) && CarefulInv(s)
    ensures CarefulInv(Cancel(s, key))
  {
    CancelKeeps(s, key);
    hide WritesFit, LastIsHit;
    var s' := Cancel(s, key);
    forall n | 0 <= n < |s'.calls| ensures OwnsKey(s', n) {
      assert OwnsKey(s, n);
    }
  }

  lemma CarefulFinish(s: State, n: nat, s': State)
    requires Inv(s) && CarefulInv(s) && Finishes(s, n, s')
    ensures CarefulInv(s')
  {
    FinishKeeps(s, n, s');
    assert OwnsKey(s, n) && WritesFit(s.calls[n]);
    hide WritesFit, LastIsHit;
    forall m | 0 <= m < |s'.calls| ensures OwnsKey(s', m) {
      assert OwnsKey(s, m);
    }
  }

  lemma CarefulMove(s: State, n: nat, s': State)
    requires Inv(s) && CarefulInv(s) && Inv(s') && n < |s.calls|
    requires |s'.calls| == |s.calls| && s' == s.(calls := s.calls[n := s'.calls[n]]) && OwnsKey(s', n)
    ensures CarefulInv(s')
  {
    hide WritesFit, LastIsHit;
    forall m | 0 <= m < |s'.calls| ensures OwnsKey(s', m) {
      assert OwnsKey(s, m);
    }
  }

  lemma CarefulNextKeeps(s: State, s': State)
    requires Inv(s) && CarefulInv(s) && CarefulNext(s, s')
    ensures CarefulInv(s')
  {
    NextKeeps(s, s');
    hide Start, Cancel, Finishes, Inv, CarefulInv, LastIsHit, WritesFit;
    if key, progress :| s' == Start(s, key, progress) {
      CarefulStart(s, key, progress);
    } else if key :| s' == Cancel(s, key) {
      CarefulCancel(s, key);
    } else if n: nat :| Finishes(s, n, s') {
      CarefulFinish(s, n, s');
    } else {
      CarefulGoroutine(s, s');
    }
  }

  lemma Owner(s: State, n: nat)
    requires CarefulInv(s) && n < |s.calls|
    ensures OwnsKey(s, n)
  {
  }

  lemma CarefulGoroutine(s: State, s': State)
    requires Inv(s) && CarefulInv(s) && Inv(s')
    requires (exists n: nat, ok :: Returns(s, n, ok, s')) || (exists n: nat :: Reports(s, n, s'))
          || (exists n: nat :: Checks(s, n, s')) || (exists n: nat :: Writes(s, n, s'))
    ensures CarefulInv(s')
  {
    hide Inv, CarefulInv;
    if n: nat, ok :| Returns(s, n, ok, s') {
      Owner(s, n);
      CarefulMove(s, n, s');
    } else if n: nat :| Reports(s, n, s') {
      Owner(s, n);
      CarefulMove(s, n, s');
    } else if n: nat :| Checks(s, n, s') {
      Owner(s, n);
      CarefulMove(s, n, s');
    } else {
      var n: nat :| Writes(s, n, s');
      Owner(s, n);
      CarefulMove(s, n, s');
    }
  }

  ghost predicate IsCarefulRun(states: seq<State>) {
    && states != [] && states[0] == START
    && forall i :: 1 <= i < |states| ==> CarefulNext(states[i - 1], states[i])
  }

  lemma {:induction false} CarefulRunKeeps(states: seq<State>, i: nat)
    requires IsCarefulRun(states) && i < |states|
    ensures Inv(states[i]) && CarefulInv(states[i])
  {
    hide CarefulNext, Inv, CarefulInv;
    if i > 0 {
      CarefulRunKeeps(states, i - 1);
      assert Next(states[i - 1], states[i]) by {
        CarefulIsNext(states[i - 1], states[i]);
      }
      NextKeeps(states[i - 1], states[i]);
      CarefulNextKeeps(states[i - 1], states[i]);
    } else {
      StartFits();
    }
  }

  lemma CarefulIsNext(s: State, s': State)
    requires CarefulNext(s, s')
    ensures Next(s, s')
  {
  }

  lemma StartFits()
    ensures Inv(START) && CarefulInv(START)
  {
  }

  // ----- what a client sees -----

  /** Step `i` is a cancellation of call `n` before its last check. */
  ghost predicate CancelsInTime(states: seq<State>, i: nat, n: nat) {
    && i + 1 < |states| && n < |states[i].calls| && Unchecked(states[i].calls[n].phase)
    && states[i + 1] == Cancel(states[i], states[i].calls[n].key)
  }

  /** A step changes the history of a call only by cancelling it. */
  lemma StepHits(s: State, s': State, n: nat)
    requires Next(s, s') && n < |s.calls| && (Unchecked(s.calls[n].phase) ==> s.calls[n].key in s.active)
    ensures n < |s'.calls| && s'.calls[n].key == s.calls[n].key
    ensures s'.calls[n].hit <==> s.calls[n].hit || (Unchecked(s.calls[n].phase) && s' == Cancel(s, s.calls[n].key))
  {
    if key, progress :| s' == Start(s, key, progress) {
    } else if key :| s' == Cancel(s, key) {
    } else if m: nat, ok :| Returns(s, m, ok, s') {
    } else if m: nat :| Reports(s, m, s') {
    } else if m: nat :| Checks(s, m, s') {
    } else if m: nat :| Writes(s, m, s') {
    }
  }

  lemma StepCalls(s: State, s': State)
    requires Next(s, s')
    ensures |s.calls| <= |s'.calls| && forall n :: |s.calls| <= n < |s'.calls| ==> !s'.calls[n].hit
  {
    if key, progress :| s' == Start(s, key, progress) {
    } else if key :| s' == Cancel(s, key) {
    }
  }

  lemma {:induction false} CallsGrow(states: seq<State>, i: nat, j: nat)
    requires IsCarefulRun(states) && i <= j < |states|
    ensures |states[i].calls| <= |states[j].calls|
    decreases j
  {
    if i < j {
      CallsGrow(states, i, j - 1);
      CarefulIsNext(states[j - 1], states[j]);
      hide Next, CarefulNext;
      StepCalls(states[j - 1], states[j]);
    }
  }

  /** A cancellation was sent in time before state `j`. */
  ghost predicate Cancelled(states: seq<State>, j: nat, n: nat) {
    exists i :: 0 <= i < j && CancelsInTime(states, i, n)
  }

  lemma CancelledNext(states: seq<State>, j: nat, n: nat)
    ensures Cancelled(states, j + 1, n) <==> Cancelled(states, j, n) || CancelsInTime(states, j, n)
  {
    hide CancelsInTime;
  }

  /** A call is hit exactly when a cancellation was sent for it before its check; none of these is ignored. */
  lemma {:induction false} HitWhen(states: seq<State>, j: nat, n: nat)
    requires IsCarefulRun(states) && j < |states| && n < |states[j].calls|
    ensures states[j].calls[n].hit <==> Cancelled(states, j, n)
    decreases j
  {
    if j > 0 {
      var s, s' := states[j - 1], states[j];
      CarefulIsNext(s, s');
      CarefulRunKeeps(states, j - 1);
      hide Next, CarefulNext, Inv, CarefulInv, Start, Cancel;
      if n < |s.calls| {
        HitWhen(states, j - 1, n);
        Owner(s, n);
        StepHits(s, s', n);
        CancelledNext(states, j - 1, n);
      } else {
        StepCalls(s, s');
        forall i: nat | i < j ensures !CancelsInTime(states, i, n) {
          CallsGrow(states, i, j - 1);
        }
      }
    }
  }

  /** A call that is cancelled before its check never writes a reply; every other call has written exactly one when it
      is done. */
  lemma CancelledCallsStaySilent(states: seq<State>, j: nat, n: nat)
    requires IsCarefulRun(states) && j < |states| && n < |states[j].calls|
    ensures Cancelled(states, j, n) ==> states[j].calls[n].written == []
    ensures states[j].calls[n].phase.Done? ==> |states[j].calls[n].written| == if Cancelled(states, j, n) then 0 else 1
  {
    HitWhen(states, j, n);
    CarefulRunKeeps(states, j);
    Owner(states[j], n);
    assert WritesFit(states[j].calls[n]);
  }

  /** No earlier request had the key. */
  ghost predicate Fresh(s: State, key: string) {
    forall c <- s.calls :: c.key != key
  }

  ghost predicate StartsFresh(s: State, s': State) {
    forall key, progress :: s' == Start(s, key, progress) ==> Fresh(s, key)
  }

  /** What a client can do to be safe: never use an id twice. */
  ghost predicate UsesFreshIds(states: seq<State>) {
    forall i :: 1 <= i < |states| ==> StartsFresh(states[i - 1], states[i])
  }

  /** So the theorem holds for every client that does, whatever the server's calls are doing. */
  lemma FreshIdsAreCareful(states: seq<State>)
    requires IsRun(states) && UsesFreshIds(states)
    ensures IsCarefulRun(states)
  {
    forall i | 1 <= i < |states| ensures CarefulNext(states[i - 1], states[i]) {
      FreshIsCareful(states[i - 1], states[i]);
    }
  }

  lemma FreshIsCareful(s: State, s': State)
    requires Next(s, s') && StartsFresh(s, s')
    ensures CarefulNext(s, s')
  {
    hide Next, Start;
  }

  /** With a repeated id that fails: two open calls under one id, a cancellation, and the end of the first call
      wipes the mark of the second, which is cancelled and yet replies. */
  lemma RepeatedIdLosesCancellation(key: string) returns (states: seq<State>)
    ensures IsRun(states)
    ensures var last := states[|states| - 1];
      |last.calls| == 2 && last.calls[1].key == key && last.calls[1].hit && last.calls[1].written == [ResultReply]
  {
    var s1 := Start(START, key, false);
    var s2 := Start(s1, key, false);
    var s3 := Cancel(s2, key);
    var s4 := Moved(s3, 0, Checking(true));
    var s5 := Moved(s4, 0, Silenced);
    var s6 := State(s5.active - {key}, s5.cancelled - {key}, s5.calls[0 := s5.calls[0].(phase := Done)],
                    s5.log + [Finished(key)]);
    var s7 := Moved(s6, 1, Checking(true));
    var s8 := Moved(s7, 1, Replying(true));
    var s9 := s8.(calls := s8.calls[1 := s8.calls[1].(phase := Finishing, written := [ResultReply])]);
    assert Returns(s3, 0, true, s4);
    assert Checks(s4, 0, s5);
    assert Finishes(s5, 0, s6);
    assert Returns(s6, 1, true, s7);
    assert Checks(s7, 1, s8);
    assert s8.calls[1].written + [ResultReply] == [ResultReply];
    assert Writes(s8, 1, s9);
    states := [START, s1, s2, s3, s4, s5, s6, s7, s8, s9];
  }

  ghost predicate IsChain(states: seq<State>) {
    forall i :: 1 <= i < |states| ==> Next(states[i - 1], states[i])
  }

  lemma RunGoesOn(states: seq<State>, rest: seq<State>)
    requires IsRun(states) && rest != [] && IsChain(rest) && Next(states[|states| - 1], rest[0])
    ensures IsRun(states + rest)
  {
    hide Next;
    var all := states + rest;
    forall i | 1 <= i < |all| ensures Next(all[i - 1], all[i]) {
      if i > |states| {
        assert Next(rest[i - |states| - 1], rest[i - |states|]);
      }
    }
  }

  /** One call, its reply written and its key still held. */
  function Answered(key: string): State {
    State(map[key := 0], {}, [Call(key, false, Finishing, false, [ResultReply])], [Started(key)])
  }

  lemma AnsweredRun(key: string) returns (states: seq<State>)
    ensures IsRun(states) && |states| == 5 && states[4] == Answered(key)
  {
    var s1 := Start(START, key, false);
    var s2 := Moved(s1, 0, Checking(true));
    var s3 := Moved(s2, 0, Replying(true));
    assert Returns(s1, 0, true, s2);
    assert Checks(s2, 0, s3);
    assert s3.calls[0].written + [ResultReply] == [ResultReply];
    assert Writes(s3, 0, Answered(key));
    states := [START, s1, s2, s3, Answered(key)];
  }

  /** From there, a second call under the key, its cancellation, the end of the first call, and a reply nonetheless. */
  lemma MarkLost(key: string) returns (rest: seq<State>)
    ensures IsChain(rest) && |rest| == 6 && rest[0] == Start(Answered(key), key, false) && rest[1] == Cancel(rest[0], key)
    ensures |rest[5].calls| == 2 && rest[5].calls[1].key == key && rest[5].calls[1].written == [ResultReply]
  {
    var s1 := Start(Answered(key), key, false);
    var s2 := Cancel(s1, key);
    var s3 := State(s2.active - {key}, s2.cancelled - {key}, s2.calls[0 := s2.calls[0].(phase := Done)],
                    s2.log + [Finished(key)]);
    var s4 := Moved(s3, 1, Checking(true));
    var s5 := Moved(s4, 1, Replying(true));
    var s6 := s5.(calls := s5.calls[1 := s5.calls[1].(phase := Finishing, written := [ResultReply])]);
    assert Finishes(s2, 0, s3);
    assert Returns(s3, 1, true, s4);
    assert Checks(s4, 1, s5);
    assert s5.calls[1].written + [ResultReply] == [ResultReply];
    assert Writes(s5, 1, s6);
    rest := [s1, s2, s3, s4, s5, s6];
  }

  /** Nor is it enough to wait for the reply before reusing its id: the end of the first call, after its reply, still
      wipes the mark of the second. */
  lemma ReusedIdLosesCancellation(key: string) returns (states: seq<State>)
    ensures IsRun(states) && |states| > 6
    ensures |states[4].calls| == 1 && states[4].calls[0].written == [ResultReply] && states[5] == Start(states[4], key, false)
    ensures CancelsInTime(states, 5, 1)
    ensures var last := states[|states| - 1];
      |last.calls| == 2 && last.calls[1].key == key && last.calls[1].written == [ResultReply]
  {
    var first := AnsweredRun(key);
    var rest := MarkLost(key);
    assert Next(first[4], rest[0]);
    hide Next, Cancel, IsRun, IsChain;
    RunGoesOn(first, rest);
    states := first + rest;
    assert states[4] == first[4] && states[5] == rest[0] && states[6] == rest[1] && states[10] == rest[5];
  }

  // ----- the server object -----

  /** The maps of `mcpServer` and the sections that change them, each of which is one step. */
  class Server {
    var active: map<string, nat>
    var cancelled: set<string>
    var started: nat
    ghost var state: State

    ghost predicate Valid()
      reads this
    {
      active == state.active && cancelled == state.cancelled && started == |state.calls| && Inv(state)
    }

    constructor ()
      ensures Valid() && state == START
    {
      active, cancelled, started, state := map[], {}, 0, START;
    }

    method BeginCall(key: string, progress: bool) returns (n: nat)
      requires Valid()
      modifies this
      ensures Valid() && state == Start(old(state), key, progress) && n == |old(state).calls|
    {
      StartKeeps(state, key, progress);
      hide Inv;
      n := started;
      active := active[key := n];
      cancelled := cancelled - {key};
      started := started + 1;
      state := Start(state, key, progress);
    }

    /** Returns the call whose context is to be cancelled. */
    method HandleCancelled(key: string) returns (target: set<nat>)
      requires Valid()
      modifies this`cancelled, this`state
      ensures Valid() && state == Cancel(old(state), key)
      ensures target == if key in active then {active[key]} else {}
    {
      CancelKeeps(state, key);
      hide Inv;
      if key !in active {
        return {};
      }
      cancelled := cancelled + {key};
      target := {active[key]};
      state := Cancel(state, key);
    }

    method IsCancelled(n: nat, key: string) returns (yes: bool)
      requires Valid() && n < |state.calls| && state.calls[n].phase.Checking? && state.calls[n].key == key
      modifies this`state
      ensures Valid() && Checks(old(state), n, state)
      ensures yes <==> state.calls[n].phase.Silenced?
    {
      yes := key in cancelled;
      ghost var after := Moved(state, n, if yes then Silenced else Replying(state.calls[n].phase.ok));
      assert Checks(state, n, after);
      GoroutineMoves(state, after);
      hide Inv;
      state := after;
    }

    method FinishRequest(n: nat, key: string)
      requires Valid() && n < |state.calls| && state.calls[n].key == key
      requires state.calls[n].phase.Silenced? || state.calls[n].phase.Finishing?
      modifies this`active, this`cancelled, this`state
      ensures Valid() && Finishes(old(state), n, state)
    {
      ghost var after := State(state.active - {key}, state.cancelled - {key},
                               state.calls[n := state.calls[n].(phase := Done)], state.log + [Finished(key)]);
      FinishKeeps(state, n, after);
      hide Inv;
      active := active - {key};
      cancelled := cancelled - {key};
      state := after;
    }
  }
}
