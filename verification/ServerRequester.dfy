/** `mcp_client_requester.go`: matching the client's responses to the server's requests, as steps that hold the lock. */
module ServerRequester {
  import opened Wrappers
  import opened Text

  /** A response from the client, with the id it claims to answer. */
  datatype Message = Message(id: string, raw: string)

  /** How a call stops waiting. `Got(k)` is the client's `k`-th response. */
  datatype Outcome = SendFailed | TimedOut | Got(k: nat)

  datatype Phase = Sending | Waiting | Leaving(outcome: Outcome) | Returned(outcome: Outcome)

  /** A delivery that has looked its channel up and not yet offered its response. */
  datatype Delivery = Delivery(channel: nat, k: nat)

  /** One call: what its channel buffers and, as history, every response offered to that channel. */
  datatype Call = Call(phase: Phase, slot: Option<nat>, offered: seq<nat>)

  /** `counter` and `pending` are the fields of `serverRequester`; `pending` leads to the channel of call `n`.
      `messages` is history: every response the client sent. */
  datatype State = State(
    counter: nat, pending: map<string, nat>, calls: map<nat, Call>, flying: multiset<Delivery>, messages: seq<Message>)

  function IdOf(n: nat): string {
    "srv-" + Decimal(n)
  }

  predicate InFlight(p: Phase) {
    !p.Returned?
  }

  const START := State(0, map[], map[], multiset{}, [])

  // ----- the steps -----

  /** The first critical section of `call`. */
  function Register(s: State): State {
    var n := s.counter + 1;
    s.(counter := n, pending := s.pending[IdOf(n) := n], calls := s.calls[n := Call(Sending, None, [])])
  }

  ghost predicate MovesTo(s: State, n: nat, c: Call, s': State) {
    s' == s.(calls := s.calls[n := c])
  }

  /** `send` returns. */
  ghost predicate Sends(s: State, n: nat, ok: bool, s': State) {
    && n in s.calls && s.calls[n].phase == Sending
    && MovesTo(s, n, s.calls[n].(phase := if ok then Waiting else Leaving(SendFailed)), s')
  }

  /** The critical section of `deliver`. */
  function Lookup(s: State, m: Message): State {
    var logged := s.(messages := s.messages + [m]);
    if m.id in s.pending then logged.(flying := s.flying + multiset{Delivery(s.pending[m.id], |s.messages|)}) else logged
  }

  function Offered(c: Call, k: nat): Call {
    Call(c.phase, if c.slot.None? then Some(k) else c.slot, c.offered + [k])
  }

  /** The non-blocking send of `deliver`, outside the lock. */
  ghost predicate Offers(s: State, d: Delivery, s': State) {
    && d in s.flying && d.channel in s.calls
    && MovesTo(s.(flying := s.flying - multiset{d}), d.channel, Offered(s.calls[d.channel], d.k), s')
  }

  /** The receive case of the `select` in `call`. */
  ghost predicate Receives(s: State, n: nat, s': State) {
    && n in s.calls && s.calls[n].phase == Waiting && s.calls[n].slot.Some?
    && MovesTo(s, n, s.calls[n].(phase := Leaving(Got(s.calls[n].slot.value)), slot := None), s')
  }

  /** Its other case: the deadline or the caller's cancellation, whether or not a response is there. */
  ghost predicate TimesOut(s: State, n: nat, s': State) {
    n in s.calls && s.calls[n].phase == Waiting && MovesTo(s, n, s.calls[n].(phase := Leaving(TimedOut)), s')
  }

  /** The deferred critical section of `call`. */
  ghost predicate Unregisters(s: State, n: nat, s': State) {
    && n in s.calls && s.calls[n].phase.Leaving?
    && MovesTo(s.(pending := s.pending - {IdOf(n)}), n, s.calls[n].(phase := Returned(s.calls[n].phase.outcome)), s')
  }

  ghost predicate Next(s: State, s': State) {
    || s' == Register(s)
    || (exists n, ok :: Sends(s, n, ok, s'))
    || (exists m :: s' == Lookup(s, m))
    || (exists d :: Offers(s, d, s'))
    || (exists n :: Receives(s, n, s'))
    || (exists n :: TimesOut(s, n, s'))
    || (exists n :: Unregisters(s, n, s'))
  }

  // ----- what every step keeps -----

  /** The channel of a waiting call buffers the first response offered to it, and that is the one a call gets. */
  ghost predicate Fits(c: Call) {
    match c.phase
    case Sending => c.slot == First(c)
    case Waiting => c.slot == First(c)
    case Leaving(o) => o.Got? ==> First(c) == Some(o.k)
    case Returned(o) => o.Got? ==> First(c) == Some(o.k)
  }

  ghost function First(c: Call): Option<nat> {
    if c.offered == [] then None else Some(c.offered[0])
  }

  ghost predicate CallsFit(s: State) {
    && (forall n :: n in s.calls <==> 1 <= n <= s.counter)
    && forall n <- s.calls :: Fits(s.calls[n])
  }

  /** `pending` lists exactly the calls that have not returned, each under its own id. */
  ghost predicate PendingFits(s: State) {
    && (forall n <- s.calls :: InFlight(s.calls[n].phase) ==> IdOf(n) in s.pending && s.pending[IdOf(n)] == n)
    && forall id <- s.pending :: var n := s.pending[id]; id == IdOf(n) && n in s.calls && InFlight(s.calls[n].phase)
  }

  ghost predicate Answers(s: State, n: nat, k: nat) {
    k < |s.messages| && s.messages[k].id == IdOf(n)
  }

  /** A response is only ever routed to the channel of the call whose id it carries. */
  ghost predicate RoutesFit(s: State) {
    && (forall d <- s.flying :: d.channel in s.calls && Answers(s, d.channel, d.k))
    && forall n <- s.calls :: forall k <- s.calls[n].offered :: Answers(s, n, k)
  }

  ghost predicate Inv(s: State) {
    CallsFit(s) && PendingFits(s) && RoutesFit(s)
  }

  lemma IdsDiffer(m: nat, n: nat)
    ensures IdOf(m) == IdOf(n) <==> m == n
  {
    assert Decimal(m) == IdOf(m)[4..] && Decimal(n) == IdOf(n)[4..];
    if IdOf(m) == IdOf(n) {
      DecimalInjective(m, n);
    }
  }

  lemma RegisterKeeps(s: State)
    requires Inv(s)
    ensures Inv(Register(s))
  {
    RegisterKeepsPending(s);
    RegisterKeepsRoutes(s);
    hide IdOf, Fits, PendingFits, RoutesFit;
    assert Fits(Call(Sending, None, []));
  }

  lemma RegisterKeepsRoutes(s: State)
    requires CallsFit(s) && RoutesFit(s)
    ensures RoutesFit(Register(s))
  {
    hide IdOf, Fits;
    forall n, k | Answers(s, n, k) ensures Answers(Register(s), n, k) {
    }
    hide Answers;
  }

  lemma RegisterKeepsPending(s: State)
    requires CallsFit(s) && PendingFits(s)
    ensures PendingFits(Register(s)) && Fits(Call(Sending, None, []))
  {
    forall n ensures IdOf(n) == IdOf(s.counter + 1) ==> n == s.counter + 1 {
      IdsDiffer(n, s.counter + 1);
    }
    hide IdOf;
  }

  /** A step of one call that stays in flight and is offered nothing. */
  lemma MoveKeeps(s: State, n: nat, c: Call, s': State)
    requires Inv(s) && n in s.calls && MovesTo(s, n, c, s')
    requires Fits(c) && InFlight(c.phase) && InFlight(s.calls[n].phase) && c.offered == s.calls[n].offered
    ensures Inv(s')
  {
    hide IdOf, Fits;
  }

  lemma SendsKeeps(s: State, n: nat, ok: bool, s': State)
    requires Inv(s) && Sends(s, n, ok, s')
    ensures Inv(s')
  {
    assert Fits(s.calls[n]);
    hide Inv;
    MoveKeeps(s, n, s'.calls[n], s');
  }

  lemma LookupKeeps(s: State, m: Message)
    requires Inv(s)
    ensures Inv(Lookup(s, m))
  {
    hide IdOf, Fits;
    var s' := Lookup(s, m);
    forall n, k | Answers(s, n, k) ensures Answers(s', n, k) {
    }
    assert s'.messages[|s.messages|] == m;
  }

  lemma OffersKeeps(s: State, d: Delivery, s': State)
    requires Inv(s) && Offers(s, d, s')
    ensures Inv(s')
  {
    assert Fits(s.calls[d.channel]);
    assert Fits(s'.calls[d.channel]);
    OffersRoutes(s, d, s');
    hide IdOf, Fits, RoutesFit;
  }

  lemma OffersRoutes(s: State, d: Delivery, s': State)
    requires RoutesFit(s) && Offers(s, d, s')
    ensures RoutesFit(s')
  {
    forall n, k ensures Answers(s, n, k) <==> Answers(s', n, k) {
    }
    hide IdOf, Answers;
    assert forall k <- s'.calls[d.channel].offered :: k in s.calls[d.channel].offered || k == d.k;
  }

  lemma ReceivesKeeps(s: State, n: nat, s': State)
    requires Inv(s) && Receives(s, n, s')
    ensures Inv(s')
  {
    assert Fits(s.calls[n]);
    hide Inv;
    MoveKeeps(s, n, s'.calls[n], s');
  }

  lemma TimesOutKeeps(s: State, n: nat, s': State)
    requires Inv(s) && TimesOut(s, n, s')
    ensures Inv(s')
  {
    hide Inv;
    MoveKeeps(s, n, s'.calls[n], s');
  }

  lemma UnregistersKeeps(s: State, n: nat, s': State)
    requires Inv(s) && Unregisters(s, n, s')
    ensures Inv(s')
  {
    assert Fits(s.calls[n]);
    assert Fits(s'.calls[n]);
    hide IdOf, Fits;
    forall m ensures IdOf(m) == IdOf(n) <==> m == n {
      IdsDiffer(m, n);
    }
    assert CallsFit(s') && RoutesFit(s');
    hide CallsFit, RoutesFit;
  }

  /** Every step keeps the invariant. */
  lemma NextKeeps(s: State, s': State)
    requires Inv(s) && Next(s, s')
    ensures Inv(s')
  {
    hide Inv, Register, Sends, Lookup, Offers, Receives, TimesOut, Unregisters;
    if s' == Register(s) {
      RegisterKeeps(s);
    } else if n, ok :| Sends(s, n, ok, s') {
      SendsKeeps(s, n, ok, s');
    } else if m :| s' == Lookup(s, m) {
      LookupKeeps(s, m);
    } else if d :| Offers(s, d, s') {
      OffersKeeps(s, d, s');
    } else if n :| Receives(s, n, s') {
      ReceivesKeeps(s, n, s');
    } else if n :| TimesOut(s, n, s') {
      TimesOutKeeps(s, n, s');
    } else {
      var n :| Unregisters(s, n, s');
      UnregistersKeeps(s, n, s');
    }
  }

  // ----- whole runs -----

  /** A run of any number of calls and deliveries, in any interleaving. */
  ghost predicate IsRun(states: seq<State>) {
    && states != [] && states[0] == START
    && forall i :: 1 <= i < |states| ==> Next(states[i - 1], states[i])
  }

  lemma {:induction false} RunKeeps(states: seq<State>, i: nat)
    requires IsRun(states) && i < |states|
    ensures Inv(states[i])
  {
    hide Next;
    if i > 0 {
      RunKeeps(states, i - 1);
      NextKeeps(states[i - 1], states[i]);
    }
  }

  /** What no step takes back. */
  ghost predicate Extends(s: State, s': State) {
    && s.counter <= s'.counter && s.messages <= s'.messages
    && forall n <- s.calls :: n in s'.calls && CallExtends(s.calls[n], s'.calls[n])
  }

  ghost predicate CallExtends(c: Call, c': Call) {
    && c.offered <= c'.offered
    && (c.phase.Leaving? || c.phase.Returned? ==>
          !c'.phase.Sending? && !c'.phase.Waiting? && c'.phase.outcome == c.phase.outcome)
    && (c.phase.Returned? ==> c'.phase == c.phase)
  }

  lemma MoveExtends(s: State, s': State, n: nat, c: Call)
    requires n in s.calls && CallExtends(s.calls[n], c)
    requires s'.calls == s.calls[n := c] && s'.counter == s.counter && s'.messages == s.messages
    ensures Extends(s, s')
  {
    forall m <- s.calls ensures CallExtends(s.calls[m], s'.calls[m]) {
    }
  }

  lemma NextExtends(s: State, s': State)
    requires Inv(s) && Next(s, s')
    ensures Extends(s, s')
  {
    hide IdOf, Inv, Extends, Sends, Receives, TimesOut, Unregisters, Offers, Register, Lookup;
    if s' == Register(s) {
      RegisterExtends(s);
    } else if m :| s' == Lookup(s, m) {
      LookupExtends(s, m);
    } else if d :| Offers(s, d, s') {
      OffersExtends(s, d, s');
    } else {
      CallStepExtends(s, s');
    }
  }

  lemma RegisterExtends(s: State)
    requires Inv(s)
    ensures Extends(s, Register(s))
  {
    hide IdOf, Fits, PendingFits, RoutesFit, Extends;
    GrowthExtends(s, Register(s));
  }

  lemma LookupExtends(s: State, m: Message)
    ensures Extends(s, Lookup(s, m))
  {
    hide IdOf, Extends;
    GrowthExtends(s, Lookup(s, m));
  }

  lemma OffersExtends(s: State, d: Delivery, s': State)
    requires Inv(s) && Offers(s, d, s')
    ensures Extends(s, s')
  {
    hide IdOf, Extends, PendingFits, RoutesFit;
    MoveExtends(s, s', d.channel, s'.calls[d.channel]);
  }

  lemma CallStepExtends(s: State, s': State)
    requires Inv(s)
    requires (exists n, ok :: Sends(s, n, ok, s')) || (exists n :: Receives(s, n, s'))
          || (exists n :: TimesOut(s, n, s')) || (exists n :: Unregisters(s, n, s'))
    ensures Extends(s, s')
  {
    hide IdOf, Fits, PendingFits, RoutesFit, Extends;
    if n, ok :| Sends(s, n, ok, s') {
      MoveExtends(s, s', n, s'.calls[n]);
    } else if n :| Receives(s, n, s') {
      MoveExtends(s, s', n, s'.calls[n]);
    } else if n :| TimesOut(s, n, s') {
      MoveExtends(s, s', n, s'.calls[n]);
    } else {
      var n :| Unregisters(s, n, s');
      MoveExtends(s, s', n, s'.calls[n]);
    }
  }

  lemma GrowthExtends(s: State, s': State)
    requires s.counter <= s'.counter && s.messages <= s'.messages
    requires forall n <- s.calls :: n in s'.calls && s'.calls[n] == s.calls[n]
    ensures Extends(s, s')
  {
  }

  lemma {:induction false} RunExtends(states: seq<State>, i: nat, j: nat)
    requires IsRun(states) && i <= j < |states|
    ensures Extends(states[i], states[j])
  {
    hide Next;
    if i < j {
      RunExtends(states, i, j - 1);
      RunKeeps(states, j - 1);
      NextExtends(states[j - 1], states[j]);
      hide Inv;
      ExtendsTransitive(states[i], states[j - 1], states[j]);
    }
  }

  lemma ExtendsTransitive(a: State, b: State, c: State)
    requires Extends(a, b) && Extends(b, c)
    ensures Extends(a, c)
  {
  }

  /** No two calls of a run are given the same id. */
  lemma IdsNeverReused(states: seq<State>, i: nat, j: nat)
    requires IsRun(states) && i < j < |states| - 1
    requires states[i + 1] == Register(states[i]) && states[j + 1] == Register(states[j])
    ensures IdOf(states[i + 1].counter) != IdOf(states[j + 1].counter)
    ensures IdOf(states[j + 1].counter) !in states[j].pending
  {
    RunExtends(states, i + 1, j);
    RunKeeps(states, j);
    IdsDiffer(states[i + 1].counter, states[j + 1].counter);
    RegisterIsFresh(states[j]);
  }

  /** A call that ends with a response ends with the first one offered to it, which the client sent under the id of
      that call; the call still has it at the end of the run, and no other call ever ends with that response. */
  lemma CallGetsFirstOwnResponse(states: seq<State>, i: nat, j: nat, n: nat, k: nat)
    requires IsRun(states) && i <= j < |states|
    requires n in states[i].calls && states[i].calls[n].phase == Returned(Got(k))
    ensures k < |states[i].messages| && states[i].messages[k].id == IdOf(n)
    ensures n in states[j].calls && states[j].calls[n].phase == Returned(Got(k))
    ensures states[j].calls[n].offered != [] && states[j].calls[n].offered[0] == k
    ensures forall m :: m in states[j].calls && states[j].calls[m].phase == Returned(Got(k)) ==> m == n
  {
    RunKeeps(states, i);
    RunKeeps(states, j);
    RunExtends(states, i, j);
    FirstAnswers(states[i], n, k);
    forall m | m in states[j].calls && states[j].calls[m].phase == Returned(Got(k)) ensures m == n {
      FirstAnswers(states[j], m, k);
      IdsDiffer(m, n);
    }
    assert Fits(states[j].calls[n]);
  }

  lemma FirstAnswers(s: State, n: nat, k: nat)
    requires Inv(s) && n in s.calls && s.calls[n].phase == Returned(Got(k))
    ensures Answers(s, n, k)
  {
    hide IdOf;
    assert Fits(s.calls[n]);
    assert k in s.calls[n].offered;
  }

  /** With no call in flight nothing is pending. */
  lemma QuietMeansEmpty(states: seq<State>, i: nat)
    requires IsRun(states) && i < |states|
    requires forall n <- states[i].calls :: !InFlight(states[i].calls[n].phase)
    ensures states[i].pending == map[]
  {
    RunKeeps(states, i);
    hide IdOf;
    assert forall id :: id !in states[i].pending;
  }

  /** A delivery in progress can always finish, full channel or not; if the call it is for still waits, that call has,
      from then on, a response it can take. */
  lemma DeliverNeverBlocks(states: seq<State>, i: nat, d: Delivery)
    requires IsRun(states) && i < |states| && d in states[i].flying
    ensures exists s' ::
      && Offers(states[i], d, s') && s'.flying == states[i].flying - multiset{d} && s'.pending == states[i].pending
      && (s'.calls[d.channel].phase.Waiting? ==> exists s'' :: Receives(s', d.channel, s''))
  {
    RunKeeps(states, i);
    hide IdOf;
    var s := states[i];
    var s' := s.(flying := s.flying - multiset{d}, calls := s.calls[d.channel := Offered(s.calls[d.channel], d.k)]);
    assert Offers(s, d, s');
    if s'.calls[d.channel].phase.Waiting? {
      CanReceive(s', d.channel);
    }
  }

  lemma CanReceive(s: State, n: nat)
    requires n in s.calls && s.calls[n].phase.Waiting? && s.calls[n].slot.Some?
    ensures exists s' :: Receives(s, n, s')
  {
    var s' := s.(calls := s.calls[n := s.calls[n].(phase := Leaving(Got(s.calls[n].slot.value)), slot := None)]);
    assert Receives(s, n, s');
  }

  /** A response with an id that no call in flight has reaches no channel. */
  lemma StrayResponseIgnored(states: seq<State>, i: nat, m: Message)
    requires IsRun(states) && i < |states|
    ensures (forall n <- states[i].calls :: InFlight(states[i].calls[n].phase) ==> IdOf(n) != m.id)
            <==> Lookup(states[i], m).flying == states[i].flying
  {
    RunKeeps(states, i);
    hide IdOf;
    var s := states[i];
    if m.id in s.pending {
      var d := Delivery(s.pending[m.id], |s.messages|);
      assert (s.flying + multiset{d})[d] == s.flying[d] + 1;
    }
  }

  // ----- the requester object -----

  /** Its critical sections and channel operations, each of which is one step of the protocol. */
  class Requester {
    var counter: nat
    var pending: map<string, nat>
    /** The buffers of the one-slot channels, by call. */
    var slots: map<nat, Option<nat>>
    ghost var state: State

    ghost predicate Valid()
      reads this
    {
      && counter == state.counter && pending == state.pending && Inv(state)
      && slots.Keys == state.calls.Keys && forall n <- slots :: slots[n] == state.calls[n].slot
    }

    constructor ()
      ensures Valid() && state == START
    {
      counter, pending, slots, state := 0, map[], map[], START;
    }

    method Begin() returns (id: string, channel: nat)
      requires Valid()
      modifies this
      ensures Valid() && state == Register(old(state))
      ensures id == IdOf(channel) && id !in old(pending) && pending == old(pending)[id := channel]
    {
      hide IdOf, Fits;
      RegisterKeeps(state);
      RegisterIsFresh(state);
      hide Inv;
      counter := counter + 1;
      channel, id := counter, IdOf(counter);
      slots := slots[channel := None];
      pending := pending[id := channel];
      state := Register(state);
    }

    /** `send` and the deadline touch no field of the requester. */
    ghost method Sent(n: nat, ok: bool)
      requires Valid() && n in state.calls && state.calls[n].phase.Sending?
      modifies this`state
      ensures Valid() && Sends(old(state), n, ok, state)
    {
      var after := state.(calls := state.calls[n := state.calls[n].(phase := if ok then Waiting else Leaving(SendFailed))]);
      SendsKeeps(state, n, ok, after);
      hide Inv;
      state := after;
    }

    ghost method Expire(n: nat)
      requires Valid() && n in state.calls && state.calls[n].phase.Waiting?
      modifies this`state
      ensures Valid() && TimesOut(old(state), n, state)
    {
      var after := state.(calls := state.calls[n := state.calls[n].(phase := Leaving(TimedOut))]);
      TimesOutKeeps(state, n, after);
      hide Inv;
      state := after;
    }

    method Find(m: Message) returns (channel: Option<nat>)
      requires Valid()
      modifies this`state
      ensures Valid() && state == Lookup(old(state), m)
      ensures channel == if m.id in pending then Some(pending[m.id]) else None
    {
      hide Inv;
      LookupKeeps(state, m);
      channel := if m.id in pending then Some(pending[m.id]) else None;
      state := Lookup(state, m);
    }

    method Offer(d: Delivery)
      requires Valid() && d in state.flying
      modifies this`state, this`slots
      ensures Valid() && Offers(old(state), d, state)
    {
      assert d.channel in state.calls;
      ghost var after := state.(flying := state.flying - multiset{d},
                                calls := state.calls[d.channel := Offered(state.calls[d.channel], d.k)]);
      OffersKeeps(state, d, after);
      hide Inv;
      if slots[d.channel].None? {
        slots := slots[d.channel := Some(d.k)];
      }
      state := after;
    }

    method Receive(n: nat) returns (k: nat)
      requires Valid() && n in state.calls && state.calls[n].phase.Waiting? && slots[n].Some?
      modifies this`state, this`slots
      ensures Valid() && Receives(old(state), n, state) && state.calls[n].phase == Leaving(Got(k))
    {
      k := slots[n].value;
      ghost var after := state.(calls := state.calls[n := state.calls[n].(phase := Leaving(Got(k)), slot := None)]);
      ReceivesKeeps(state, n, after);
      hide Inv;
      slots := slots[n := None];
      state := after;
    }

    method End(n: nat)
      requires Valid() && n in state.calls && state.calls[n].phase.Leaving?
      modifies this`state, this`pending
      ensures Valid() && Unregisters(old(state), n, state)
    {
      ghost var c := state.calls[n];
      ghost var after := state.(pending := state.pending - {IdOf(n)}, calls := state.calls[n := c.(phase := Returned(c.phase.outcome))]);
      UnregistersKeeps(state, n, after);
      hide Inv;
      pending := pending - {IdOf(n)};
      state := after;
    }
  }

  lemma RegisterIsFresh(s: State)
    requires Inv(s)
    ensures IdOf(s.counter + 1) !in s.pending
  {
    var id := IdOf(s.counter + 1);
    if id in s.pending {
      IdsDiffer(s.pending[id], s.counter + 1);
    }
  }
}
