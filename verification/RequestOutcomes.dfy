/** How a request to the client ends, in terms of what happened to it. */
module RequestOutcomes {
  import opened Wrappers
  import opened ServerRequester

  ghost predicate HasSent(states: seq<State>, i: nat, n: nat, ok: bool)
    requires i < |states|
  {
    exists j :: 0 <= j < i && Sends(states[j], n, ok, states[j + 1])
  }

  ghost predicate HasExpired(states: seq<State>, i: nat, n: nat)
    requires i < |states|
  {
    exists j :: 0 <= j < i && TimesOut(states[j], n, states[j + 1])
  }

  ghost predicate HasReceived(states: seq<State>, i: nat, n: nat)
    requires i < |states|
  {
    exists j :: 0 <= j < i && Receives(states[j], n, states[j + 1])
  }

  ghost predicate Ended(p: Phase, o: Outcome) {
    p == Leaving(o) || p == Returned(o)
  }

  ghost predicate EndedWell(p: Phase) {
    (p.Leaving? || p.Returned?) && p.outcome.Got?
  }

  /** How one step can change the phase of a call that was there before. */
  ghost predicate PhaseMoves(s: State, s': State, n: nat, p: Phase, p': Phase) {
    && (Sends(s, n, true, s') <==> p == Sending && p' == Waiting)
    && (Sends(s, n, false, s') <==> p == Sending && p' == Leaving(SendFailed))
    && (TimesOut(s, n, s') <==> p == Waiting && p' == Leaving(TimedOut))
    && (Receives(s, n, s') <==> p == Waiting && p'.Leaving? && p'.outcome.Got?)
    && (p' == p || p == Sending || p == Waiting || (p.Leaving? && p' == Returned(p.outcome)))
    && (p == Sending ==> p' == Sending || p' == Waiting || p' == Leaving(SendFailed))
    && (p == Waiting ==> p' == Waiting || p' == Leaving(TimedOut) || (p'.Leaving? && p'.outcome.Got?))
  }

  lemma SamePhase(s: State, s': State, n: nat)
    requires n in s.calls && n in s'.calls && s'.calls[n].phase == s.calls[n].phase
    ensures PhaseMoves(s, s', n, s.calls[n].phase, s'.calls[n].phase)
  {
  }

  lemma OwnStep(s: State, s': State, n: nat, ok: bool)
    requires n in s.calls
    ensures Sends(s, n, ok, s') || TimesOut(s, n, s') || Receives(s, n, s') || Unregisters(s, n, s') ==>
      n in s'.calls && PhaseMoves(s, s', n, s.calls[n].phase, s'.calls[n].phase)
  {
    hide IdOf;
  }

  /** A step that is not one of call `n`'s own leaves its phase. */
  lemma OtherStep(s: State, s': State, n: nat)
    requires CallsFit(s) && Next(s, s') && n in s.calls
    requires !(exists ok :: Sends(s, n, ok, s')) && !TimesOut(s, n, s') && !Receives(s, n, s') && !Unregisters(s, n, s')
    ensures n in s'.calls && s'.calls[n].phase == s.calls[n].phase
  {
    hide CallsFit, Register, Sends, Lookup, Offers, Receives, TimesOut, Unregisters;
    if s' == Register(s) {
      RegisterApart(s, n);
    } else if m :| s' == Lookup(s, m) {
      LookupApart(s, m);
    } else if d :| Offers(s, d, s') {
      OffersApart(s, d, s', n);
    } else if m, ok :| Sends(s, m, ok, s') {
      MoveApart(s, m, s', n, ok);
    } else {
      var m :| Receives(s, m, s') || TimesOut(s, m, s') || Unregisters(s, m, s');
      MoveApart(s, m, s', n, true);
    }
  }

  lemma RegisterApart(s: State, n: nat)
    requires CallsFit(s) && n in s.calls
    ensures var s' := Register(s); n in s'.calls && s'.calls[n] == s.calls[n]
  {
    hide IdOf, Fits;
  }

  lemma LookupApart(s: State, m: Message)
    ensures Lookup(s, m).calls == s.calls
  {
  }

  lemma OffersApart(s: State, d: Delivery, s': State, n: nat)
    requires Offers(s, d, s') && n in s.calls
    ensures n in s'.calls && s'.calls[n].phase == s.calls[n].phase
  {
  }

  lemma MoveApart(s: State, m: nat, s': State, n: nat, ok: bool)
    requires Sends(s, m, ok, s') || Receives(s, m, s') || TimesOut(s, m, s') || Unregisters(s, m, s')
    requires n in s.calls && n != m
    ensures n in s'.calls && s'.calls[n] == s.calls[n]
  {
    hide IdOf;
  }

  lemma StepMovesPhase(s: State, s': State, n: nat)
    requires CallsFit(s) && Next(s, s') && n in s.calls
    ensures n in s'.calls && PhaseMoves(s, s', n, s.calls[n].phase, s'.calls[n].phase)
  {
    hide *;
    if ok :| Sends(s, n, ok, s') {
      OwnStep(s, s', n, ok);
    } else if TimesOut(s, n, s') || Receives(s, n, s') || Unregisters(s, n, s') {
      OwnStep(s, s', n, true);
    } else {
      OtherStep(s, s', n);
      SamePhase(s, s', n);
    }
  }

  lemma CallBegins(s: State, s': State, n: nat)
    requires Next(s, s') && n !in s.calls && n in s'.calls
    ensures s'.calls[n].phase == Sending
  {
    hide IdOf;
  }

  ghost predicate Agrees(p: Phase, sent: bool, failed: bool, expired: bool, received: bool) {
    && (p == Sending <==> !sent && !failed)
    && (Ended(p, SendFailed) <==> failed)
    && (Ended(p, TimedOut) <==> expired)
    && (EndedWell(p) <==> received)
    && (p == Waiting || Ended(p, TimedOut) || EndedWell(p) <==> sent)
  }

  lemma AgreesOn(s: State, s': State, n: nat, p: Phase, p': Phase, sent: bool, failed: bool, expired: bool, received: bool)
    requires Agrees(p, sent, failed, expired, received) && PhaseMoves(s, s', n, p, p')
    ensures Agrees(p', sent || Sends(s, n, true, s'), failed || Sends(s, n, false, s'),
                   expired || TimesOut(s, n, s'), received || Receives(s, n, s'))
  {
    hide Sends, TimesOut, Receives;
  }

  lemma NotBefore(states: seq<State>, i: nat, n: nat)
    requires IsRun(states) && 0 < i < |states| && n !in states[i - 1].calls
    ensures forall j :: 0 <= j < i ==> n !in states[j].calls
  {
    hide IsRun, Inv;
    forall j | 0 <= j < i ensures n !in states[j].calls {
      RunExtends(states, j, i - 1);
    }
  }

  /** The phase of a call agrees with what has happened to it before state `i`. */
  ghost predicate AsItHappened(states: seq<State>, i: nat, n: nat)
    requires i < |states| && n in states[i].calls
  {
    Agrees(states[i].calls[n].phase, HasSent(states, i, n, true), HasSent(states, i, n, false),
           HasExpired(states, i, n), HasReceived(states, i, n))
  }

  lemma Later(states: seq<State>, i: nat, n: nat)
    requires 0 < i < |states|
    ensures forall ok :: HasSent(states, i, n, ok) <==> HasSent(states, i - 1, n, ok) || Sends(states[i - 1], n, ok, states[i])
    ensures HasExpired(states, i, n) <==> HasExpired(states, i - 1, n) || TimesOut(states[i - 1], n, states[i])
    ensures HasReceived(states, i, n) <==> HasReceived(states, i - 1, n) || Receives(states[i - 1], n, states[i])
  {
    hide Sends, TimesOut, Receives;
  }

  lemma StaysAsItHappened(states: seq<State>, i: nat, n: nat)
    requires IsRun(states) && 0 < i < |states| && n in states[i - 1].calls && AsItHappened(states, i - 1, n)
    ensures n in states[i].calls && AsItHappened(states, i, n)
  {
    var s, s' := states[i - 1], states[i];
    assert Next(s, s');
    RunKeeps(states, i - 1);
    assert CallsFit(s);
    hide IsRun, Next, CallsFit, Agrees, PhaseMoves, HasSent, HasExpired, HasReceived;
    StepMovesPhase(s, s', n);
    AgreesOn(s, s', n, s.calls[n].phase, s'.calls[n].phase, HasSent(states, i - 1, n, true), HasSent(states, i - 1, n, false),
             HasExpired(states, i - 1, n), HasReceived(states, i - 1, n));
    Later(states, i, n);
  }

  lemma BeginsAsItHappened(states: seq<State>, i: nat, n: nat)
    requires IsRun(states) && 0 < i < |states| && n !in states[i - 1].calls && n in states[i].calls
    ensures AsItHappened(states, i, n)
  {
    assert Next(states[i - 1], states[i]);
    hide IsRun, Next;
    CallBegins(states[i - 1], states[i], n);
    NotBefore(states, i, n);
  }

  /** In any run: a call that has not sent its request is at its start, a failed send is how a call ends with that
      failure, a deadline with a timeout, a receipt with a response, and only a call whose request went out can end so. */
  lemma {:induction false} EndsAsItHappened(states: seq<State>, i: nat, n: nat)
    requires IsRun(states) && i < |states| && n in states[i].calls
    ensures AsItHappened(states, i, n)
  {
    if i > 0 {
      hide IsRun, AsItHappened;
      if n in states[i - 1].calls {
        EndsAsItHappened(states, i - 1, n);
        StaysAsItHappened(states, i, n);
      } else {
        BeginsAsItHappened(states, i, n);
      }
    }
  }
}
