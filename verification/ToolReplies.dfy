/** What a tool call writes and reports, in terms of how its tool returned and what it was asked for. */
module ToolReplies {
  import opened ToolCalls

  /** Once the tool has returned, the call remembers how, and replies so or not at all. */
  ghost predicate Told(c: Call, ok: bool) {
    && !c.phase.Running?
    && (c.phase.ToolDone? || c.phase.Checking? || c.phase.Replying? ==> c.phase.ok == ok)
    && forall r <- c.written :: r == if ok then ResultReply else ErrorReply
  }

  /** The tool of call `n` has returned before state `i`. */
  ghost predicate ToolReturned(states: seq<State>, i: nat, n: nat, ok: bool)
    requires i < |states|
  {
    exists j :: 0 <= j < i && Returns(states[j], n, ok, states[j + 1])
  }

  ghost predicate HasReported(states: seq<State>, i: nat, n: nat)
    requires i < |states|
  {
    exists j :: 0 <= j < i && Reports(states[j], n, states[j + 1])
  }

  lemma StaysTold(s: State, s': State, n: nat, ok: bool)
    requires Next(s, s') && n < |s.calls| && Told(s.calls[n], ok)
    ensures n < |s'.calls| && Told(s'.calls[n], ok)
  {
  }

  /** How a call stops running. */
  lemma LeavesRunning(s: State, s': State, n: nat)
    requires Next(s, s') && n < |s.calls| && s.calls[n].phase.Running? && s.calls[n].written == []
    ensures n < |s'.calls|
    ensures s'.calls[n].phase.Running? ==> s'.calls[n].written == []
    ensures !s'.calls[n].phase.Running? ==> exists ok :: Returns(s, n, ok, s') && Told(s'.calls[n], ok)
  {
    hide Told;
    if !s'.calls[n].phase.Running? {
      var ok :| Returns(s, n, ok, s');
      ReturnedTold(s, s', n, ok);
    }
  }

  lemma ReturnedTold(s: State, s': State, n: nat, ok: bool)
    requires Returns(s, n, ok, s') && s.calls[n].written == []
    ensures Told(s'.calls[n], ok)
  {
  }

  lemma CallBegins(s: State, s': State, n: nat)
    requires Next(s, s') && |s.calls| <= n < |s'.calls|
    ensures s'.calls[n].phase.Running? && s'.calls[n].written == []
  {
  }

  /** In any run, a call writes a result only after its tool has succeeded, and an error only after it has failed. */
  lemma {:induction false} RepliesTellTruth(states: seq<State>, i: nat, n: nat)
    requires IsRun(states) && i < |states| && n < |states[i].calls|
    ensures var c := states[i].calls[n];
      && (c.phase.Running? ==> c.written == [])
      && (!c.phase.Running? ==> exists ok :: ToolReturned(states, i, n, ok) && Told(c, ok))
      && forall r <- c.written :: ToolReturned(states, i, n, r == ResultReply)
  {
    if i > 0 {
      assert Next(states[i - 1], states[i]);
      var s, s' := states[i - 1], states[i];
      if n < |s.calls| {
        RepliesTellTruth(states, i - 1, n);
        hide IsRun, Next, Returns;
        if s.calls[n].phase.Running? {
          LeavesRunning(s, s', n);
          assert forall ok :: Returns(states[i - 1], n, ok, states[i]) ==> ToolReturned(states, i, n, ok);
        } else {
          var ok :| ToolReturned(states, i - 1, n, ok) && Told(s.calls[n], ok);
          StaysTold(s, s', n, ok);
          assert ToolReturned(states, i, n, ok);
        }
      } else {
        CallBegins(s, s', n);
      }
    }
  }

  // ----- progress -----

  /** What a step does to a call's report. */
  lemma ReportMoves(s: State, s': State, n: nat)
    requires Next(s, s') && n < |s.calls|
    ensures n < |s'.calls| && s'.calls[n].progress == s.calls[n].progress
    ensures Reports(s, n, s') <==> s.calls[n].phase.ToolDone? && !s'.calls[n].phase.ToolDone?
    ensures s'.calls[n].phase.Running? ==> s.calls[n].phase.Running?
    ensures s'.calls[n].phase.ToolDone? ==> s.calls[n].phase.ToolDone? || (s.calls[n].phase.Running? && s.calls[n].progress)
    ensures s.calls[n].phase.Running? ==> s'.calls[n].phase.Running? || s'.calls[n].phase.ToolDone? || !s.calls[n].progress
  {
  }

  lemma {:induction false} CallsStay(states: seq<State>, j: nat, i: nat)
    requires IsRun(states) && j <= i < |states|
    ensures |states[j].calls| <= |states[i].calls|
  {
    if j < i {
      CallsStay(states, j, i - 1);
      assert Next(states[i - 1], states[i]);
      CallsGrow(states[i - 1], states[i]);
    }
  }

  lemma CallsGrow(s: State, s': State)
    requires Next(s, s')
    ensures |s.calls| <= |s'.calls|
  {
  }

  /** In any run, a call has sent its last progress message by its check exactly when it was asked to send any. */
  lemma {:induction false} ReportsWhenAsked(states: seq<State>, i: nat, n: nat)
    requires IsRun(states) && i < |states| && n < |states[i].calls|
    ensures var c := states[i].calls[n];
      && (HasReported(states, i, n) <==> !c.phase.Running? && !c.phase.ToolDone? && c.progress)
      && (c.phase.ToolDone? ==> c.progress)
  {
    if i > 0 {
      assert Next(states[i - 1], states[i]);
      var s, s' := states[i - 1], states[i];
      if n < |s.calls| {
        ReportsWhenAsked(states, i - 1, n);
        ReportMoves(s, s', n);
        hide IsRun, Next, Reports;
        assert HasReported(states, i, n) <==> HasReported(states, i - 1, n) || Reports(states[i - 1], n, states[i]);
      } else {
        CallBegins(s, s', n);
        forall j: nat | j < i ensures |states[j].calls| <= n {
          CallsStay(states, j, i - 1);
        }
        hide IsRun, Next;
      }
    }
  }
}
