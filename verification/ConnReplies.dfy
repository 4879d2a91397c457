/** Who gets a reply and who gets EOF, whenever the command channel is closed. */
module ConnReplies {
  import opened ConnCache
  import opened ConnActor
  import opened ConnActorRuns

  /** The party has been accepted at the rendezvous and waits for the reply to its call. */
  ghost predicate WaitsFor(s: State, p: Party, call: nat) {
    p in s.procs && s.procs[p].Waiting? && s.procs[p].call == call
  }

  ghost predicate Waited(s: State, call: nat) {
    exists p :: WaitsFor(s, p, call)
  }

  ghost predicate Sends(s: State, p: Party, call: nat) {
    p in s.procs && s.procs[p].Sending? && s.procs[p].call == call
  }

  ghost predicate AnsweredWithReply(s: State, call: nat) {
    call in s.answers && s.answers[call].Answered?
  }

  ghost predicate AnsweredWithEof(s: State, call: nat) {
    call in s.answers && s.answers[call].Eof?
  }

  // ----- Accepted calls get their reply -----

  ghost predicate Served(s: State, p: Party, call: nat) {
    WaitsFor(s, p, call) || AnsweredWithReply(s, call)
  }

  lemma RefuseKeepsServed(s: State, s': State, q: Party, p: Party, call: nat)
    requires Held(s) && Refuse(s, s', q) && Served(s, p, call)
    ensures Served(s', p, call)
  {
    assert CallOf(s, q, s.procs[q].call);
  }

  lemma DeliverKeepsServed(s: State, s': State, p: Party, call: nat)
    requires InHand(s) && Deliver(s, s') && Served(s, p, call)
    ensures Served(s', p, call)
  {
  }

  lemma AcceptKeepsServed(s: State, s': State, q: Party, p: Party, call: nat)
    requires Accept(s, s', q) && Served(s, p, call)
    ensures Served(s', p, call)
  {
  }

  lemma ExitKeepsServed(s: State, s': State, p: Party, call: nat)
    requires (WorkerExit(s, s') || PollerExit(s, s')) && Served(s, p, call)
    ensures Served(s', p, call)
  {
  }

  lemma SystemStepKeepsServed(ttl: nat, s: State, s': State, p: Party, call: nat)
    requires Held(s) && InHand(s) && SystemStep(ttl, s, s') && Served(s, p, call)
    ensures Served(s', p, call)
  {
    if q :| Refuse(s, s', q) {
      RefuseKeepsServed(s, s', q, p, call);
    } else if Deliver(s, s') {
      DeliverKeepsServed(s, s', p, call);
    } else if q :| Accept(s, s', q) {
      AcceptKeepsServed(s, s', q, p, call);
    } else if WorkerExit(s, s') || PollerExit(s, s') {
      ExitKeepsServed(s, s', p, call);
    } else {
      assert s'.procs == s.procs && s'.answers == s.answers;
    }
  }

  lemma InvokeKeepsServed(s: State, s': State, q: Party, cmd: Cmd, p: Party, call: nat)
    requires Invoke(s, s', q, cmd) && Served(s, p, call)
    ensures Served(s', p, call)
  {
  }

  lemma WorldStepKeepsServed(s: State, s': State, p: Party, call: nat)
    requires WorldStep(s, s') && Served(s, p, call)
    ensures Served(s', p, call)
  {
    if q, cmd :| Invoke(s, s', q, cmd) {
      InvokeKeepsServed(s, s', q, cmd, p, call);
    } else {
      assert s'.procs == s.procs && s'.answers == s.answers;
    }
  }

  lemma StepKeepsServed(ttl: nat, s: State, s': State, p: Party, call: nat)
    requires Inv(ttl, s) && (SystemStep(ttl, s, s') || WorldStep(s, s')) && Served(s, p, call)
    ensures Served(s', p, call)
  {
    if SystemStep(ttl, s, s') {
      SystemStepKeepsServed(ttl, s, s', p, call);
    } else {
      WorldStepKeepsServed(s, s', p, call);
    }
  }

  ghost predicate StaysServed(ss: seq<State>, p: Party, call: nat) {
    forall k :: 0 < k < |ss| && Served(ss[k - 1], p, call) ==> Served(ss[k], p, call)
  }

  lemma RunStaysServed(ttl: nat, ss: seq<State>, p: Party, call: nat)
    requires IsRun(ttl, ss)
    ensures StaysServed(ss, p, call)
  {
    forall k | 0 < k < |ss| && Served(ss[k - 1], p, call)
      ensures Served(ss[k], p, call)
    {
      RunInv(ttl, ss, k - 1);
      StepKeepsServed(ttl, ss[k - 1], ss[k], p, call);
    }
  }

  lemma {:induction false} ServedBetween(ss: seq<State>, i: nat, j: nat, p: Party, call: nat)
    requires StaysServed(ss, p, call) && i <= j < |ss| && Served(ss[i], p, call)
    ensures Served(ss[j], p, call)
    decreases j - i
  {
    if i < j {
      ServedBetween(ss, i, j - 1, p, call);
    }
  }

  /** The call has been accepted in one of the states up to j. */
  ghost predicate AcceptedBy(ss: seq<State>, j: nat, call: nat) {
    exists i :: 0 <= i <= j && i < |ss| && Waited(ss[i], call)
  }

  /** A reply given now goes to a caller that was waiting for it. */
  ghost predicate RepliesToWaiting(s: State, s': State, call: nat) {
    AnsweredWithReply(s', call) ==> AnsweredWithReply(s, call) || Waited(s, call)
  }

  ghost predicate AllReplyToWaiting(ss: seq<State>, call: nat) {
    forall k :: 0 < k < |ss| ==> RepliesToWaiting(ss[k - 1], ss[k], call)
  }

  lemma OnlyDeliverReplies(ttl: nat, s: State, s': State, call: nat)
    requires SystemStep(ttl, s, s') && !Deliver(s, s') && AnsweredWithReply(s', call)
    ensures AnsweredWithReply(s, call)
  {
  }

  lemma WorldDoesNotReply(s: State, s': State)
    requires WorldStep(s, s')
    ensures s'.answers == s.answers
  {
  }

  lemma StepRepliesToWaiting(ttl: nat, s: State, s': State, call: nat)
    requires SystemStep(ttl, s, s') || WorldStep(s, s')
    ensures RepliesToWaiting(s, s', call)
  {
    if AnsweredWithReply(s', call) {
      if Deliver(s, s') {
        assert WaitsFor(s, s.worker.party, s.worker.call);
      } else if SystemStep(ttl, s, s') {
        OnlyDeliverReplies(ttl, s, s', call);
      } else {
        WorldDoesNotReply(s, s');
      }
    }
  }

  lemma RunRepliesToWaiting(ttl: nat, ss: seq<State>, call: nat)
    requires IsRun(ttl, ss)
    ensures AllReplyToWaiting(ss, call)
  {
    forall k | 0 < k < |ss|
      ensures RepliesToWaiting(ss[k - 1], ss[k], call)
    {
      StepRepliesToWaiting(ttl, ss[k - 1], ss[k], call);
    }
  }

  lemma {:induction false} RepliedWasAccepted(ss: seq<State>, j: nat, call: nat)
    requires AllReplyToWaiting(ss, call) && j < |ss| && !AnsweredWithReply(ss[0], call)
    requires AnsweredWithReply(ss[j], call)
    ensures AcceptedBy(ss, j, call)
  {
    assert RepliesToWaiting(ss[j - 1], ss[j], call);
    if AnsweredWithReply(ss[j - 1], call) {
      RepliedWasAccepted(ss, j - 1, call);
    } else {
      assert Waited(ss[j - 1], call);
    }
  }

  /** Whatever a call has come back with, it was EOF if and only if the worker never took it up. */
  lemma EofIffNeverAccepted(ttl: nat, ss: seq<State>, j: nat, call: nat)
    requires IsRun(ttl, ss) && j < |ss| && call in ss[j].answers
    ensures ss[j].answers[call].Eof? <==> !AcceptedBy(ss, j, call)
  {
    if i :| 0 <= i <= j && Waited(ss[i], call) {
      var p :| WaitsFor(ss[i], p, call);
      RunStaysServed(ttl, ss, p, call);
      ServedBetween(ss, i, j, p, call);
      RunInv(ttl, ss, j);
      assert WaitsFor(ss[j], p, call) ==> CallOf(ss[j], p, call);
    }
    if AnsweredWithReply(ss[j], call) {
      RunRepliesToWaiting(ttl, ss, call);
      RepliedWasAccepted(ss, j, call);
    }
  }

  // ----- Calls behind the close get EOF -----

  /** A call the closed channel has not let through and never will. */
  ghost predicate ShutOut(s: State, call: nat) {
    s.closed && (call !in s.invoked || AnsweredWithEof(s, call) || exists p :: Sends(s, p, call))
  }

  lemma InvokeKeepsShutOut(s: State, s': State, q: Party, cmd: Cmd, call: nat)
    requires Counted(s) && Invoke(s, s', q, cmd) && ShutOut(s, call)
    ensures ShutOut(s', call)
  {
    if call == |s.invoked| {
      assert Sends(s', q, call);
    } else if p :| Sends(s, p, call) {
      assert Sends(s', p, call);
    }
  }

  lemma RefuseKeepsShutOut(s: State, s': State, q: Party, call: nat)
    requires Refuse(s, s', q) && ShutOut(s, call)
    ensures ShutOut(s', call)
  {
    if p :| Sends(s, p, call) {
      if p != q {
        assert Sends(s', p, call);
      }
    }
  }

  lemma DeliverKeepsShutOut(s: State, s': State, call: nat)
    requires Held(s) && Deliver(s, s') && ShutOut(s, call)
    ensures ShutOut(s', call)
  {
    var party := s.worker.party;
    assert CallOf(s, party, s.worker.call);
    if p :| Sends(s, p, call) {
      assert p != party;
      assert Sends(s', p, call);
    }
  }

  lemma ExitKeepsShutOut(s: State, s': State, call: nat)
    requires (WorkerExit(s, s') || PollerExit(s, s')) && ShutOut(s, call)
    ensures ShutOut(s', call)
  {
    if p :| Sends(s, p, call) {
      assert Sends(s', p, call);
    }
  }

  lemma TickOrStopKeepsShutOut(ttl: nat, s: State, s': State, call: nat)
    requires Tick(s, s') || Stop(s, s')
    requires ShutOut(s, call)
    ensures ShutOut(s', call)
  {
    if p :| Sends(s, p, call) {
      assert Sends(s', p, call);
    }
  }

  lemma StepKeepsShutOut(ttl: nat, s: State, s': State, call: nat)
    requires Inv(ttl, s) && (SystemStep(ttl, s, s') || WorldStep(s, s')) && ShutOut(s, call)
    ensures ShutOut(s', call)
  {
    if q :| Refuse(s, s', q) {
      RefuseKeepsShutOut(s, s', q, call);
    } else if q, cmd :| Invoke(s, s', q, cmd) {
      InvokeKeepsShutOut(s, s', q, cmd, call);
    } else if Deliver(s, s') {
      DeliverKeepsShutOut(s, s', call);
    } else if WorkerExit(s, s') || PollerExit(s, s') {
      ExitKeepsShutOut(s, s', call);
    } else {
      TickOrStopKeepsShutOut(ttl, s, s', call);
    }
  }

  ghost predicate StaysShutOut(ss: seq<State>, call: nat) {
    forall k :: 0 < k < |ss| && ShutOut(ss[k - 1], call) ==> ShutOut(ss[k], call)
  }

  lemma RunStaysShutOut(ttl: nat, ss: seq<State>, call: nat)
    requires IsRun(ttl, ss)
    ensures StaysShutOut(ss, call)
  {
    forall k | 0 < k < |ss| && ShutOut(ss[k - 1], call)
      ensures ShutOut(ss[k], call)
    {
      RunInv(ttl, ss, k - 1);
      StepKeepsShutOut(ttl, ss[k - 1], ss[k], call);
    }
  }

  lemma {:induction false} ShutOutBetween(ss: seq<State>, i: nat, j: nat, call: nat)
    requires StaysShutOut(ss, call) && i <= j < |ss| && ShutOut(ss[i], call)
    ensures ShutOut(ss[j], call)
    decreases j - i
  {
    if i < j {
      ShutOutBetween(ss, i, j - 1, call);
    }
  }

  /** A call that is shut out is not served, so if it is answered at all, it is with EOF. */
  lemma ShutOutGetsEof(ttl: nat, s: State, call: nat)
    requires Inv(ttl, s) && ShutOut(s, call) && call in s.answers
    ensures call in s.invoked && s.answers[call] == Eof(s.invoked[call].party)
  {
    assert forall p :: Sends(s, p, call) ==> CallOf(s, p, call);
  }

  /** Blocked in the send when the channel is closed, or arriving after that: EOF, on the caller's
      own channel. */
  lemma SendersAtTheCloseGetEof(ttl: nat, ss: seq<State>, i: nat, j: nat, call: nat)
    requires IsRun(ttl, ss) && i <= j < |ss| && ss[i].closed
    requires call !in ss[i].invoked || exists p :: Sends(ss[i], p, call)
    requires call in ss[j].answers
    ensures call in ss[j].invoked && ss[j].answers[call] == Eof(ss[j].invoked[call].party)
  {
    assert ShutOut(ss[i], call);
    RunStaysShutOut(ttl, ss, call);
    ShutOutBetween(ss, i, j, call);
    RunInv(ttl, ss, j);
    ShutOutGetsEof(ttl, ss[j], call);
  }

  /** At any state a call has not been made yet, or is in its sender's hands, or has been accepted,
      or has been answered. */
  lemma WhereACallIs(ttl: nat, s: State, call: nat)
    requires Inv(ttl, s)
    ensures call in s.invoked && call !in s.answers ==> exists p :: Sends(s, p, call) || WaitsFor(s, p, call)
  {
    if call in s.invoked && call !in s.answers {
      var p := s.invoked[call].party;
      assert CallOf(s, p, call);
      assert Sends(s, p, call) || WaitsFor(s, p, call);
    }
  }

  /** A call gets EOF if and only if it had not been accepted before the close; any state in which
      the channel is closed serves as the dividing line. */
  lemma EofIffNotAcceptedBeforeTheClose(ttl: nat, ss: seq<State>, i: nat, j: nat, call: nat)
    requires IsRun(ttl, ss) && i <= j < |ss| && ss[i].closed && call in ss[j].answers
    ensures call in ss[j].invoked && ss[j].answers[call].to == ss[j].invoked[call].party
    ensures ss[j].answers[call].Eof? <==> !AcceptedBy(ss, i, call)
  {
    OneReplyFromASequentialHistory(ttl, ss, j, call);
    EofIffNeverAccepted(ttl, ss, j, call);
    if !AcceptedBy(ss, i, call) {
      if call in ss[i].answers {
        EofIffNeverAccepted(ttl, ss, i, call);
        RunGrows(ttl, ss, i, j);
      } else {
        RunInv(ttl, ss, i);
        WhereACallIs(ttl, ss[i], call);
        assert !Waited(ss[i], call);
        SendersAtTheCloseGetEof(ttl, ss, i, j, call);
      }
    }
  }

  ghost predicate AtRest(ttl: nat, s: State) {
    !exists s' :: SystemStep(ttl, s, s')
  }

  /** When the system has come to rest after the close, every call ever made has been answered:
      with its reply if it was accepted before the close, and with EOF if not. */
  lemma EverybodyIsAnswered(ttl: nat, ss: seq<State>, i: nat, call: nat)
    requires IsRun(ttl, ss) && i < |ss| && ss[i].closed
    requires AtRest(ttl, ss[|ss| - 1])
    requires call in ss[|ss| - 1].invoked
    ensures var answers := ss[|ss| - 1].answers;
            && call in answers
            && (if AcceptedBy(ss, i, call) then answers[call].Answered? else answers[call].Eof?)
  {
    var last := ss[|ss| - 1];
    RunInv(ttl, ss, |ss| - 1);
    if Unfinished(last) {
      UnfinishedMoves(ttl, last);
    } else {
      FinishedState(ttl, last);
      EofIffNotAcceptedBeforeTheClose(ttl, ss, i, |ss| - 1, call);
    }
  }
}
