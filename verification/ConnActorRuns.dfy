/** What the actor guarantees over its runs: one reply per accepted command, in the order the
    worker received them, no deadlock, and an orderly end after the channel is closed. */
module ConnActorRuns {
  import opened ConnCache
  import opened ConnLease
  import opened ConnActor

  // ----- One reply each, from a sequential history -----

  /** In every state of every run the commands the worker received form a sequential history; a
      call is in it exactly if it was accepted and executed, once; its answer, given on the
      caller's channel, is the reply of its own entry; a call refused with EOF is not in it. */
  lemma OneReplyFromASequentialHistory(ttl: nat, ss: seq<State>, k: nat, call: nat)
    requires IsRun(ttl, ss) && k < |ss|
    ensures var s := ss[k];
            && History(ttl, Items(s.log))
            && (forall i, j :: 0 <= i < j < |s.log| ==> s.log[i].call != s.log[j].call)
            && (call in s.answers ==> call in s.invoked && s.answers[call].to == s.invoked[call].party)
            && (call in s.answers && s.answers[call].Answered? ==>
                  && s.answers[call].place < |s.log| && s.log[s.answers[call].place].call == call
                  && s.log[s.answers[call].place].item.reply == s.answers[call].reply
                  && s.log[s.answers[call].place].item.cmd == s.invoked[call].cmd
                  && s.invoked[call].at <= s.answers[call].place < s.answers[call].returned)
            && (call in s.answers && s.answers[call].Eof? ==> forall i :: 0 <= i < |s.log| ==> s.log[i].call != call)
            && (call in s.invoked && call !in s.answers ==> CallOf(s, s.invoked[call].party, call))
  {
    var s := ss[k];
    RunInv(ttl, ss, k);
    if call in s.answers {
      if s.answers[call].Answered? {
        assert Replied(s, s.answers[call].place);
        NotHeldIfAnswered(s, call);
      } else {
        forall i | 0 <= i < |s.log|
          ensures s.log[i].call != call
        {
          assert Replied(s, i);
          NotHeldIfAnswered(s, call);
        }
      }
    }
  }

  lemma NotHeldIfAnswered(s: State, call: nat)
    requires Calls(s) && InHand(s) && call in s.answers
    ensures s.worker.Replying? ==> s.worker.call != call
  {
  }

  // ----- Real-time order -----

  /** What no step takes back. */
  ghost predicate Grows(s: State, s': State) {
    && s.log <= s'.log
    && (forall call :: call in s.answers ==> call in s'.answers && s'.answers[call] == s.answers[call])
    && (forall call :: call in s.invoked ==> call in s'.invoked && s'.invoked[call] == s.invoked[call])
    && (forall call :: call in s'.invoked && call !in s.invoked ==> s'.invoked[call].at >= |s.log|)
  }

  lemma RefuseGrows(s: State, s': State, p: Party)
    requires Held(s) && Refuse(s, s', p)
    ensures Grows(s, s')
  {
    assert CallOf(s, p, s.procs[p].call);
  }

  lemma DeliverGrows(s: State, s': State)
    requires Held(s) && Deliver(s, s')
    ensures Grows(s, s')
  {
    assert CallOf(s, s.worker.party, s.worker.call);
  }

  lemma UnansweredGrows(s: State, s': State)
    requires s'.answers == s.answers && s'.invoked == s.invoked && s.log <= s'.log
    ensures Grows(s, s')
  {
  }

  lemma SystemStepGrows(ttl: nat, s: State, s': State)
    requires Held(s) && SystemStep(ttl, s, s')
    ensures Grows(s, s')
  {
    if p :| Refuse(s, s', p) {
      RefuseGrows(s, s', p);
    } else if Deliver(s, s') {
      DeliverGrows(s, s');
    } else if item :| Execute(ttl, s, s', item) {
      assert s'.log == s.log + [LogEntry(s.worker.call, item)];
      UnansweredGrows(s, s');
    } else {
      UnansweredGrows(s, s');
    }
  }

  lemma InvokeGrows(s: State, s': State, p: Party, cmd: Cmd)
    requires Counted(s) && Invoke(s, s', p, cmd)
    ensures Grows(s, s')
  {
  }

  lemma WorldStepGrows(s: State, s': State)
    requires Counted(s) && WorldStep(s, s')
    ensures Grows(s, s')
  {
    if p, cmd :| Invoke(s, s', p, cmd) {
      InvokeGrows(s, s', p, cmd);
    }
  }

  lemma StepGrows(ttl: nat, ss: seq<State>, j: nat)
    requires IsRun(ttl, ss) && 0 < j < |ss|
    ensures Grows(ss[j - 1], ss[j])
  {
    RunInv(ttl, ss, j - 1);
    if SystemStep(ttl, ss[j - 1], ss[j]) {
      SystemStepGrows(ttl, ss[j - 1], ss[j]);
    } else {
      WorldStepGrows(ss[j - 1], ss[j]);
    }
  }

  lemma GrowsFurther(s: State, s': State, s'': State)
    requires Grows(s, s') && Grows(s', s'')
    ensures Grows(s, s'')
  {
  }

  ghost predicate Growing(ss: seq<State>) {
    forall i :: 0 < i < |ss| ==> Grows(ss[i - 1], ss[i])
  }

  lemma {:induction false} GrowsBetween(ss: seq<State>, i: nat, j: nat)
    requires Growing(ss) && i <= j < |ss|
    ensures Grows(ss[i], ss[j])
    decreases j - i
  {
    if i < j {
      GrowsBetween(ss, i, j - 1);
      GrowsFurther(ss[i], ss[j - 1], ss[j]);
    }
  }

  lemma RunGrows(ttl: nat, ss: seq<State>, i: nat, j: nat)
    requires IsRun(ttl, ss) && i <= j < |ss|
    ensures Grows(ss[i], ss[j])
  {
    forall k | 0 < k < |ss|
      ensures Grows(ss[k - 1], ss[k])
    {
      StepGrows(ttl, ss, k);
    }
    GrowsBetween(ss, i, j);
  }

  /** Linearizability: a call that had returned before another was made comes before it in the
      history the replies are explained by. */
  lemma HistoryRespectsRealTime(ttl: nat, ss: seq<State>, i: nat, j: nat, a: nat, b: nat)
    requires IsRun(ttl, ss) && i <= j < |ss|
    requires a in ss[i].answers && ss[i].answers[a].Answered?
    requires b !in ss[i].invoked && b in ss[j].answers && ss[j].answers[b].Answered?
    ensures a in ss[j].answers && ss[j].answers[a] == ss[i].answers[a]
    ensures ss[j].answers[a].place < ss[j].answers[b].place
  {
    RunGrows(ttl, ss, i, j);
    OneReplyFromASequentialHistory(ttl, ss, i, a);
    OneReplyFromASequentialHistory(ttl, ss, j, b);
    RunInv(ttl, ss, i);
  }

  // ----- No deadlock -----

  lemma SweepHasOutcome(ttl: nat, c: Cache, t: nat) returns (item: Item)
    ensures Served(ttl, item) && item.cmd == RemoveExpired && item.pre == c && item.t0 == item.t1 == t
  {
    var gone := set k | k in c.conns && c.conns[k].expiry < t;
    var kept := c.conns - gone;
    assert c.conns.Keys - kept.Keys == gone;
    var c' := c.(conns := kept, open := c.open - Conns(c.conns - kept.Keys));
    assert Sweeps(c, t, t, c', Done);
    item := Item(RemoveExpired, t, t, c, c', Done);
  }

  lemma UpgradesHaveOutcome(ttl: nat, c: Cache, t: nat) returns (item: Item)
    ensures Served(ttl, item) && item.cmd == CheckMigrations && item.pre == c && item.t0 == item.t1 == t
  {
    OwnOpenedNext(c, 0);
    item := Item(CheckMigrations, t, t, c, OwnOpened(c, 0), Done);
  }

  lemma GetHasOutcome(ttl: nat, c: Cache, key: Key, t: nat) returns (item: Item)
    ensures Served(ttl, item) && item.cmd == GetConn(key) && item.pre == c && item.t0 == item.t1 == t
  {
    if key in c.conns {
      item := Item(GetConn(key), t, t, c, Renewed(c, key, t + ttl), Conn(c.conns[key].conn));
    } else {
      item := Item(GetConn(key), t, t, c, c, Error);
    }
  }

  lemma RemovalHasOutcome(ttl: nat, c: Cache, key: Key, t: nat) returns (item: Item)
    ensures Served(ttl, item) && item.cmd == RemoveConn(key) && item.pre == c && item.t0 == item.t1 == t
  {
    var c' := if key in c.conns then c.(conns := c.conns - {key}, open := c.open - {c.conns[key].conn}) else c;
    item := Item(RemoveConn(key), t, t, c, c', Done);
  }

  /** Whatever the cache, a command has an outcome. */
  lemma CommandHasOutcome(ttl: nat, c: Cache, cmd: Cmd, t: nat) returns (item: Item)
    ensures Served(ttl, item) && item.cmd == cmd && item.pre == c && item.t0 == item.t1 == t
  {
    match cmd
    case GetConn(key) => item := GetHasOutcome(ttl, c, key, t);
    case RemoveConn(key) => item := RemovalHasOutcome(ttl, c, key, t);
    case CheckMigrations => item := UpgradesHaveOutcome(ttl, c, t);
    case GetState => item := Item(cmd, t, t, c, c, Snapshot(Expiries(c)));
    case RemoveExpired => item := SweepHasOutcome(ttl, c, t);
    case _ => item := Item(cmd, t, t, c, c, Error);
  }

  /** Somebody is still expecting the system to move: a blocked party, or after the close the
      worker or the poller itself. */
  ghost predicate Unfinished(s: State) {
    || (exists p :: p in s.procs && (s.procs[p].Sending? || s.procs[p].Waiting?))
    || (s.closed && (s.worker != Stopped || (Poller in s.procs && s.procs[Poller] != Exited)))
  }

  lemma WorkerCanMove(ttl: nat, s: State)
    requires Inv(ttl, s) && (s.worker.Serving? || s.worker.Replying?)
    ensures exists s' :: SystemStep(ttl, s, s')
  {
    if s.worker.Serving? {
      var item := CommandHasOutcome(ttl, s.cache, s.worker.cmd, s.clock);
      var s' := s.(worker := Replying(s.worker.party, s.worker.call, s.worker.cmd, item.reply),
                   cache := item.post, clock := item.t1, log := s.log + [LogEntry(s.worker.call, item)]);
      assert Execute(ttl, s, s', item);
      assert SystemStep(ttl, s, s');
    } else {
      var s' := s.(procs := s.procs[s.worker.party := Idle], worker := Ready,
                   answers := s.answers[s.worker.call := Answered(s.worker.party, s.worker.reply,
                                                                  |s.log| - 1, |s.log|)]);
      assert Deliver(s, s');
      assert SystemStep(ttl, s, s');
    }
  }

  lemma SenderCanMove(ttl: nat, s: State, p: Party)
    requires Inv(ttl, s) && (s.worker == Ready || s.closed) && p in s.procs && s.procs[p].Sending?
    ensures exists s' :: SystemStep(ttl, s, s')
  {
    if s.closed {
      var s' := s.(procs := s.procs[p := Idle], answers := s.answers[s.procs[p].call := Eof(p)]);
      assert Refuse(s, s', p);
      assert SystemStep(ttl, s, s');
    } else {
      var s' := s.(procs := s.procs[p := Waiting(s.procs[p].call, s.procs[p].cmd)],
                   worker := Serving(p, s.procs[p].call, s.procs[p].cmd));
      assert Accept(s, s', p);
      assert SystemStep(ttl, s, s');
    }
  }

  lemma CanExit(ttl: nat, s: State)
    requires Inv(ttl, s) && s.closed && !s.worker.Replying? && s.procs[Poller] != Exited
    requires forall p :: p in s.procs ==> !s.procs[p].Sending? && !s.procs[p].Waiting?
    ensures exists s' :: SystemStep(ttl, s, s')
  {
    if s.worker == Ready {
      var s' := s.(worker := Stopped, cancelled := true);
      assert WorkerExit(s, s');
      assert SystemStep(ttl, s, s');
    } else {
      var s' := s.(procs := s.procs[Poller := Exited]);
      assert PollerExit(s, s');
      assert SystemStep(ttl, s, s');
    }
  }

  /** No reachable state is deadlocked: while anything is unfinished, the system can move. */
  lemma NoDeadlock(ttl: nat, ss: seq<State>, k: nat)
    requires IsRun(ttl, ss) && k < |ss| && Unfinished(ss[k])
    ensures exists s' :: SystemStep(ttl, ss[k], s')
  {
    RunInv(ttl, ss, k);
    UnfinishedMoves(ttl, ss[k]);
  }

  lemma UnfinishedMoves(ttl: nat, s: State)
    requires Inv(ttl, s) && Unfinished(s)
    ensures exists s' :: SystemStep(ttl, s, s')
  {
    if s.worker.Serving? || s.worker.Replying? {
      WorkerCanMove(ttl, s);
    } else if p :| p in s.procs && s.procs[p].Sending? {
      SenderCanMove(ttl, s, p);
    } else {
      CanExit(ttl, s);
    }
  }

  // ----- The end -----

  function Senders(s: State): set<Party> {
    set p | p in s.procs && s.procs[p].Sending?
  }

  /** What the system still has to do without new calls. */
  function Remaining(s: State): nat {
    3 * |Senders(s)|
    + (match s.worker case Serving(_, _, _) => 3 case Replying(_, _, _, _) => 2 case Ready => 1 case Stopped => 0)
    + (if Poller in s.procs && s.procs[Poller] != Exited then 1 else 0)
  }

  lemma SendersAfter(s: State, s': State, p: Party, proc: Proc)
    requires p in s.procs && s.procs[p].Sending?
    requires !proc.Sending? && s'.procs == s.procs[p := proc]
    ensures |Senders(s')| == |Senders(s)| - 1
  {
    assert Senders(s') == Senders(s) - {p};
  }

  lemma WorkerStepProgresses(ttl: nat, s: State, s': State)
    requires (exists item :: Execute(ttl, s, s', item)) || Deliver(s, s') || WorkerExit(s, s') || PollerExit(s, s')
    ensures Remaining(s') < Remaining(s) && s'.closed == s.closed
  {
    assert Senders(s') == Senders(s);
  }

  lemma SystemStepProgresses(ttl: nat, s: State, s': State)
    requires SystemStep(ttl, s, s')
    ensures Remaining(s') < Remaining(s) && s'.closed == s.closed
  {
    if p :| Accept(s, s', p) {
      SendersAfter(s, s', p, Waiting(s.procs[p].call, s.procs[p].cmd));
    } else if p :| Refuse(s, s', p) {
      SendersAfter(s, s', p, Idle);
    } else {
      WorkerStepProgresses(ttl, s, s');
    }
  }

  ghost predicate Drains(ttl: nat, s: State, ss: seq<State>) {
    && |ss| > 0 && ss[0] == s
    && forall i :: 0 < i < |ss| ==> SystemStep(ttl, ss[i - 1], ss[i])
  }

  lemma {:induction false} DrainIsBounded(ttl: nat, s: State, ss: seq<State>, k: nat)
    requires Inv(ttl, s) && Drains(ttl, s, ss) && k < |ss|
    ensures Inv(ttl, ss[k]) && Remaining(ss[k]) + k <= Remaining(s)
    ensures ss[k].closed == s.closed
  {
    if k > 0 {
      DrainIsBounded(ttl, s, ss, k - 1);
      SystemStepKeepsInv(ttl, ss[k - 1], ss[k]);
      SystemStepProgresses(ttl, ss[k - 1], ss[k]);
    }
  }

  lemma FinishedState(ttl: nat, s: State)
    requires Inv(ttl, s) && !Unfinished(s)
    ensures forall p :: p in s.procs ==> s.procs[p] == Idle || s.procs[p] == Exited
    ensures forall call :: call in s.invoked ==> call in s.answers
    ensures s.closed ==> s.worker == Stopped && s.cancelled && Poller in s.procs && s.procs[Poller] == Exited
  {
    assert forall p, call :: !CallOf(s, p, call);
  }

  /** Whatever order the system's steps are taken in, there are only as many as Remaining counts;
      and when none is left nobody is blocked, every call ever made has been answered, and if
      the channel was closed the worker and the poller have both ended. */
  lemma SystemDrains(ttl: nat, ss: seq<State>, k: nat, drain: seq<State>)
    requires IsRun(ttl, ss) && k < |ss| && Drains(ttl, ss[k], drain)
    ensures |drain| <= Remaining(ss[k]) + 1
    ensures var end := drain[|drain| - 1];
            (!exists s' :: SystemStep(ttl, end, s')) ==>
              && (forall p :: p in end.procs ==> end.procs[p] == Idle || end.procs[p] == Exited)
              && (forall call :: call in end.invoked ==> call in end.answers)
              && (ss[k].closed ==> end.worker == Stopped && end.cancelled
                                   && Poller in end.procs && end.procs[Poller] == Exited)
  {
    RunInv(ttl, ss, k);
    DrainIsBounded(ttl, ss[k], drain, |drain| - 1);
    var end := drain[|drain| - 1];
    if Unfinished(end) {
      UnfinishedMoves(ttl, end);
    } else {
      FinishedState(ttl, end);
    }
  }
}
