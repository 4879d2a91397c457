/** The connection manager as an actor: clients and the poller meet the one worker on an
    unbuffered command channel, and each waits on a reply channel of its own. */
module ConnActor {
  import opened ConnCache
  import opened ConnLease

  datatype Party = Client(id: nat) | Poller

  /** A sender is blocked in the send, then in the receive on its private channel. The poller is
      idle in its select. */
  datatype Proc = Idle | Sending(call: nat, cmd: Cmd) | Waiting(call: nat, cmd: Cmd) | Exited

  datatype Worker =
    | Ready
    | Serving(party: Party, call: nat, cmd: Cmd)
    | Replying(party: Party, call: nat, cmd: Cmd, reply: Reply)
    | Stopped

  /** Who made a call, what for, and how long the log was then. */
  datatype Call = Call(party: Party, cmd: Cmd, at: nat)

  /** What a call came back with, on whose channel: the reply of the served command at a place in
      the log, and how long the log was then; or EOF. */
  datatype Answer = Answered(to: Party, reply: Reply, place: nat, returned: nat) | Eof(to: Party)

  /** A served command with the call it belongs to. */
  datatype LogEntry = LogEntry(call: nat, item: Item)

  datatype State = State(
    procs: map<Party, Proc>,
    worker: Worker,
    closed: bool,      // the command channel
    cancelled: bool,   // the poller's context
    fired: bool,       // the poller's timer
    clock: nat,
    cache: Cache,
    // History: the calls made so far, the served commands in the order the worker received them,
    // and the answers.
    invoked: map<nat, Call>,
    log: seq<LogEntry>,
    answers: map<nat, Answer>)

  ghost predicate Init(s: State) {
    && Poller in s.procs
    && (forall p :: p in s.procs ==> s.procs[p] == Idle)
    && s.worker == Ready && !s.closed && !s.cancelled && !s.fired
    && s.cache == FRESH && s.invoked == map[] && s.log == [] && s.answers == map[]
  }

  // ----- Steps of the outside world -----

  /** A client calls, or the fired timer makes the poller call. */
  ghost predicate Invoke(s: State, s': State, p: Party, cmd: Cmd) {
    var call := |s.invoked|;
    && p in s.procs && s.procs[p] == Idle
    && (p == Poller ==> s.fired && cmd == RemoveExpired)
    && s' == s.(procs := s.procs[p := Sending(call, cmd)], fired := s.fired && p != Poller,
                invoked := s.invoked[call := Call(p, cmd, |s.log|)])
  }

  ghost predicate Tick(s: State, s': State) {
    s' == s.(clock := s'.clock, fired := s'.fired) && s.clock <= s'.clock && (s.fired ==> s'.fired)
  }

  /** Stop with every Close succeeding, taken while the worker is not inside a command. */
  ghost predicate Stop(s: State, s': State) {
    && !s.closed && !s.worker.Serving?
    && s' == s.(closed := true, cache := s.cache.(open := s.cache.open - Conns(s.cache.conns)))
  }

  // ----- Steps of the system -----

  /** The rendezvous on the command channel. */
  ghost predicate Accept(s: State, s': State, p: Party) {
    && !s.closed && s.worker == Ready && p in s.procs && s.procs[p].Sending?
    && s' == s.(procs := s.procs[p := Waiting(s.procs[p].call, s.procs[p].cmd)],
                worker := Serving(p, s.procs[p].call, s.procs[p].cmd))
  }

  /** The worker runs the command it has received. */
  ghost predicate Execute(ttl: nat, s: State, s': State, item: Item) {
    && s.worker.Serving?
    && item.cmd == s.worker.cmd && item.pre == s.cache && item.t0 == s.clock && Served(ttl, item)
    && s' == s.(worker := Replying(s.worker.party, s.worker.call, s.worker.cmd, item.reply),
                cache := item.post, clock := item.t1, log := s.log + [LogEntry(s.worker.call, item)])
  }

  /** The rendezvous on the reply channel. */
  ghost predicate Deliver(s: State, s': State) {
    && s.worker.Replying?
    && s.worker.party in s.procs && s.procs[s.worker.party] == Waiting(s.worker.call, s.worker.cmd)
    && |s.log| > 0
    && s' == s.(procs := s.procs[s.worker.party := Idle], worker := Ready,
                answers := s.answers[s.worker.call := Answered(s.worker.party, s.worker.reply, |s.log| - 1, |s.log|)])
  }

  /** Sending on a closed channel panics; the recover turns that into EOF. */
  ghost predicate Refuse(s: State, s': State, p: Party) {
    && s.closed && p in s.procs && s.procs[p].Sending?
    && s' == s.(procs := s.procs[p := Idle], answers := s.answers[s.procs[p].call := Eof(p)])
  }

  /** The range over the closed channel ends and the deferred cancel runs. */
  ghost predicate WorkerExit(s: State, s': State) {
    s.closed && s.worker == Ready && s' == s.(worker := Stopped, cancelled := true)
  }

  ghost predicate PollerExit(s: State, s': State) {
    s.cancelled && Poller in s.procs && s.procs[Poller] == Idle && s' == s.(procs := s.procs[Poller := Exited])
  }

  ghost predicate SystemStep(ttl: nat, s: State, s': State) {
    || (exists p :: Accept(s, s', p))
    || (exists item :: Execute(ttl, s, s', item))
    || Deliver(s, s')
    || (exists p :: Refuse(s, s', p))
    || WorkerExit(s, s')
    || PollerExit(s, s')
  }

  ghost predicate WorldStep(s: State, s': State) {
    (exists p, cmd :: Invoke(s, s', p, cmd)) || Tick(s, s') || Stop(s, s')
  }

  ghost predicate IsRun(ttl: nat, ss: seq<State>) {
    && |ss| > 0 && Init(ss[0])
    && forall i :: 0 < i < |ss| ==> SystemStep(ttl, ss[i - 1], ss[i]) || WorldStep(ss[i - 1], ss[i])
  }

  // ----- The invariant -----

  ghost predicate CallOf(s: State, p: Party, call: nat) {
    p in s.procs && (s.procs[p].Sending? || s.procs[p].Waiting?) && s.procs[p].call == call
  }

  /** Exactly the caller of the command in hand is waiting. */
  ghost predicate InHand(s: State) {
    && (forall p :: p in s.procs && s.procs[p].Waiting? ==>
                      (s.worker.Serving? || s.worker.Replying?) && s.worker.party == p)
    && (s.worker.Serving? || s.worker.Replying? ==>
          s.worker.party in s.procs && s.procs[s.worker.party] == Waiting(s.worker.call, s.worker.cmd))
  }

  /** Calls are numbered; answers are to calls made, on the caller's channel. */
  ghost predicate Counted(s: State) {
    && (forall call: nat :: call in s.invoked <==> call < |s.invoked|)
    && (forall call :: call in s.invoked ==> s.invoked[call].at <= |s.log|)
    && (forall call :: call in s.answers ==> call in s.invoked && s.answers[call].to == s.invoked[call].party)
  }

  /** What a party has in hand is an unanswered call of its own. */
  ghost predicate Held(s: State) {
    forall p, call :: CallOf(s, p, call) ==>
                        && call in s.invoked && call !in s.answers
                        && s.invoked[call].party == p && s.invoked[call].cmd == s.procs[p].cmd
  }

  /** And every unanswered call is in its caller's hands. */
  ghost predicate Pending(s: State) {
    forall call :: call in s.invoked && call !in s.answers ==> CallOf(s, s.invoked[call].party, call)
  }

  ghost predicate Calls(s: State) {
    Counted(s) && Held(s) && Pending(s)
  }

  /** The entry is answered with its own reply, or the worker is about to deliver that. */
  ghost predicate Replied(s: State, i: nat)
    requires i < |s.log|
  {
    var e := s.log[i];
    || (e.call in s.answers && s.answers[e.call].Answered? && s.answers[e.call].place == i
        && s.answers[e.call].reply == e.item.reply)
    || (i == |s.log| - 1 && s.worker.Replying? && s.worker.call == e.call && s.worker.reply == e.item.reply)
  }

  /** The log holds calls that were made, each once. */
  ghost predicate Logged(s: State) {
    && (forall i :: 0 <= i < |s.log| ==>
                      && s.log[i].call in s.invoked && s.invoked[s.log[i].call].at <= i
                      && s.invoked[s.log[i].call].cmd == s.log[i].item.cmd
                      && Replied(s, i))
    && (forall i, j :: 0 <= i < j < |s.log| ==> s.log[i].call != s.log[j].call)
    && (s.worker.Replying? ==> |s.log| > 0 && s.log[|s.log| - 1].call == s.worker.call
                               && s.log[|s.log| - 1].item.reply == s.worker.reply)
    && (forall call :: call in s.answers && s.answers[call].Answered? ==>
                         s.answers[call].place < s.answers[call].returned <= |s.log|
                         && s.log[s.answers[call].place].call == call)
  }

  function Items(log: seq<LogEntry>): seq<Item> {
    seq(|log|, i requires 0 <= i < |log| => log[i].item)
  }

  /** The log is a sequential history that has led to the cache. */
  ghost predicate Sequential(ttl: nat, s: State) {
    && History(ttl, Items(s.log))
    && (s.log != [] ==> s.log[|s.log| - 1].item.t1 <= s.clock)
    && (!s.closed ==> s.cache == if s.log == [] then FRESH else s.log[|s.log| - 1].item.post)
  }

  ghost predicate Phases(s: State) {
    && Poller in s.procs
    && (forall p :: p in s.procs && p != Poller ==> s.procs[p] != Exited)
    && (s.cancelled <==> s.worker == Stopped)
    && (s.worker == Stopped ==> s.closed)
    && (s.closed ==> !s.worker.Serving?)
    && (s.procs[Poller] == Exited ==> s.cancelled)
  }

  ghost predicate Work(ttl: nat, s: State) {
    InHand(s) && Logged(s) && Sequential(ttl, s) && Phases(s)
  }

  ghost predicate Inv(ttl: nat, s: State) {
    Calls(s) && Work(ttl, s)
  }

  lemma InitInv(ttl: nat, s: State)
    requires Init(s)
    ensures Inv(ttl, s)
  {
  }

  // Who holds which call.

  lemma SameHolders(s: State, s': State)
    requires Calls(s)
    requires s'.invoked == s.invoked && s'.answers == s.answers && |s.log| <= |s'.log|
    requires forall p, call :: CallOf(s, p, call) ==> CallOf(s', p, call)
    requires forall p, call :: CallOf(s', p, call) ==> CallOf(s, p, call) && s'.procs[p].cmd == s.procs[p].cmd
    ensures Calls(s')
  {
  }

  lemma HolderAnswered(s: State, s': State, p: Party, call: nat, a: Answer)
    requires Calls(s) && CallOf(s, p, call) && a.to == p
    requires s' == s.(procs := s.procs[p := Idle], answers := s.answers[call := a], worker := s'.worker)
    ensures Calls(s')
  {
    assert forall q, c :: CallOf(s', q, c) ==> q != p && CallOf(s, q, c);
    assert forall q, c :: CallOf(s, q, c) && q != p ==> CallOf(s', q, c);
  }

  lemma NewCounted(s: State, s': State, p: Party, cmd: Cmd)
    requires Counted(s) && Invoke(s, s', p, cmd)
    ensures Counted(s')
  {
    var call := |s.invoked|;
    assert s'.invoked.Keys == s.invoked.Keys + {call};
    assert |s'.invoked.Keys| == |s.invoked.Keys| + 1;
  }

  lemma NewHeld(s: State, s': State, p: Party, cmd: Cmd)
    requires Counted(s) && Held(s) && Invoke(s, s', p, cmd)
    ensures Held(s')
  {
  }

  lemma NewPending(s: State, s': State, p: Party, cmd: Cmd)
    requires Pending(s) && Invoke(s, s', p, cmd)
    ensures Pending(s')
  {
  }

  // What the worker has in hand and what it has logged.

  lemma InvokeLogged(s: State, s': State, p: Party, cmd: Cmd)
    requires Counted(s) && Logged(s) && Invoke(s, s', p, cmd)
    ensures Logged(s')
  {
    forall i | 0 <= i < |s'.log|
      ensures Replied(s', i)
    {
      assert Replied(s, i);
    }
  }

  lemma InvokeWork(ttl: nat, s: State, s': State, p: Party, cmd: Cmd)
    requires Calls(s) && Work(ttl, s) && Invoke(s, s', p, cmd)
    ensures Work(ttl, s')
  {
    InvokeLogged(s, s', p, cmd);
  }

  lemma AcceptWork(ttl: nat, s: State, s': State, p: Party)
    requires Work(ttl, s) && Accept(s, s', p)
    ensures Work(ttl, s')
  {
  }

  lemma HistoryAppend(ttl: nat, log: seq<LogEntry>, e: LogEntry)
    requires History(ttl, Items(log)) && Served(ttl, e.item)
    requires if log == [] then e.item.pre == FRESH else Follows(log[|log| - 1].item, e.item)
    ensures History(ttl, Items(log + [e]))
  {
    HistoryExtends(ttl, Items(log), e.item);
    assert Items(log + [e]) == Items(log) + [e.item];
  }

  /** The command in hand has not been logged yet. */
  lemma NotYetLogged(s: State)
    requires Calls(s) && InHand(s) && Logged(s) && s.worker.Serving?
    ensures CallOf(s, s.worker.party, s.worker.call)
    ensures forall i :: 0 <= i < |s.log| ==> s.log[i].call != s.worker.call && s.log[i].call in s.answers
  {
  }

  lemma ExecuteLogged(ttl: nat, s: State, s': State, item: Item)
    requires Calls(s) && InHand(s) && Logged(s) && Execute(ttl, s, s', item)
    ensures Logged(s')
  {
    NotYetLogged(s);
    forall i | 0 <= i < |s'.log|
      ensures Replied(s', i)
    {
      if i < |s.log| {
        assert Replied(s, i);
      }
    }
  }

  lemma ExecuteWork(ttl: nat, s: State, s': State, item: Item)
    requires Calls(s) && Work(ttl, s) && Execute(ttl, s, s', item)
    ensures Work(ttl, s')
  {
    ExecuteLogged(ttl, s, s', item);
    HistoryAppend(ttl, s.log, LogEntry(s.worker.call, item));
  }

  lemma DeliverWork(ttl: nat, s: State, s': State)
    requires Work(ttl, s) && Deliver(s, s')
    ensures Work(ttl, s')
  {
    forall i | 0 <= i < |s'.log|
      ensures Replied(s', i)
    {
      assert Replied(s, i);
    }
  }

  lemma RefuseLogged(s: State, s': State, p: Party)
    requires Calls(s) && InHand(s) && Logged(s) && Refuse(s, s', p)
    ensures Logged(s')
  {
    var call := s.procs[p].call;
    assert CallOf(s, p, call);
    forall i | 0 <= i < |s'.log|
      ensures Replied(s', i)
    {
      assert Replied(s, i);
      if s.log[i].call == call {
        assert CallOf(s, s.worker.party, call);
      }
    }
  }

  lemma RefuseWork(ttl: nat, s: State, s': State, p: Party)
    requires Calls(s) && Work(ttl, s) && Refuse(s, s', p)
    ensures Work(ttl, s')
  {
    RefuseLogged(s, s', p);
  }

  lemma ExitWork(ttl: nat, s: State, s': State)
    requires Work(ttl, s) && (WorkerExit(s, s') || PollerExit(s, s'))
    ensures Work(ttl, s')
  {
  }

  lemma StopWork(ttl: nat, s: State, s': State)
    requires Work(ttl, s) && Stop(s, s')
    ensures Work(ttl, s')
  {
  }

  lemma TickWork(ttl: nat, s: State, s': State)
    requires Work(ttl, s) && Tick(s, s')
    ensures Work(ttl, s')
  {
  }

  // ----- Every step keeps the invariant -----

  lemma ServingStepKeepsInv(ttl: nat, s: State, s': State, p: Party, item: Item)
    requires Inv(ttl, s) && (Accept(s, s', p) || Execute(ttl, s, s', item))
    ensures Inv(ttl, s')
  {
    if Accept(s, s', p) {
      AcceptWork(ttl, s, s', p);
    } else {
      ExecuteWork(ttl, s, s', item);
    }
    SameHolders(s, s');
  }

  lemma AnsweringStepKeepsInv(ttl: nat, s: State, s': State, p: Party)
    requires Inv(ttl, s) && (Deliver(s, s') || Refuse(s, s', p))
    ensures Inv(ttl, s')
  {
    if Deliver(s, s') {
      DeliverWork(ttl, s, s');
      HolderAnswered(s, s', s.worker.party, s.worker.call, s'.answers[s.worker.call]);
    } else {
      RefuseWork(ttl, s, s', p);
      HolderAnswered(s, s', p, s.procs[p].call, Eof(p));
    }
  }

  lemma ExitKeepsInv(ttl: nat, s: State, s': State)
    requires Inv(ttl, s) && (WorkerExit(s, s') || PollerExit(s, s'))
    ensures Inv(ttl, s')
  {
    ExitWork(ttl, s, s');
    SameHolders(s, s');
  }

  lemma SystemStepKeepsInv(ttl: nat, s: State, s': State)
    requires Inv(ttl, s) && SystemStep(ttl, s, s')
    ensures Inv(ttl, s')
  {
    if p :| Accept(s, s', p) || Refuse(s, s', p) {
      if Accept(s, s', p) {
        ServingStepKeepsInv(ttl, s, s', p, Item(GetState, 0, 0, FRESH, FRESH, Done));
      } else {
        AnsweringStepKeepsInv(ttl, s, s', p);
      }
    } else if item :| Execute(ttl, s, s', item) {
      ServingStepKeepsInv(ttl, s, s', Poller, item);
    } else if Deliver(s, s') {
      AnsweringStepKeepsInv(ttl, s, s', Poller);
    } else {
      ExitKeepsInv(ttl, s, s');
    }
  }

  lemma WorldStepKeepsInv(ttl: nat, s: State, s': State)
    requires Inv(ttl, s) && WorldStep(s, s')
    ensures Inv(ttl, s')
  {
    if p, cmd :| Invoke(s, s', p, cmd) {
      InvokeWork(ttl, s, s', p, cmd);
      NewCounted(s, s', p, cmd);
      NewHeld(s, s', p, cmd);
      NewPending(s, s', p, cmd);
    } else {
      if Stop(s, s') {
        StopWork(ttl, s, s');
      } else {
        TickWork(ttl, s, s');
      }
      SameHolders(s, s');
    }
  }

  lemma {:induction false} RunInv(ttl: nat, ss: seq<State>, i: nat)
    requires IsRun(ttl, ss) && i < |ss|
    ensures Inv(ttl, ss[i])
  {
    if i == 0 {
      InitInv(ttl, ss[0]);
    } else {
      RunInv(ttl, ss, i - 1);
      if SystemStep(ttl, ss[i - 1], ss[i]) {
        SystemStepKeepsInv(ttl, ss[i - 1], ss[i]);
      } else {
        WorldStepKeepsInv(ttl, ss[i - 1], ss[i]);
      }
    }
  }
}
