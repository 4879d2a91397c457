/** What the actor can do: any idle client is served, the timer sweeps, and a close ends the worker
    and the poller and turns later calls away. */
module ConnScenario {
  import opened ConnCache
  import opened ConnLease
  import opened ConnActor
  import opened ConnActorRuns

  function Last(ss: seq<State>): State
    requires ss != []
  {
    ss[|ss| - 1]
  }

  lemma OneMore(ttl: nat, ss: seq<State>, s': State)
    requires IsRun(ttl, ss) && (SystemStep(ttl, Last(ss), s') || WorldStep(Last(ss), s'))
    ensures IsRun(ttl, ss + [s'])
  {
  }

  /** Any idle client can make any call, and the poller its own when the timer has fired. */
  lemma IdlePartyCalls(ttl: nat, ss: seq<State>, p: Party, cmd: Cmd) returns (ss': seq<State>)
    requires IsRun(ttl, ss) && p in Last(ss).procs && Last(ss).procs[p] == Idle
    requires p == Poller ==> Last(ss).fired && cmd == RemoveExpired
    ensures IsRun(ttl, ss') && ss < ss'
    ensures var s, call := Last(ss), |Last(ss).invoked|;
            Last(ss') == s.(procs := s.procs[p := Sending(call, cmd)], fired := s.fired && p != Poller,
                            invoked := s.invoked[call := Call(p, cmd, |s.log|)])
  {
    var s, call := Last(ss), |Last(ss).invoked|;
    var s' := s.(procs := s.procs[p := Sending(call, cmd)], fired := s.fired && p != Poller,
                 invoked := s.invoked[call := Call(p, cmd, |s.log|)]);
    assert Invoke(s, s', p, cmd);
    OneMore(ttl, ss, s');
    ss' := ss + [s'];
  }

  lemma BackToIdle(procs: map<Party, Proc>, p: Party, proc: Proc)
    requires p in procs && procs[p] == Idle
    ensures procs[p := proc][p := Idle] == procs
  {
  }

  /** A call accepted while the worker is ready, and its reply delivered. */
  lemma {:induction false} AcceptedIsServed(ttl: nat, ss: seq<State>, p: Party, item: Item) returns (ss': seq<State>)
    requires IsRun(ttl, ss)
    requires var s := Last(ss);
             && !s.closed && s.worker == Ready && p in s.procs && s.procs[p].Sending?
             && Served(ttl, item) && item.cmd == s.procs[p].cmd && item.pre == s.cache && item.t0 == s.clock
    ensures IsRun(ttl, ss') && ss < ss'
    ensures var s, s' := Last(ss), Last(ss');
            s' == s.(procs := s.procs[p := Idle], clock := item.t1, cache := item.post,
                     log := s.log + [LogEntry(s.procs[p].call, item)],
                     answers := s.answers[s.procs[p].call := Answered(p, item.reply, |s.log|, |s.log| + 1)])
  {
    var s := Last(ss);
    var call, cmd := s.procs[p].call, s.procs[p].cmd;
    var s1 := s.(procs := s.procs[p := Waiting(call, cmd)], worker := Serving(p, call, cmd));
    assert Accept(s, s1, p);
    OneMore(ttl, ss, s1);
    var s2 := s1.(worker := Replying(p, call, cmd, item.reply), cache := item.post, clock := item.t1,
                  log := s.log + [LogEntry(call, item)]);
    assert Execute(ttl, s1, s2, item);
    OneMore(ttl, ss + [s1], s2);
    var s3 := s2.(procs := s2.procs[p := Idle], worker := Ready,
                  answers := s2.answers[call := Answered(p, item.reply, |s2.log| - 1, |s2.log|)]);
    assert Deliver(s2, s3);
    OneMore(ttl, ss + [s1] + [s2], s3);
    ss' := ss + [s1] + [s2] + [s3];
    assert s3.procs == s.procs[p := Idle];
  }

  /** The key's connection, a new one if it had none, is cached until then. */
  ghost predicate GivenUntil(c: Cache, key: Key, conn: ConnId, until: nat, c': Cache) {
    && c'.conns == c.conns[key := Entry(conn, until)]
    && if key in c.conns then conn == c.conns[key].conn && c'.open == c.open
       else conn == c.next && c'.open == c.open + {conn}
  }

  lemma OpensOrRenews(ttl: nat, c: Cache, cmd: Cmd, t: nat) returns (item: Item)
    ensures Served(ttl, item) && item.cmd == cmd && item.pre == c && item.t0 == item.t1 == t
    ensures cmd.GetConn? ==> item.reply.Conn? && GivenUntil(c, cmd.key, item.reply.id, t + ttl, item.post)
  {
    if cmd.GetConn? {
      var post := if cmd.key in c.conns then Renewed(c, cmd.key, t + ttl) else Opened(c, cmd.key, t + ttl);
      item := Item(cmd, t, t, c, post, Conn(post.conns[cmd.key].conn));
    } else {
      item := CommandHasOutcome(ttl, c, cmd, t);
    }
  }

  /** Whatever the run so far: while the channel is open and the worker ready, an idle client that
      calls can have its answer; asking for a connection, one that is cached for its time to live. */
  lemma ClientIsServed(ttl: nat, ss: seq<State>, p: Party, cmd: Cmd) returns (ss': seq<State>)
    requires IsRun(ttl, ss)
    requires !Last(ss).closed && Last(ss).worker == Ready
    requires p.Client? && p in Last(ss).procs && Last(ss).procs[p] == Idle
    ensures IsRun(ttl, ss') && ss < ss'
    ensures var s, s', call := Last(ss), Last(ss'), |Last(ss).invoked|;
            && s'.invoked == s.invoked[call := Call(p, cmd, |s.log|)]
            && call in s'.answers && s'.answers[call].Answered? && s'.answers[call].to == p
            && s'.answers == s.answers[call := s'.answers[call]]
            && s'.procs == s.procs && s'.worker == Ready && !s'.closed && s'.clock == s.clock
            && (cmd.GetConn? ==>
                  s'.answers[call].reply.Conn?
                  && GivenUntil(s.cache, cmd.key, s'.answers[call].reply.id, s.clock + ttl, s'.cache))
  {
    var s, call := Last(ss), |Last(ss).invoked|;
    var ss1 := IdlePartyCalls(ttl, ss, p, cmd);
    var item := OpensOrRenews(ttl, s.cache, cmd, s.clock);
    ss' := AcceptedIsServed(ttl, ss1, p, item);
    BackToIdle(s.procs, p, Sending(call, cmd));
  }

  /** And the timer, at whatever hour it fires, makes the poller sweep what has expired by then. */
  lemma TimerSweeps(ttl: nat, ss: seq<State>, hour: nat) returns (ss': seq<State>)
    requires IsRun(ttl, ss)
    requires !Last(ss).closed && Last(ss).worker == Ready && hour >= Last(ss).clock
    requires Poller in Last(ss).procs && Last(ss).procs[Poller] == Idle
    ensures IsRun(ttl, ss') && ss < ss'
    ensures var s, s', call := Last(ss), Last(ss'), |Last(ss).invoked|;
            && s'.invoked == s.invoked[call := Call(Poller, RemoveExpired, |s.log|)]
            && s'.answers == s.answers[call := Answered(Poller, Done, |s.log|, |s.log| + 1)]
            && s'.clock == hour && s'.procs == s.procs && s'.worker == Ready && !s'.closed && !s'.fired
            && (forall k :: k in s'.cache.conns <==> k in s.cache.conns && s.cache.conns[k].expiry >= hour)
            && (forall x :: x in s'.cache.open ==> x in s.cache.open)
            && (forall k :: k in s.cache.conns && s.cache.conns[k].expiry < hour ==>
                              s.cache.conns[k].conn !in s'.cache.open)
  {
    var s, call := Last(ss), |Last(ss).invoked|;
    var s1 := s.(clock := hour, fired := true);
    assert Tick(s, s1);
    OneMore(ttl, ss, s1);
    var ss2 := IdlePartyCalls(ttl, ss + [s1], Poller, RemoveExpired);
    var item := SweepsAll(ttl, s.cache, hour);
    ss' := AcceptedIsServed(ttl, ss2, Poller, item);
    BackToIdle(s.procs, Poller, Sending(call, RemoveExpired));
  }

  lemma SweepsAll(ttl: nat, c: Cache, t: nat) returns (item: Item)
    ensures Served(ttl, item) && item.cmd == RemoveExpired && item.pre == c && item.t0 == item.t1 == t
    ensures item.reply == Done
    ensures forall k :: k in item.post.conns <==> k in c.conns && c.conns[k].expiry >= t
    ensures forall x :: x in item.post.open ==> x in c.open
    ensures forall k :: k in c.conns && c.conns[k].expiry < t ==> c.conns[k].conn !in item.post.open
  {
    var gone := set k | k in c.conns && c.conns[k].expiry < t;
    var kept := c.conns - gone;
    assert c.conns.Keys - kept.Keys == gone;
    var c' := c.(conns := kept, open := c.open - Conns(c.conns - kept.Keys));
    assert Sweeps(c, t, t, c', Done);
    item := Item(RemoveExpired, t, t, c, c', Done);
  }

  /** Once everybody is idle the channel can be closed: no cached connection stays open, and the
      worker and the poller end. */
  lemma CloseEndsThem(ttl: nat, ss: seq<State>) returns (ss': seq<State>)
    requires IsRun(ttl, ss)
    requires !Last(ss).closed && Last(ss).worker == Ready
    requires Poller in Last(ss).procs && Last(ss).procs[Poller] == Idle
    ensures IsRun(ttl, ss') && ss < ss'
    ensures var s, s' := Last(ss), Last(ss');
            && s'.closed && s'.worker == Stopped && s'.procs == s.procs[Poller := Exited]
            && s'.invoked == s.invoked && s'.answers == s.answers && s'.cache.conns == s.cache.conns
            && (forall x :: x in s'.cache.open <==>
                              x in s.cache.open && forall k :: k in s.cache.conns ==> s.cache.conns[k].conn != x)
  {
    var s := Last(ss);
    var s1 := s.(closed := true, cache := s.cache.(open := s.cache.open - Conns(s.cache.conns)));
    assert Stop(s, s1);
    OneMore(ttl, ss, s1);
    var s2 := s1.(worker := Stopped, cancelled := true);
    assert WorkerExit(s1, s2);
    OneMore(ttl, ss + [s1], s2);
    var s3 := s2.(procs := s2.procs[Poller := Exited]);
    assert PollerExit(s2, s3);
    OneMore(ttl, ss + [s1] + [s2], s3);
    ss' := ss + [s1] + [s2] + [s3];
  }

  /** After the close an idle client's call comes back with EOF. */
  lemma LateCallIsTurnedAway(ttl: nat, ss: seq<State>, p: Party, cmd: Cmd) returns (ss': seq<State>)
    requires IsRun(ttl, ss) && Last(ss).closed
    requires p.Client? && p in Last(ss).procs && Last(ss).procs[p] == Idle
    ensures IsRun(ttl, ss') && ss < ss'
    ensures var s, s', call := Last(ss), Last(ss'), |Last(ss).invoked|;
            s' == s.(invoked := s.invoked[call := Call(p, cmd, |s.log|)], answers := s.answers[call := Eof(p)])
  {
    var s, call := Last(ss), |Last(ss).invoked|;
    var ss1 := IdlePartyCalls(ttl, ss, p, cmd);
    var s1 := Last(ss1);
    var s2 := s1.(procs := s1.procs[p := Idle], answers := s.answers[call := Eof(p)]);
    assert Refuse(s1, s2, p);
    OneMore(ttl, ss1, s2);
    ss' := ss1 + [s2];
    BackToIdle(s.procs, p, Sending(call, cmd));
  }

  lemma FirstConnection(ttl: nat, key: Key) returns (ss: seq<State>)
    ensures IsRun(ttl, ss)
    ensures var s := Last(ss);
            && s.procs == map[Client(0) := Idle, Poller := Idle] && s.worker == Ready && !s.closed && s.clock == 0
            && s.invoked.Keys == {0} && |s.invoked| == 1 && s.answers.Keys == {0}
            && s.answers[0].Answered? && s.answers[0].to == Client(0) && s.answers[0].reply == Conn(0)
            && s.cache.conns == map[key := Entry(0, ttl)] && s.cache.open == {0}
  {
    var procs := map[Client(0) := Idle, Poller := Idle];
    var start := State(procs, Ready, false, false, false, 0, FRESH, map[], [], map[]);
    assert Init(start);
    ss := ClientIsServed(ttl, [start], Client(0), GetConn(key));
    assert Last(ss).invoked.Keys == {0} && |Last(ss).invoked| == |Last(ss).invoked.Keys|;
  }

  /** One whole run: a client gets the first connection, the sweep after its time to live closes
      it, the channel is closed, and the client's next call is turned away. */
  lemma AWholeDay(ttl: nat, key: Key) returns (ss: seq<State>)
    ensures IsRun(ttl, ss)
    ensures var s := Last(ss);
            && s.answers.Keys == {0, 1, 2}
            && s.answers[0].Answered? && s.answers[0].to == Client(0) && s.answers[0].reply == Conn(0)
            && s.answers[1].Answered? && s.answers[1].to == Poller
            && s.answers[2] == Eof(Client(0))
            && s.cache.conns == map[] && s.cache.open == {}
            && s.worker == Stopped && s.procs == map[Client(0) := Idle, Poller := Exited]
  {
    var ss1 := FirstConnection(ttl, key);
    var ss2 := TimerSweeps(ttl, ss1, ttl + 1);
    assert Last(ss2).invoked.Keys == {0, 1} && |Last(ss2).invoked| == |Last(ss2).invoked.Keys| == 2;
    assert Last(ss1).cache.conns[key].conn == 0;
    assert Last(ss2).cache.conns == map[] && Last(ss2).cache.open == {};
    var ss3 := CloseEndsThem(ttl, ss2);
    ss := LateCallIsTurnedAway(ttl, ss3, Client(0), GetConn(key));
  }
}
