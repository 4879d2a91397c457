/** Leases and conservation as the clients of the running actor see them. */
module ConnRunLeases {
  import opened ConnCache
  import opened ConnLease
  import opened ConnActor
  import opened ConnActorRuns

  // ----- The clock over a run -----

  /** The clock does not go back, and what is logged next is served from here on. */
  ghost predicate Later(s: State, s': State) {
    && s.clock <= s'.clock
    && (s'.log == s.log || exists e :: s'.log == s.log + [e] && e.item.t0 == s.clock)
  }

  ghost predicate KeepsTime(ss: seq<State>) {
    forall k :: 0 < k < |ss| ==> Later(ss[k - 1], ss[k])
  }

  lemma SystemStepLater(ttl: nat, s: State, s': State)
    requires SystemStep(ttl, s, s')
    ensures Later(s, s')
  {
    if item :| Execute(ttl, s, s', item) {
      assert s'.log == s.log + [LogEntry(s.worker.call, item)];
    }
  }

  lemma WorldStepLater(s: State, s': State)
    requires WorldStep(s, s')
    ensures Later(s, s')
  {
  }

  lemma RunKeepsTime(ttl: nat, ss: seq<State>)
    requires IsRun(ttl, ss)
    ensures KeepsTime(ss)
  {
    forall k | 0 < k < |ss|
      ensures Later(ss[k - 1], ss[k])
    {
      if SystemStep(ttl, ss[k - 1], ss[k]) {
        SystemStepLater(ttl, ss[k - 1], ss[k]);
      } else {
        WorldStepLater(ss[k - 1], ss[k]);
      }
    }
  }

  lemma {:induction false} ClockBetween(ss: seq<State>, i: nat, j: nat)
    requires KeepsTime(ss) && i <= j < |ss|
    ensures ss[i].clock <= ss[j].clock
    decreases j - i
  {
    if i < j {
      ClockBetween(ss, i, j - 1);
      assert Later(ss[j - 1], ss[j]);
    }
  }

  /** What is logged after a state is served after that state's clock reading. */
  lemma {:induction false} ServedLater(ss: seq<State>, i: nat, j: nat, place: nat)
    requires KeepsTime(ss) && i <= j < |ss| && |ss[i].log| <= place < |ss[j].log|
    ensures ss[i].clock <= ss[j].log[place].item.t0
    decreases j - i
  {
    assert Later(ss[j - 1], ss[j]);
    if place < |ss[j - 1].log| {
      ServedLater(ss, i, j - 1, place);
      assert ss[j].log[place] == ss[j - 1].log[place];
    } else {
      ClockBetween(ss, i, j - 1);
    }
  }

  // ----- Leases -----

  /** The call asked for the key's connection and was answered with this one. */
  ghost predicate HandedOut(s: State, call: nat, key: Key, conn: ConnId) {
    && call in s.answers && s.answers[call].Answered? && s.answers[call].reply == Conn(conn)
    && call in s.invoked && s.invoked[call].cmd == GetConn(key)
  }

  /** No command served after the place in the log removes the key. */
  ghost predicate NotRemovedAfter(items: seq<Item>, place: nat, key: Key) {
    forall m :: place < m < |items| ==> items[m].cmd != RemoveConn(key)
  }

  /** Clock readings do not go back along a history. */
  lemma {:induction false} ServedBy(ttl: nat, items: seq<Item>, m: nat, n: nat)
    requires History(ttl, items) && m <= n < |items|
    ensures items[m].t1 <= items[n].t1 && items[m].t0 <= items[n].t1
    decreases n - m
  {
    assert Served(ttl, items[n]);
    if m < n {
      ServedBy(ttl, items, m, n - 1);
      assert Follows(items[n - 1], items[n]);
    }
  }

  /** The lease that comes with a connection handed out open. */
  lemma LeaseGiven(ttl: nat, items: seq<Item>, place: nat, key: Key, conn: ConnId) returns (until: nat)
    requires History(ttl, items) && place < |items|
    requires items[place].cmd == GetConn(key) && items[place].reply == Conn(conn)
    requires !ShutBefore(items, place, key, conn)
    ensures Holds(items[place].post, key, conn, until)
    ensures items[place].t0 + ttl <= until <= items[place].t1 + ttl
  {
    HandedOutOpenIff(ttl, items, place);
    assert Served(ttl, items[place]);
    until := items[place].post.conns[key].expiry;
  }

  lemma LeaseToTheEnd(ttl: nat, items: seq<Item>, place: nat, key: Key, conn: ConnId, from: nat)
    requires History(ttl, items) && place < |items|
    requires items[place].cmd == GetConn(key) && items[place].reply == Conn(conn)
    requires !ShutBefore(items, place, key, conn) && NotRemovedAfter(items, place, key)
    requires from <= items[place].t0 && items[|items| - 1].t1 <= from + ttl
    ensures Holds(items[|items| - 1].post, key, conn, from + ttl)
  {
    var until := LeaseGiven(ttl, items, place, key, conn);
    forall m | place < m < |items|
      ensures items[m].t1 <= until
    {
      ServedBy(ttl, items, m, |items| - 1);
    }
    LeaseHeld(ttl, items, place, |items| - 1, key, conn, until);
  }

  /** The answer's entry, logged after the call was made, is still in the log later on. */
  lemma AnswerInLog(ttl: nat, ss: seq<State>, i: nat, k: nat, j: nat, call: nat, key: Key, conn: ConnId)
    requires IsRun(ttl, ss) && i <= k <= j < |ss| && call !in ss[i].invoked && HandedOut(ss[k], call, key, conn)
    ensures var place := ss[k].answers[call].place;
            && |ss[i].log| <= place < |ss[j].log|
            && ss[j].log[place].item.cmd == GetConn(key) && ss[j].log[place].item.reply == Conn(conn)
  {
    OneReplyFromASequentialHistory(ttl, ss, k, call);
    RunGrows(ttl, ss, i, k);
    RunGrows(ttl, ss, k, j);
    var place := ss[k].answers[call].place;
    assert ss[j].log[place] == ss[k].log[place];
  }

  lemma LogLeadsToCache(ttl: nat, ss: seq<State>, j: nat)
    requires IsRun(ttl, ss) && j < |ss| && !ss[j].closed && ss[j].log != []
    ensures var items := Items(ss[j].log);
            && History(ttl, items)
            && items[|items| - 1].t1 <= ss[j].clock && items[|items| - 1].post == ss[j].cache
  {
    RunInv(ttl, ss, j);
  }

  /** The lease as a client sees it. A connection handed out to a call made after some clock
      reading is still cached and open in every later state before the close whose clock is within
      the time to live of that reading, whatever other clients and sweeps have done, unless the
      key has been removed since or its entry had been shut by a failed Close. */
  lemma LeaseHoldsInRuns(ttl: nat, ss: seq<State>, i: nat, k: nat, j: nat, call: nat, key: Key, conn: ConnId)
    requires IsRun(ttl, ss) && i <= k <= j < |ss| && call !in ss[i].invoked && HandedOut(ss[k], call, key, conn)
    requires !ss[j].closed && ss[j].clock <= ss[i].clock + ttl
    requires NotRemovedAfter(Items(ss[j].log), ss[k].answers[call].place, key)
    requires !ShutBefore(Items(ss[j].log), ss[k].answers[call].place, key, conn)
    ensures Holds(ss[j].cache, key, conn, ss[i].clock + ttl)
  {
    AnswerInLog(ttl, ss, i, k, j, call, key, conn);
    RunKeepsTime(ttl, ss);
    ServedLater(ss, i, j, ss[k].answers[call].place);
    LogLeadsToCache(ttl, ss, j);
    LeaseToTheEnd(ttl, Items(ss[j].log), ss[k].answers[call].place, key, conn, ss[i].clock);
  }

  // ----- Conservation -----

  /** The cache the served commands have led to. */
  ghost function Reached(log: seq<LogEntry>): Cache {
    if log == [] then FRESH else log[|log| - 1].item.post
  }

  /** Once closed, nothing is served any more; and only Stop closes. */
  ghost predicate ClosesInOrder(s: State, s': State) {
    && (s.closed ==> s'.cache == s.cache && s'.log == s.log)
    && (!s.closed && s'.closed ==> Stop(s, s'))
  }

  lemma SystemStepClosesInOrder(ttl: nat, s: State, s': State)
    requires SystemStep(ttl, s, s') && (s.closed ==> !s.worker.Serving?)
    ensures ClosesInOrder(s, s')
  {
  }

  lemma WorldStepClosesInOrder(s: State, s': State)
    requires WorldStep(s, s')
    ensures ClosesInOrder(s, s')
  {
  }

  /** What a state's cache is: before the close what the log has led to, then that without its
      cached connections. */
  ghost predicate CacheAccounted(s: State) {
    var c := Reached(s.log);
    s.cache == if s.closed then c.(open := c.open - Conns(c.conns)) else c
  }

  lemma StepAccounted(s: State, s': State)
    requires CacheAccounted(s) && ClosesInOrder(s, s') && s'.closed
    ensures CacheAccounted(s')
  {
  }

  lemma OpenAccounted(ttl: nat, s: State)
    requires Inv(ttl, s)
    ensures !s.closed ==> CacheAccounted(s)
    ensures s.closed ==> !s.worker.Serving?
  {
  }

  ghost predicate Ordered(ss: seq<State>) {
    && (forall k :: 0 < k < |ss| ==> ClosesInOrder(ss[k - 1], ss[k]))
    && (forall k :: 0 <= k < |ss| && (k == 0 || !ss[k].closed) ==> CacheAccounted(ss[k]))
  }

  lemma StepClosesInOrder(ttl: nat, s: State, s': State)
    requires Inv(ttl, s) && (SystemStep(ttl, s, s') || WorldStep(s, s'))
    ensures ClosesInOrder(s, s')
  {
    OpenAccounted(ttl, s);
    if SystemStep(ttl, s, s') {
      SystemStepClosesInOrder(ttl, s, s');
    } else {
      WorldStepClosesInOrder(s, s');
    }
  }

  lemma RunIsOrdered(ttl: nat, ss: seq<State>)
    requires IsRun(ttl, ss)
    ensures Ordered(ss)
  {
    forall k | 0 < k < |ss|
      ensures ClosesInOrder(ss[k - 1], ss[k])
    {
      RunInv(ttl, ss, k - 1);
      StepClosesInOrder(ttl, ss[k - 1], ss[k]);
    }
    forall k | 0 <= k < |ss| && (k == 0 || !ss[k].closed)
      ensures CacheAccounted(ss[k])
    {
      RunInv(ttl, ss, k);
      OpenAccounted(ttl, ss[k]);
    }
  }

  lemma {:induction false} OrderedAccounted(ss: seq<State>, j: nat)
    requires Ordered(ss) && j < |ss|
    ensures CacheAccounted(ss[j])
  {
    if j > 0 && ss[j].closed {
      OrderedAccounted(ss, j - 1);
      StepAccounted(ss[j - 1], ss[j]);
    }
  }

  /** In every run whose single closes succeed: before the close the open connections are the
      cached ones and those opened on the side; after it only the latter are left open. */
  lemma ConnectionsAreConservedInRuns(ttl: nat, ss: seq<State>, j: nat)
    requires IsRun(ttl, ss) && j < |ss|
    requires forall m :: 0 <= m < |ss[j].log| ==> !CloseFailed(ss[j].log[m].item)
    ensures var c := ss[j].cache;
            && |c.own| == SumOwnOpens(Items(ss[j].log))
            && if ss[j].closed then c.open == c.own
               else c.open == Conns(c.conns) + c.own && |c.open| == |c.conns| + |c.own|
  {
    RunInv(ttl, ss, j);
    var items := Items(ss[j].log);
    if items != [] {
      ConnectionsAreConserved(ttl, items);
      HistoryKeepsInv(ttl, items);
      assert items[|items| - 1].post == Reached(ss[j].log);
    }
    RunIsOrdered(ttl, ss);
    OrderedAccounted(ss, j);
  }
}
