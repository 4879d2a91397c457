/** The cache of open notes databases: what each command does to it, as the worker runs it. */
module ConnCache {
  import opened Collections
  import opened Upgrades

  type Key = nat
  type ConnId = nat

  datatype Entry = Entry(conn: ConnId, expiry: nat)

  /** The cached connections, all open connections, those opened by createDatabase and
      runMigrations for themselves, and the number the next connection gets. */
  datatype Cache = Cache(conns: map<Key, Entry>, open: set<ConnId>, own: set<ConnId>, next: ConnId)

  datatype Cmd =
    | GetConn(key: Key)
    | RemoveConn(key: Key)
    | CreateDB(key: Key)
    | DeleteDB(key: Key)
    | CheckMigrations
    | GetState
    | RemoveExpired

  datatype Reply = Conn(id: ConnId) | Done | Snapshot(expiries: map<Key, nat>) | Error

  function Conns(m: map<Key, Entry>): set<ConnId> {
    set k | k in m :: m[k].conn
  }

  // ----- What a command may do between two clock readings -----

  function Renewed(c: Cache, key: Key, expiry: nat): Cache
    requires key in c.conns
  {
    c.(conns := c.conns[key := c.conns[key].(expiry := expiry)])
  }

  function Opened(c: Cache, key: Key, expiry: nat): Cache {
    Cache(c.conns[key := Entry(c.next, expiry)], c.open + {c.next}, c.own, c.next + 1)
  }

  /** The n ids from one on. */
  function Ids(from: ConnId, n: nat): (r: set<ConnId>)
    ensures forall i: ConnId :: i in r <==> from <= i < from + n
    ensures |r| == n
  {
    if n == 0 then {} else Ids(from, n - 1) + {from + n - 1}
  }

  /** n connections opened outside the cache and never closed. */
  function OwnOpened(c: Cache, n: nat): Cache {
    Cache(c.conns, c.open + Ids(c.next, n), c.own + Ids(c.next, n), c.next + n)
  }

  function OneOwn(c: Cache): Cache {
    c.(open := c.open + {c.next}, own := c.own + {c.next}, next := c.next + 1)
  }

  lemma OwnOpenedNext(c: Cache, n: nat)
    ensures OwnOpened(c, n + 1) == OneOwn(OwnOpened(c, n))
    ensures OwnOpened(c, 0) == c
  {
    var next := {c.next + n};
    assert Ids(c.next, n + 1) == Ids(c.next, n) + next;
    assert c.open + (Ids(c.next, n) + next) == c.open + Ids(c.next, n) + next;
    assert c.own + (Ids(c.next, n) + next) == c.own + Ids(c.next, n) + next;
  }

  ghost predicate Removes(c: Cache, key: Key, c': Cache, reply: Reply) {
    if key !in c.conns then c' == c && reply == Done
    else
      var conn := c.conns[key].conn;
      || (reply == Done && c' == c.(conns := c.conns - {key}, open := c.open - {conn}))
      // A failed Close leaves the entry behind, its pools shut; closing it once more succeeds.
      || (reply == Error && conn in c.open && c' == c.(open := c.open - {conn}))
  }

  /** A sweep removes only what is expired by its end; if it succeeds, all that was expired at
      its beginning. If a Close fails it stops there, that entry staying behind, shut. */
  ghost predicate Sweeps(c: Cache, t0: nat, t1: nat, c': Cache, reply: Reply) {
    var gone := c.conns.Keys - c'.conns.Keys;
    && c'.own == c.own && c'.next == c.next
    && c'.conns.Keys <= c.conns.Keys
    && (forall k :: k in c'.conns ==> c'.conns[k] == c.conns[k])
    && (forall k :: k in gone ==> c.conns[k].expiry < t1)
    && match reply
       case Done =>
         && (forall k :: k in c'.conns ==> c.conns[k].expiry >= t0)
         && c'.open == c.open - Conns(c.conns - c'.conns.Keys)
       case Error =>
         exists f :: f in c'.conns && c.conns[f].expiry < t1 && c.conns[f].conn in c.open
                     && c'.open == c.open - Conns(c.conns - c'.conns.Keys) - {c.conns[f].conn}
       case _ => false
  }

  function Expiries(c: Cache): map<Key, nat> {
    map k | k in c.conns :: c.conns[k].expiry
  }

  ghost predicate Serves(ttl: nat, c: Cache, cmd: Cmd, t0: nat, t1: nat, c': Cache, reply: Reply) {
    t0 <= t1 &&
    match cmd
    case GetConn(key) =>
      if key in c.conns then
        && reply == Conn(c.conns[key].conn)
        && exists expiry :: t0 + ttl <= expiry <= t1 + ttl && c' == Renewed(c, key, expiry)
      else
        || (reply == Error && c' == c)
        || (reply == Conn(c.next)
            && exists expiry :: t0 + ttl <= expiry <= t1 + ttl && c' == Opened(c, key, expiry))
    case RemoveConn(key) => Removes(c, key, c', reply)
    case CreateDB(key) => (reply == Error && c' == c) || (reply in {Done, Error} && c' == OwnOpened(c, 1))
    case DeleteDB(key) => reply in {Done, Error} && c' == c
    case CheckMigrations => reply in {Done, Error} && exists n: nat :: c' == OwnOpened(c, n)
    case GetState => reply == Snapshot(Expiries(c)) && c' == c
    case RemoveExpired => Sweeps(c, t0, t1, c', reply)
  }

  // ----- What the outcomes have to be -----

  /** The entries of all other keys are as before. */
  ghost predicate SameOthers(c: Cache, c': Cache, key: Key) {
    forall k :: k != key ==> (k in c'.conns <==> k in c.conns) && (k in c.conns ==> c'.conns[k] == c.conns[k])
  }

  /** The caller gets the key's connection, cached until the time to live from now; one that was not
      cached is new and open. It gets an error exactly if there is none and none can be opened. */
  ghost predicate Got(ttl: nat, c: Cache, key: Key, opens: bool, now: nat, c': Cache, r: Reply) {
    && (r == Error <==> key !in c.conns && !opens)
    && (r == Error ==> c' == c)
    && (r != Error ==>
          && r.Conn? && key in c'.conns && c'.conns[key].conn == r.id && c'.conns[key].expiry == now + ttl
          && SameOthers(c, c', key) && c'.own == c.own)
    && (key in c.conns ==> r == Conn(c.conns[key].conn) && c'.open == c.open && c'.next == c.next)
    && (key !in c.conns && opens ==>
          r == Conn(c.next) && r.id in c'.open && c'.open == c.open + {r.id} && c'.next == c.next + 1)
  }

  /** The connection is closed and forgotten; if its Close fails, only closed. */
  ghost predicate Dropped(c: Cache, key: Key, shut: set<ConnId>, c': Cache, r: Reply) {
    && r in {Done, Error}
    && (r == Error <==> key in c.conns && c.conns[key].conn in c.open && c.conns[key].conn in shut)
    && (key !in c.conns ==> c' == c)
    && (key in c.conns ==> c'.open == c.open - {c.conns[key].conn} && c.conns[key].conn !in c'.open)
    && (r == Done ==> key !in c'.conns && SameOthers(c, c', key))
    && (r == Error ==> c'.conns == c.conns)
    && c'.own == c.own && c'.next == c.next
  }

  /** One connection more is open, outside the cache. */
  ghost predicate OpenedAside(c: Cache, c': Cache) {
    && c'.conns == c.conns && c'.next == c.next + 1
    && c'.open == c.open + {c.next} && c'.own == c.own + {c.next}
  }

  lemma OneOwnServes(ttl: nat, c: Cache, key: Key, t: nat, r: Reply)
    requires r in {Done, Error}
    ensures Serves(ttl, c, CreateDB(key), t, t, OneOwn(c), r)
  {
    OwnOpenedNext(c, 0);
  }

  /** What each command has to come to, given what the outside world does. */
  ghost predicate Outcome(ttl: nat, c: Cache, cmd: Cmd, opens: bool, succeeds: bool, upgrades: seq<Upgrade>,
                          shut: set<ConnId>, now: nat, c': Cache, r: Reply) {
    match cmd
    case GetConn(key) => Got(ttl, c, key, opens, now, c', r)
    case RemoveConn(key) => Dropped(c, key, shut, c', r)
    case CreateDB(_) =>
      && r in {Done, Error} && (r == Done <==> opens && succeeds)
      && (if opens then OpenedAside(c, c') else c' == c)
    case DeleteDB(_) => r in {Done, Error} && (r == Done <==> succeeds) && c' == c
    case CheckMigrations =>
      && r in {Done, Error}
      && (r == Done <==> succeeds && forall i :: 0 <= i < |upgrades| ==> upgrades[i] == Upgraded)
      && c'.conns == c.conns && c.next <= c'.next
      && (r == Done ==> c'.next == c.next + |upgrades|)
      && (forall x :: x in c'.open <==> x in c.open || c.next <= x < c'.next)
    case GetState =>
      && r.Snapshot? && r.expiries.Keys == c.conns.Keys
      && (forall k :: k in c.conns ==> r.expiries[k] == c.conns[k].expiry)
      && c' == c
    case RemoveExpired =>
      && r in {Done, Error} && (shut == {} ==> r == Done)
      && (r == Error ==>
            exists k :: k in c.conns && k in c'.conns && c.conns[k].conn in c.open && c.conns[k].conn in shut
                        && c.conns[k].conn !in c'.open)
  }

  // ----- The manager -----

  /** The worker's methods on the connections map. shut lists the connections whose Close reports
      an error; opens says whether opening a database succeeds. */
  class Manager {
    const ttl: nat
    var c: Cache
    var now: nat

    constructor (ttl: nat)
      ensures this.ttl == ttl && c == Cache(map[], {}, {}, 0)
    {
      this.ttl, c, now := ttl, Cache(map[], {}, {}, 0), 0;
    }

    /** time.Now(): any reading not before the last one. */
    method Now() returns (t: nat)
      modifies this`now
      ensures t == now >= old(now)
    {
      t :| t >= now;
      now := t;
    }

    method Close(conn: ConnId, shut: set<ConnId>) returns (ok: bool)
      modifies this`c
      ensures c == old(c).(open := old(c).open - {conn})
      ensures ok <==> !(conn in old(c).open && conn in shut)
    {
      ok := !(conn in c.open && conn in shut);
      c := c.(open := c.open - {conn});
    }

    method GetNotesStore(key: Key, opens: bool) returns (r: Reply)
      modifies this`c, this`now
      ensures now >= old(now)
      ensures Serves(ttl, old(c), GetConn(key), old(now), now, c, r)
      ensures Got(ttl, old(c), key, opens, now, c, r)
    {
      if key !in c.conns {
        if !opens {
          return Error;
        }
        c := Cache(c.conns[key := Entry(c.next, 0)], c.open + {c.next}, c.own, c.next + 1);
      }
      var t := Now();
      c := c.(conns := c.conns[key := c.conns[key].(expiry := t + ttl)]);
      if key !in old(c).conns {
        assert c == Opened(old(c), key, t + ttl);
      } else {
        assert c == Renewed(old(c), key, t + ttl);
      }
      return Conn(c.conns[key].conn);
    }

    method RemoveConnection(key: Key, shut: set<ConnId>) returns (r: Reply)
      modifies this`c
      ensures Removes(old(c), key, c, r)
      ensures Dropped(old(c), key, shut, c, r)
    {
      if key !in c.conns {
        return Done;
      }
      var ok := Close(c.conns[key].conn, shut);
      if !ok {
        return Error;
      }
      c := c.(conns := c.conns - {key});
      return Done;
    }

    /** A connection opened on the side by createDatabase; what follows does not touch the cache. */
    method CreateDatabase(key: Key, opens: bool, succeeds: bool) returns (r: Reply)
      modifies this`c
      ensures Serves(ttl, old(c), CreateDB(key), now, now, c, r)
      ensures r == Done <==> opens && succeeds
      ensures if opens then OpenedAside(old(c), c) else c == old(c)
    {
      if !opens {
        return Error;
      }
      r := if succeeds then Done else Error;
      OneOwnServes(ttl, c, key, now, r);
      c := OneOwn(c);
    }

    /** One more connection outside the cache, after n since c0. */
    method OpenOwn(ghost c0: Cache, ghost n: nat)
      requires c == OwnOpened(c0, n)
      modifies this`c
      ensures c == OwnOpened(c0, n + 1)
    {
      OwnOpenedNext(c0, n);
      c := OneOwn(c);
    }

    /** One connection for each notes database to upgrade, until one cannot be opened or migrated;
        none of them is closed. */
    method UpgradeAll(upgrades: seq<Upgrade>) returns (ok: bool)
      modifies this`c
      ensures c == OwnOpened(old(c), Tried(upgrades))
      ensures ok <==> FirstFailure(upgrades) == |upgrades|
    {
      ghost var c0, f, n := c, FirstFailure(upgrades), Tried(upgrades);
      OwnOpenedNext(c0, 0);
      for i := 0 to |upgrades|
        invariant i <= f
        invariant c == OwnOpened(c0, i)
      {
        if upgrades[i] == CannotOpen {
          assert i == f == n;
          return false;
        }
        OpenOwn(c0, i);
        if upgrades[i] == CannotMigrate {
          assert i == f && n == i + 1;
          return false;
        }
      }
      assert f == n == |upgrades|;
      return true;
    }

    /** The index database first, then the notes databases behind it. */
    method RunMigrations(indexReady: bool, upgrades: seq<Upgrade>) returns (r: Reply)
      modifies this`c
      ensures Serves(ttl, old(c), CheckMigrations, now, now, c, r)
      ensures c == OwnOpened(old(c), if indexReady then Tried(upgrades) else 0)
      ensures r == Done <==> indexReady && FirstFailure(upgrades) == |upgrades|
      ensures r in {Done, Error} && c.conns == old(c).conns
      ensures forall x :: x in c.open <==> x in old(c).open || old(c).next <= x < c.next
      ensures var f := FirstFailure(upgrades);
              c.next - old(c).next ==
              if !indexReady then 0 else if f < |upgrades| && upgrades[f] == CannotMigrate then f + 1 else f
    {
      OwnOpenedNext(c, 0);
      if !indexReady {
        return Error;
      }
      var ok := UpgradeAll(upgrades);
      return if ok then Done else Error;
    }

    method ReadState() returns (r: Reply)
      ensures Serves(ttl, c, GetState, now, now, c, r)
      ensures r.Snapshot? && r.expiries.Keys == c.conns.Keys
      ensures forall k :: k in c.conns ==> r.expiries[k] == c.conns[k].expiry
    {
      return Snapshot(Expiries(c));
    }

    /** The sweep visits the keys in any order, reading the clock for each. */
    method SweepExpired(order: seq<Key>, shut: set<ConnId>) returns (r: Reply)
      requires Enumerates(order, c.conns.Keys)
      modifies this`c, this`now
      ensures now >= old(now)
      ensures Serves(ttl, old(c), RemoveExpired, old(now), now, c, r)
      ensures shut == {} ==> r == Done
      ensures forall k :: k in c.conns ==> k in old(c).conns && c.conns[k] == old(c).conns[k]
      ensures r == Done ==> forall k :: k in c.conns ==> c.conns[k].expiry >= old(now)
      ensures forall k :: k in old(c).conns && k !in c.conns ==> old(c).conns[k].expiry < now
      ensures forall k :: k in old(c).conns && k !in c.conns ==> old(c).conns[k].conn !in c.open
      ensures r == Error ==>
                exists k :: k in old(c).conns && k in c.conns && old(c).conns[k].conn in old(c).open
                            && old(c).conns[k].conn in shut && old(c).conns[k].conn !in c.open
    {
      ghost var c0, t0 := c, now;
      for i := 0 to |order|
        invariant now >= t0
        invariant SweptTo(c0, t0, now, c, order[..i])
      {
        var key := order[i];
        ghost var before, earlier := c, now;
        NotSeenBefore(order, i);
        assert order[..i + 1] == order[..i] + [key];
        assert key in c.conns;
        var t := Now();
        if !(t > c.conns[key].expiry) {
          KeptKey(c0, t0, earlier, now, c, order[..i], key);
          continue;
        }
        r := RemoveConnection(key, shut);
        if r == Error {
          StoppedAt(c0, t0, earlier, now, before, order[..i], key, c);
          return;
        }
        GoneKey(c0, t0, earlier, now, before, order[..i], key, c);
      }
      assert order[..|order|] == order;
      return Done;
    }

    /** The worker's switch: one received command, whatever it is. */
    method Serve(cmd: Cmd, opens: bool, succeeds: bool, upgrades: seq<Upgrade>, order: seq<Key>, shut: set<ConnId>)
      returns (r: Reply)
      requires Enumerates(order, c.conns.Keys)
      modifies this`c, this`now
      ensures now >= old(now)
      ensures Serves(ttl, old(c), cmd, old(now), now, c, r)
      ensures Outcome(ttl, old(c), cmd, opens, succeeds, upgrades, shut, now, c, r)
    {
      match cmd
      case GetConn(key) => r := GetNotesStore(key, opens);
      case RemoveConn(key) => r := RemoveConnection(key, shut);
      case CreateDB(key) => r := CreateDatabase(key, opens, succeeds);
      case DeleteDB(key) => r := if succeeds then Done else Error;
      case CheckMigrations => r := RunMigrations(succeeds, upgrades);
      case GetState => r := ReadState();
      case RemoveExpired => r := SweepExpired(order, shut);
    }

    /** The closing loop of Stop; the channel is closed only if every Close succeeds. */
    method CloseAll(order: seq<Key>, shut: set<ConnId>) returns (ok: bool)
      requires Enumerates(order, c.conns.Keys)
      modifies this`c
      ensures ok ==> c == old(c).(open := old(c).open - Conns(old(c).conns))
      ensures ok ==> forall k :: k in old(c).conns ==> k in c.conns && old(c).conns[k].conn !in c.open
      ensures ok <==> forall k :: k in old(c).conns ==>
                                    !(old(c).conns[k].conn in old(c).open && old(c).conns[k].conn in shut)
    {
      ghost var c0 := c;
      for i := 0 to |order|
        invariant c == c0.(open := c0.open - ConnsOf(c0.conns, order[..i]))
        invariant forall k :: k in order[..i] ==> !(c0.conns[k].conn in c0.open && c0.conns[k].conn in shut)
      {
        assert order[i] in c0.conns.Keys;
        assert order[..i + 1] == order[..i] + [order[i]];
        ok := Close(c.conns[order[i]].conn, shut);
        if !ok {
          return;
        }
        assert ConnsOf(c0.conns, order[..i + 1]) == ConnsOf(c0.conns, order[..i]) + {c0.conns[order[i]].conn};
      }
      assert order[..|order|] == order;
      assert ConnsOf(c0.conns, order) == Conns(c0.conns);
      return true;
    }
  }

  function ConnsOf(m: map<Key, Entry>, keys: seq<Key>): set<ConnId> {
    set k | k in keys && k in m :: m[k].conn
  }

  /** No two entries share a connection. */
  ghost predicate Distinct(c: Cache) {
    forall a, b :: a in c.conns && b in c.conns && a != b ==> c.conns[a].conn != c.conns[b].conn
  }

  /** A sweep that has visited some keys without a failure. */
  ghost predicate SweptTo(c0: Cache, t0: nat, t: nat, c: Cache, seen: seq<Key>) {
    && c.own == c0.own && c.next == c0.next
    && c.conns.Keys <= c0.conns.Keys
    && (forall k :: k in c.conns ==> c.conns[k] == c0.conns[k])
    && (forall k :: k in c0.conns.Keys - c.conns.Keys ==> k in seen && c0.conns[k].expiry < t)
    && (forall k :: k in c.conns && k in seen ==> c0.conns[k].expiry >= t0)
    && c.open == c0.open - Conns(c0.conns - c.conns.Keys)
  }

  lemma KeptKey(c0: Cache, t0: nat, t: nat, t': nat, c: Cache, seen: seq<Key>, key: Key)
    requires SweptTo(c0, t0, t, c, seen) && t <= t' && key in c.conns && c.conns[key].expiry >= t' >= t0
    ensures SweptTo(c0, t0, t', c, seen + [key])
  {
  }

  lemma ConnsWithout(m: map<Key, Entry>, kept: set<Key>, key: Key)
    requires key in m && key in kept
    ensures Conns(m - (kept - {key})) == Conns(m - kept) + {m[key].conn}
  {
    var less, more := m - kept, m - (kept - {key});
    assert more == less[key := m[key]];
    forall x
      ensures x in Conns(more) <==> x in Conns(less) + {m[key].conn}
    {
      if x in Conns(less) {
        var k :| k in less && less[k].conn == x;
        assert k in more && more[k].conn == x;
      }
      assert key in more;
    }
  }

  lemma GoneKey(c0: Cache, t0: nat, t: nat, t': nat, c: Cache, seen: seq<Key>, key: Key, c': Cache)
    requires SweptTo(c0, t0, t, c, seen) && t <= t' && key in c.conns && c.conns[key].expiry < t'
    requires Removes(c, key, c', Done)
    ensures SweptTo(c0, t0, t', c', seen + [key])
  {
    ConnsWithout(c0.conns, c.conns.Keys, key);
    assert c'.conns.Keys == c.conns.Keys - {key};
  }

  lemma StoppedAt(c0: Cache, t0: nat, t: nat, t': nat, c: Cache, seen: seq<Key>, key: Key, c': Cache)
    requires SweptTo(c0, t0, t, c, seen) && t0 <= t <= t' && key in c.conns && c.conns[key].expiry < t'
    requires Removes(c, key, c', Error)
    ensures Sweeps(c0, t0, t', c', Error)
  {
  }
}
