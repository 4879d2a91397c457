/** What holds over whole histories of served commands: connections are conserved, and one that
    was handed out stays open for its time to live. */
module ConnLease {
  import opened ConnCache

  /** One served command: the clock when the worker took it up and when it was done, the cache
      before and after, and the reply. */
  datatype Item = Item(cmd: Cmd, t0: nat, t1: nat, pre: Cache, post: Cache, reply: Reply)

  ghost predicate Served(ttl: nat, item: Item) {
    Serves(ttl, item.pre, item.cmd, item.t0, item.t1, item.post, item.reply)
  }

  /** Commands served one after the other, from an empty cache, under a monotone clock. */
  ghost predicate History(ttl: nat, items: seq<Item>) {
    && (forall i :: 0 <= i < |items| ==> Served(ttl, items[i]))
    && (items != [] ==> items[0].pre == FRESH)
    && forall i :: 0 < i < |items| ==> Follows(items[i - 1], items[i])
  }

  ghost predicate Follows(a: Item, b: Item) {
    b.pre == a.post && a.t1 <= b.t0
  }

  const FRESH := Cache(map[], {}, {}, 0)

  lemma HistoryExtends(ttl: nat, items: seq<Item>, item: Item)
    requires History(ttl, items) && Served(ttl, item)
    requires if items == [] then item.pre == FRESH else Follows(items[|items| - 1], item)
    ensures History(ttl, items + [item])
  {
    var items' := items + [item];
    forall i | 0 < i < |items'|
      ensures Follows(items'[i - 1], items'[i])
    {
      if i < |items| {
        assert Follows(items[i - 1], items[i]);
      }
    }
  }

  // ----- The invariant of the cache -----

  ghost predicate CacheInv(c: Cache) {
    && Distinct(c)
    && (forall k :: k in c.conns ==> c.conns[k].conn < c.next && c.conns[k].conn !in c.own)
    && (forall x :: x in c.open ==> x < c.next && (x in c.own || exists k :: k in c.conns && c.conns[k].conn == x))
    && c.own <= c.open
  }

  /** No connection is both cached and closed. */
  ghost predicate AllOpen(c: Cache) {
    forall k :: k in c.conns ==> c.conns[k].conn in c.open
  }

  /** The command ended in a Close that reported an error. */
  predicate CloseFailed(item: Item) {
    item.reply == Error && (item.cmd.RemoveConn? || item.cmd.RemoveExpired?)
  }

  /** What a command keeps: the invariant, no cached connection closed unless a Close failed, and
      the count of connections opened on the side. */
  ghost predicate Keeps(item: Item) {
    && CacheInv(item.post)
    && (AllOpen(item.pre) && !CloseFailed(item) ==> AllOpen(item.post))
    && |item.post.own| == |item.pre.own| + OwnOpens(item)
  }

  /** Connections opened outside the cache by a command. */
  function OwnOpens(item: Item): int {
    if item.cmd.CreateDB? || item.cmd.CheckMigrations? then item.post.next - item.pre.next else 0
  }

  lemma RenewedKeepsInv(c: Cache, key: Key, expiry: nat)
    requires CacheInv(c) && key in c.conns
    ensures CacheInv(Renewed(c, key, expiry)) && (AllOpen(c) ==> AllOpen(Renewed(c, key, expiry)))
  {
    var c' := Renewed(c, key, expiry);
    assert forall k :: k in c.conns <==> k in c'.conns;
    assert forall k :: k in c.conns ==> c'.conns[k].conn == c.conns[k].conn;
  }

  lemma OpenedKeepsInv(c: Cache, key: Key, expiry: nat)
    requires CacheInv(c) && key !in c.conns
    ensures CacheInv(Opened(c, key, expiry)) && (AllOpen(c) ==> AllOpen(Opened(c, key, expiry)))
  {
    var c' := Opened(c, key, expiry);
    assert key in c'.conns && c'.conns[key].conn == c.next;
    assert forall k :: k in c.conns ==> k in c'.conns && c'.conns[k] == c.conns[k];
  }

  lemma GetKeepsCached(ttl: nat, item: Item)
    requires CacheInv(item.pre) && Served(ttl, item) && item.cmd.GetConn? && item.cmd.key in item.pre.conns
    ensures Keeps(item)
  {
    var expiry :| item.post == Renewed(item.pre, item.cmd.key, expiry);
    RenewedKeepsInv(item.pre, item.cmd.key, expiry);
  }

  lemma GetKeepsOpened(ttl: nat, item: Item)
    requires CacheInv(item.pre) && Served(ttl, item) && item.cmd.GetConn? && item.cmd.key !in item.pre.conns
    ensures Keeps(item)
  {
    if item.post != item.pre {
      var expiry :| item.post == Opened(item.pre, item.cmd.key, expiry);
      OpenedKeepsInv(item.pre, item.cmd.key, expiry);
    }
  }

  lemma RemovedKeepsInv(c: Cache, key: Key)
    requires CacheInv(c) && key in c.conns
    ensures var c' := c.(conns := c.conns - {key}, open := c.open - {c.conns[key].conn});
            CacheInv(c') && (AllOpen(c) ==> AllOpen(c'))
  {
    var conns' := c.conns - {key};
    assert forall k :: k in conns' <==> k in c.conns && k != key;
    forall x | x in c.open && x != c.conns[key].conn && x !in c.own
      ensures exists k :: k in conns' && conns'[k].conn == x
    {
      var k :| k in c.conns && c.conns[k].conn == x;
      assert k in conns';
    }
  }

  lemma ShutKeepsInv(c: Cache, key: Key)
    requires CacheInv(c) && key in c.conns
    ensures CacheInv(c.(open := c.open - {c.conns[key].conn}))
  {
  }

  lemma RemovalKeepsInv(c: Cache, key: Key, c': Cache, reply: Reply)
    requires CacheInv(c) && Removes(c, key, c', reply)
    ensures CacheInv(c') && (AllOpen(c) && reply != Error ==> AllOpen(c'))
  {
    if key in c.conns {
      RemovedKeepsInv(c, key);
      ShutKeepsInv(c, key);
    }
  }

  lemma RemoveKeeps(ttl: nat, item: Item)
    requires CacheInv(item.pre) && Served(ttl, item) && item.cmd.RemoveConn?
    ensures Keeps(item)
  {
    RemovalKeepsInv(item.pre, item.cmd.key, item.post, item.reply);
  }

  lemma SweepKeepsInv(c: Cache, t0: nat, t1: nat, c': Cache, reply: Reply)
    requires CacheInv(c) && Sweeps(c, t0, t1, c', reply)
    ensures CacheInv(c') && (AllOpen(c) && reply != Error ==> AllOpen(c'))
  {
    var gone := c.conns - c'.conns.Keys;
    forall k | k in c.conns && k !in c'.conns
      ensures c.conns[k].conn in Conns(gone)
    {
      assert k in gone && gone[k].conn == c.conns[k].conn;
    }
    forall x | x in c'.open && x !in c.own
      ensures exists k :: k in c'.conns && c'.conns[k].conn == x
    {
      var k :| k in c.conns && c.conns[k].conn == x;
      assert k in c'.conns;
    }
  }

  lemma SweepKeeps(ttl: nat, item: Item)
    requires CacheInv(item.pre) && Served(ttl, item) && item.cmd.RemoveExpired?
    ensures Keeps(item)
  {
    SweepKeepsInv(item.pre, item.t0, item.t1, item.post, item.reply);
  }

  lemma OwnKeepsInv(c: Cache, n: nat)
    requires CacheInv(c)
    ensures CacheInv(OwnOpened(c, n)) && (AllOpen(c) ==> AllOpen(OwnOpened(c, n)))
    ensures |OwnOpened(c, n).own| == |c.own| + n
  {
  }

  lemma OwnKeeps(ttl: nat, item: Item)
    requires CacheInv(item.pre) && Served(ttl, item) && (item.cmd.CreateDB? || item.cmd.CheckMigrations?)
    ensures Keeps(item)
  {
    if item.post != item.pre {
      var n: nat :| item.post == OwnOpened(item.pre, n);
      OwnKeepsInv(item.pre, n);
    }
  }

  lemma ServedKeeps(ttl: nat, item: Item)
    requires CacheInv(item.pre) && Served(ttl, item)
    ensures Keeps(item)
  {
    match item.cmd
    case GetConn(key) =>
      if key in item.pre.conns {
        GetKeepsCached(ttl, item);
      } else {
        GetKeepsOpened(ttl, item);
      }
    case RemoveConn(_) => RemoveKeeps(ttl, item);
    case RemoveExpired => SweepKeeps(ttl, item);
    case CreateDB(_) => OwnKeeps(ttl, item);
    case CheckMigrations => OwnKeeps(ttl, item);
    case _ =>
  }

  function SumOwnOpens(items: seq<Item>): int {
    if items == [] then 0 else SumOwnOpens(items[..|items| - 1]) + OwnOpens(items[|items| - 1])
  }

  lemma {:induction false} HistoryKeepsInv(ttl: nat, items: seq<Item>)
    requires History(ttl, items) && items != []
    ensures var c := items[|items| - 1].post;
            && CacheInv(c) && |c.own| == SumOwnOpens(items)
            && ((forall item :: item in items ==> !CloseFailed(item)) ==> AllOpen(c))
  {
    var n := |items| - 1;
    var before := items[..n];
    if n == 0 {
      assert SumOwnOpens(before) == 0;
    } else {
      HistoryKeepsInv(ttl, before);
      assert Follows(items[n - 1], items[n]);
      assert forall item :: item in before ==> item in items;
    }
    assert items[n] in items;
    ServedKeeps(ttl, items[n]);
  }

  lemma ConnsWithoutKey(m: map<Key, Entry>, key: Key)
    requires key in m && forall k :: k in m && k != key ==> m[k].conn != m[key].conn
    ensures Conns(m) == Conns(m - {key}) + {m[key].conn} && m[key].conn !in Conns(m - {key})
  {
    forall x | x in Conns(m)
      ensures x in Conns(m - {key}) + {m[key].conn}
    {
      var k :| k in m && m[k].conn == x;
      assert k != key ==> k in m - {key} && (m - {key})[k].conn == x;
    }
    forall x | x in Conns(m - {key})
      ensures x in Conns(m) && x != m[key].conn
    {
      var k :| k in m - {key} && (m - {key})[k].conn == x;
      assert k in m && m[k].conn == x;
    }
  }

  lemma {:induction false} CachedConnCount(c: Cache)
    requires Distinct(c)
    ensures |Conns(c.conns)| == |c.conns|
    decreases |c.conns|
  {
    if |c.conns| > 0 {
      var k :| k in c.conns;
      var rest := c.(conns := c.conns - {k});
      assert c.conns == rest.conns[k := c.conns[k]];
      CachedConnCount(rest);
      ConnsWithoutKey(c.conns, k);
    }
  }

  /** In every history whose closes succeed, the open connections are the cached ones and those
      opened by createDatabase and runMigrations, which are never closed: their numbers add up. */
  lemma ConnectionsAreConserved(ttl: nat, items: seq<Item>)
    requires History(ttl, items) && items != []
    requires forall item :: item in items ==> !CloseFailed(item)
    ensures var c := items[|items| - 1].post;
            && c.open == Conns(c.conns) + c.own
            && |c.open| == |c.conns| + SumOwnOpens(items)
            && AllOpen(c)
  {
    var c := items[|items| - 1].post;
    HistoryKeepsInv(ttl, items);
    CachedConnCount(c);
    forall x
      ensures x in c.open <==> x in Conns(c.conns) + c.own
    {
      if x in Conns(c.conns) {
        var k :| k in c.conns && c.conns[k].conn == x;
      }
    }
    assert Conns(c.conns) !! c.own;
  }

  // ----- Leases -----

  ghost predicate Holds(c: Cache, key: Key, conn: ConnId, until: nat) {
    key in c.conns && c.conns[key].conn == conn && conn in c.open && c.conns[key].expiry >= until
  }

  /** One more command keeps a lease that has not run out, unless it removes that key. */
  lemma LeaseKept(ttl: nat, item: Item, key: Key, conn: ConnId, until: nat)
    requires CacheInv(item.pre) && Served(ttl, item) && Holds(item.pre, key, conn, until)
    requires item.cmd != RemoveConn(key) && item.t1 <= until <= item.t0 + ttl
    ensures Holds(item.post, key, conn, until)
  {
  }

  lemma {:induction false} LeaseHeld(ttl: nat, items: seq<Item>, i: nat, j: nat, key: Key, conn: ConnId, until: nat)
    requires History(ttl, items) && i <= j < |items|
    requires Holds(items[i].post, key, conn, until) && until <= items[i].t1 + ttl
    requires forall m :: i < m <= j ==> items[m].cmd != RemoveConn(key) && items[m].t1 <= until
    ensures Holds(items[j].post, key, conn, until) && items[i].t1 <= items[j].t1
    decreases j - i
  {
    if i < j {
      LeaseHeld(ttl, items, i, j - 1, key, conn, until);
      assert Follows(items[j - 1], items[j]);
      assert History(ttl, items[..j]);
      HistoryKeepsInv(ttl, items[..j]);
      LeaseKept(ttl, items[j], key, conn, until);
    }
  }

  /** Lease safety: a connection handed out at clock reading t, and open then, stays cached under
      its key and open until t plus the time to live has passed, whatever sweeps and other
      clients' commands come in between, as long as the key itself is not removed. */
  lemma LeaseIsSafe(ttl: nat, items: seq<Item>, i: nat, j: nat)
    requires History(ttl, items) && i <= j < |items|
    requires items[i].cmd.GetConn? && items[i].reply.Conn? && items[i].reply.id in items[i].post.open
    ensures exists until :: items[i].t0 + ttl <= until <= items[i].t1 + ttl && Leased(items, i, j, until)
  {
    var key := items[i].cmd.key;
    assert Served(ttl, items[i]);
    var until := items[i].post.conns[key].expiry;
    if forall m :: i < m <= j ==> items[m].cmd != RemoveConn(key) && items[m].t1 <= until {
      LeaseHeld(ttl, items, i, j, key, items[i].reply.id, until);
    }
    assert Leased(items, i, j, until);
  }

  /** If nothing from i to j removes the key and the clock stays within the lease, it holds. */
  ghost predicate Leased(items: seq<Item>, i: nat, j: nat, until: nat)
    requires i <= j < |items| && items[i].cmd.GetConn? && items[i].reply.Conn?
  {
    (forall m :: i < m <= j ==> items[m].cmd != RemoveConn(items[i].cmd.key) && items[m].t1 <= until) ==>
      Holds(items[j].post, items[i].cmd.key, items[i].reply.id, until)
  }

  // ----- When a connection is handed out shut -----

  /** The command's failed Close shut this connection and left its entry in the cache. */
  ghost predicate ShutEntry(item: Item, key: Key, conn: ConnId) {
    && CloseFailed(item)
    && key in item.pre.conns && item.pre.conns[key].conn == conn && conn in item.pre.open
    && key in item.post.conns && conn !in item.post.open
  }

  /** One of the first n commands did so. */
  ghost predicate ShutBefore(items: seq<Item>, n: nat, key: Key, conn: ConnId) {
    exists m :: 0 <= m < n && m < |items| && ShutEntry(items[m], key, conn)
  }

  /** The entry of the key holds this connection. */
  ghost predicate Cached(c: Cache, key: Key, conn: ConnId) {
    key in c.conns && c.conns[key].conn == conn
  }

  lemma SweepLeavesOpen(c: Cache, t0: nat, t1: nat, c': Cache, reply: Reply, key: Key, conn: ConnId)
    requires Distinct(c) && Sweeps(c, t0, t1, c', reply) && Cached(c, key, conn) && Cached(c', key, conn)
    ensures conn in c'.open ==> conn in c.open
    ensures reply != Error && conn in c.open ==> conn in c'.open
  {
  }

  lemma RemovalLeavesOpen(c: Cache, removed: Key, c': Cache, reply: Reply, key: Key, conn: ConnId)
    requires Distinct(c) && Removes(c, removed, c', reply) && Cached(c, key, conn) && Cached(c', key, conn)
    ensures conn in c'.open ==> conn in c.open
    ensures reply != Error && conn in c.open ==> conn in c'.open
  {
  }

  /** Nothing else shuts a connection that stays cached, and nothing opens it again. */
  lemma StaysOpenUnlessShut(ttl: nat, item: Item, key: Key, conn: ConnId)
    requires CacheInv(item.pre) && Served(ttl, item) && Cached(item.pre, key, conn) && Cached(item.post, key, conn)
    ensures conn in item.post.open <==> conn in item.pre.open && !ShutEntry(item, key, conn)
  {
    if item.cmd.RemoveExpired? {
      SweepLeavesOpen(item.pre, item.t0, item.t1, item.post, item.reply, key, conn);
    } else if item.cmd.RemoveConn? {
      RemovalLeavesOpen(item.pre, item.cmd.key, item.post, item.reply, key, conn);
    }
  }

  /** A connection comes into the cache open, under a new number. */
  lemma ComesInOpen(ttl: nat, item: Item, key: Key, conn: ConnId)
    requires Served(ttl, item) && !Cached(item.pre, key, conn) && Cached(item.post, key, conn)
    ensures conn in item.post.open && conn == item.pre.next && item.cmd == GetConn(key)
  {
  }

  lemma NextGrows(ttl: nat, item: Item)
    requires Served(ttl, item)
    ensures item.pre.next <= item.post.next
  {
  }

  lemma {:induction false} NumbersAreNew(ttl: nat, items: seq<Item>, m: nat, i: nat)
    requires History(ttl, items) && m <= i < |items|
    ensures items[m].pre.next <= items[i].pre.next
    ensures CacheInv(items[m].pre)
    decreases i - m
  {
    if m > 0 {
      assert Follows(items[m - 1], items[m]);
      assert History(ttl, items[..m]);
      HistoryKeepsInv(ttl, items[..m]);
    }
    if m < i {
      NumbersAreNew(ttl, items, m, i - 1);
      assert Follows(items[i - 1], items[i]);
      NextGrows(ttl, items[i - 1]);
    }
  }

  /** A cached connection is open exactly if no failed Close has shut its entry. */
  lemma {:induction false} CachedOpenIff(ttl: nat, items: seq<Item>, i: nat, key: Key, conn: ConnId)
    requires History(ttl, items) && i < |items| && Cached(items[i].post, key, conn)
    ensures conn in items[i].post.open <==> !ShutBefore(items, i + 1, key, conn)
  {
    var item := items[i];
    NumbersAreNew(ttl, items, i, i);
    if Cached(item.pre, key, conn) {
      assert i > 0 && Follows(items[i - 1], item);
      CachedOpenIff(ttl, items, i - 1, key, conn);
      StaysOpenUnlessShut(ttl, item, key, conn);
      assert ShutBefore(items, i + 1, key, conn) <==> ShutBefore(items, i, key, conn) || ShutEntry(item, key, conn);
    } else {
      ComesInOpen(ttl, item, key, conn);
      forall m | 0 <= m < i + 1
        ensures !ShutEntry(items[m], key, conn)
      {
        NumbersAreNew(ttl, items, m, i);
      }
    }
  }

  /** What is handed out is open, except exactly when an earlier failed Close shut that key's
      entry: a failed Close of another key, or of an earlier connection of this one, does no harm. */
  lemma HandedOutOpenIff(ttl: nat, items: seq<Item>, i: nat)
    requires History(ttl, items) && i < |items|
    requires items[i].cmd.GetConn? && items[i].reply.Conn?
    ensures items[i].reply.id in items[i].post.open <==>
            !ShutBefore(items, i, items[i].cmd.key, items[i].reply.id)
  {
    var key, conn := items[i].cmd.key, items[i].reply.id;
    assert Served(ttl, items[i]);
    assert Cached(items[i].post, key, conn);
    CachedOpenIff(ttl, items, i, key, conn);
    assert !ShutEntry(items[i], key, conn);
  }

  /** It does happen: after a Close that reported an error the entry is still cached, and the next
      client is handed the closed connection. */
  lemma FailedCloseHandsOutClosed(ttl: nat, key: Key)
    ensures exists items: seq<Item> :: History(ttl, items) && |items| == 3 && items[2].cmd == GetConn(key)
                            && items[2].reply.Conn? && items[2].reply.id !in items[2].post.open
  {
    var a := Opened(FRESH, key, ttl);
    var b := a.(open := a.open - {0});
    var items := [Item(GetConn(key), 0, 0, FRESH, a, Conn(0)),
                  Item(RemoveConn(key), 0, 0, a, b, Error),
                  Item(GetConn(key), 0, 0, b, Renewed(b, key, ttl), Conn(0))];
    assert Served(ttl, items[0]) by {
      assert items[0].post == Opened(FRESH, key, 0 + ttl);
    }
    assert Served(ttl, items[1]);
    assert Served(ttl, items[2]) by {
      assert items[2].post == Renewed(b, key, 0 + ttl);
    }
    assert History(ttl, items);
  }
}
