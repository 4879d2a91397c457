/** The worker of the connection manager put together: its methods produce the histories the theorems
    are about, and its upgrades are those of the user databases. */
module ConnWorker {
  import opened Collections
  import opened Upgrades
  import opened ConnCache
  import opened ConnLease
  import UserDatabases

  /** What the outside world does to one command. */
  datatype Outside = Outside(opens: bool, succeeds: bool, upgrades: seq<Upgrade>, shut: set<ConnId>)

  /** Ranging over a Go map: the keys in some order. */
  method AnyOrder(keys: set<Key>) returns (order: seq<Key>)
    ensures Enumerates(order, keys)
  {
    order := [];
    var rest := keys;
    while rest != {}
      invariant NoDup(order) && rest <= keys
      invariant forall k :: k in order <==> k in keys && k !in rest
      decreases |rest|
    {
      var k :| k in rest;
      NoDupConcat(order, [k]);
      order, rest := order + [k], rest - {k};
    }
  }

  /** The history that has led to a cache by a clock reading. */
  ghost predicate LeadsTo(ttl: nat, items: seq<Item>, c: Cache, now: nat) {
    && History(ttl, items)
    && c == (if items == [] then FRESH else items[|items| - 1].post)
    && (items != [] ==> items[|items| - 1].t1 <= now)
  }

  lemma LeadsFurther(ttl: nat, items: seq<Item>, c: Cache, now: nat, item: Item)
    requires LeadsTo(ttl, items, c, now) && Served(ttl, item) && item.pre == c && item.t0 == now
    ensures LeadsTo(ttl, items + [item], item.post, item.t1)
  {
    HistoryExtends(ttl, items, item);
  }

  /** The served command has come to what it had to. */
  ghost predicate Came(ttl: nat, item: Item, o: Outside) {
    Outcome(ttl, item.pre, item.cmd, o.opens, o.succeeds, o.upgrades, o.shut, item.t1, item.post, item.reply)
  }

  /** Whoever asks for a connection gets one, cached and open for the time to live, if the key is
      cached with an open one or one can be opened, which is then a new one; and an error exactly if
      neither. */
  lemma GetGives(ttl: nat, item: Item, o: Outside)
    requires item.cmd.GetConn? && Served(ttl, item) && Came(ttl, item, o)
    ensures item.reply == Error <==> item.cmd.key !in item.pre.conns && !o.opens
    ensures item.reply != Error ==>
              && item.reply.Conn?
              && (item.cmd.key !in item.pre.conns || item.pre.conns[item.cmd.key].conn in item.pre.open ==>
                    Holds(item.post, item.cmd.key, item.reply.id, item.t0 + ttl))
              && (item.cmd.key !in item.pre.conns && CacheInv(item.pre) ==> item.reply.id !in item.pre.open)
  {
  }

  method ServeOne(m: Manager, cmd: Cmd, o: Outside) returns (item: Item)
    modifies m
    ensures Served(m.ttl, item) && item.cmd == cmd
    ensures item.pre == old(m.c) && item.t0 == old(m.now) && item.post == m.c && item.t1 == m.now
    ensures Came(m.ttl, item, o)
  {
    var pre, t0 := m.c, m.now;
    var order := AnyOrder(m.c.conns.Keys);
    var reply := m.Serve(cmd, o.opens, o.succeeds, o.upgrades, order, o.shut);
    item := Item(cmd, t0, m.now, pre, m.c, reply);
  }

  /** The worker's loop over the commands it receives: whatever happens to them, what it has done is
      a history. */
  method ServeAll(m: Manager, cmds: seq<Cmd>, outside: seq<Outside>) returns (items: seq<Item>)
    requires m.c == FRESH && |outside| == |cmds|
    modifies m
    ensures LeadsTo(m.ttl, items, m.c, m.now)
    ensures |items| == |cmds|
    ensures forall i :: 0 <= i < |cmds| ==> items[i].cmd == cmds[i] && Came(m.ttl, items[i], outside[i])
  {
    items := [];
    for i := 0 to |cmds|
      invariant LeadsTo(m.ttl, items, m.c, m.now)
      invariant |items| == i
      invariant forall k :: 0 <= k < i ==> items[k].cmd == cmds[k] && Came(m.ttl, items[k], outside[k])
    {
      ghost var c, now := m.c, m.now;
      var item := ServeOne(m, cmds[i], outside[i]);
      LeadsFurther(m.ttl, items, c, now, item);
      items := items + [item];
    }
  }

  /** runMigrations as a whole: the cache is left alone, and the connections it leaves open are one
      for each database it tried. When it succeeds, every database is at the latest version, and
      exactly one connection is left for each that was behind. */
  method CheckMigrations(cache: Manager, dbs: UserDatabases.Manager) returns (r: Reply)
    requires UserDatabases.Inv(dbs.w)
    modifies cache, dbs
    ensures UserDatabases.Inv(dbs.w) && UserDatabases.Step(old(dbs.w), dbs.w)
    ensures Serves(cache.ttl, old(cache.c), Cmd.CheckMigrations, cache.now, cache.now, cache.c, r)
    ensures exists n: nat :: n <= |UserDatabases.Behind(old(dbs.w))| && cache.c == OwnOpened(old(cache.c), n)
    ensures r == Done ==>
              && cache.c == OwnOpened(old(cache.c), |UserDatabases.Behind(old(dbs.w))|)
              && forall u :: u in dbs.w.recorded ==>
                               dbs.w.recorded[u] == UserDatabases.FileOf(dbs.w, u).version
                               == UserDatabases.Latest(dbs.w)
    ensures old(dbs.faults) == [] && UserDatabases.Runnable(old(dbs.w)) ==> r == Done
  {
    var indexReady, upgrades := dbs.RunMigrations();
    r := cache.RunMigrations(indexReady, upgrades);
  }
}
