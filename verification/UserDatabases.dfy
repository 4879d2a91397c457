/** One notes database file per user, and an index database that records each file's version a
    second time. The two are written one after the other and can be caught apart. */
module UserDatabases {
  import opened Collections
  import opened Migrations
  import opened Upgrades

  type Id = nat

  datatype User = User(name: string, isAdmin: bool)

  /** What survives a restart: the two tables of the index database, its own version, the notes
      files, and the migrations the installed release brings. */
  datatype World = World(
    users: map<Id, User>,
    recorded: map<Id, nat>,
    files: map<Id, Database>,
    index: Database,
    notesMigs: seq<Migration>,
    indexMigs: seq<Migration>,
    scripts: Files)

  const EMPTY := Database(0, [])

  /** Opening a file that is not there creates it empty. */
  function FileOf(w: World, u: Id): Database {
    if u in w.files then w.files[u] else EMPTY
  }

  function Latest(w: World): nat {
    VersionAt(w.notesMigs, |w.notesMigs|)
  }

  /** The file holds exactly what the first migrations of the list make of an empty one. */
  ghost predicate Intact(w: World, d: Database) {
    exists k :: 0 <= k <= |w.notesMigs| && d == Raised(w.scripts, w.notesMigs, EMPTY, 0, k)
  }

  /** The recorded version never exceeds the version of the file. */
  ghost predicate Inv(w: World) {
    && Numbered(w.notesMigs) && Numbered(w.indexMigs)
    && (forall u :: u in w.recorded ==> u in w.users && !w.users[u].isAdmin && w.recorded[u] <= FileOf(w, u).version)
    && (forall u :: u in w.files ==> Intact(w, w.files[u]))
  }

  // ----- Steps -----

  ghost predicate SameRelease(w: World, w': World) {
    w'.notesMigs == w.notesMigs && w'.indexMigs == w.indexMigs && w'.scripts == w.scripts
  }

  /** CreateUserAndDB (admin false) or CreateAdminUser: both rows or none. */
  ghost predicate CreatedUser(w: World, w': World, id: Id, name: string, isAdmin: bool) {
    && id !in w.users
    && w' == w.(users := w.users[id := User(name, isAdmin)],
                recorded := if isAdmin then w.recorded else w.recorded[id := 0])
  }

  /** The file of u moved up by some migrations; its row is unchanged, or now says the latest
      version with the file there. */
  ghost predicate Moved(w: World, w': World, u: Id)
    requires u in w.recorded && u in w'.recorded
  {
    var p := Position(w.notesMigs, FileOf(w, u).version);
    && p >= 0 && Partway(w.scripts, w.notesMigs, FileOf(w, u), p, FileOf(w', u))
    && (w'.recorded[u] == w.recorded[u] || w'.recorded[u] == Latest(w) == FileOf(w', u).version)
  }

  ghost predicate Untouched(w: World, w': World, u: Id)
    requires u in w.recorded && u in w'.recorded
  {
    FileOf(w', u) == FileOf(w, u) && w'.recorded[u] == w.recorded[u]
  }

  /** CreateDB and RunMigrations, ended in success or failure or by a crash anywhere between. */
  ghost predicate Migrated(w: World, w': World, ids: set<Id>) {
    && SameRelease(w, w') && w'.users == w.users
    && w'.recorded.Keys == w.recorded.Keys && ids <= w.recorded.Keys
    && (forall u :: u in w.recorded ==> if u in ids then Moved(w, w', u) else Untouched(w, w', u))
    && (forall u :: u !in ids ==> FileOf(w', u) == FileOf(w, u) && (u in w'.files <==> u in w.files))
  }

  /** Deleting a user: the file and both rows. */
  ghost predicate Deleted(w: World, w': World, u: Id) {
    w' == w.(users := w.users - {u}, recorded := w.recorded - {u}, files := w.files - {u})
  }

  /** A new release keeps the migrations it has and adds more at the end. */
  ghost predicate Released(w: World, w': World) {
    && w.notesMigs <= w'.notesMigs && Numbered(w'.notesMigs) && Numbered(w'.indexMigs)
    && (forall m :: m in w.notesMigs ==> Script(w'.scripts, m.upFile) == Script(w.scripts, m.upFile))
    && w' == w.(notesMigs := w'.notesMigs, indexMigs := w'.indexMigs, scripts := w'.scripts)
  }

  ghost predicate Step(w: World, w': World) {
    || w' == w
    || (exists id, name, isAdmin :: CreatedUser(w, w', id, name, isAdmin))
    || (exists ids :: Migrated(w, w', ids))
    || (exists u :: Deleted(w, w', u))
    || Released(w, w')
  }

  ghost predicate IsRun(ws: seq<World>) {
    |ws| > 0 && forall i :: 0 <= i < |ws| - 1 ==> Step(ws[i], ws[i + 1])
  }

  // ----- The invariant -----

  lemma {:induction false} VersionAtAscends(migs: seq<Migration>, i: nat, k: nat)
    requires Numbered(migs) && i <= k <= |migs|
    ensures VersionAt(migs, i) <= VersionAt(migs, k)
  {
  }

  lemma RaisedIsIntact(w: World, d: Database, p: nat, d': Database)
    requires Numbered(w.notesMigs) && Intact(w, d) && At(w.notesMigs, d.version, p)
    requires Partway(w.scripts, w.notesMigs, d, p, d')
    ensures Intact(w, d') && d.version <= d'.version <= Latest(w)
  {
    var j :| 0 <= j <= |w.notesMigs| && d == Raised(w.scripts, w.notesMigs, EMPTY, 0, j);
    var k :| p <= k <= |w.notesMigs| && d' == Raised(w.scripts, w.notesMigs, d, p, k);
    AtIsUnique(w.notesMigs, d.version);
    assert At(w.notesMigs, d.version, j);
    RaisedInStretches(w.scripts, w.notesMigs, EMPTY, 0, p, k);
    VersionAtAscends(w.notesMigs, p, k);
    VersionAtAscends(w.notesMigs, k, |w.notesMigs|);
  }

  lemma IntactStands(w: World, d: Database)
    requires Numbered(w.notesMigs) && Intact(w, d)
    ensures Position(w.notesMigs, d.version) >= 0 && d.version <= Latest(w)
  {
    var k: nat :| k <= |w.notesMigs| && d == Raised(w.scripts, w.notesMigs, EMPTY, 0, k);
    assert At(w.notesMigs, d.version, k);
    PositionIs(w.notesMigs, d.version, k);
    VersionAtAscends(w.notesMigs, k, |w.notesMigs|);
  }

  lemma FileIsIntact(w: World, u: Id)
    requires Inv(w)
    ensures Intact(w, FileOf(w, u)) && Position(w.notesMigs, FileOf(w, u).version) >= 0
    ensures FileOf(w, u).version <= Latest(w)
  {
    assert EMPTY == Raised(w.scripts, w.notesMigs, EMPTY, 0, 0);
    IntactStands(w, FileOf(w, u));
  }

  lemma MovedKeepsInv(w: World, w': World, ids: set<Id>)
    requires Inv(w) && Migrated(w, w', ids)
    ensures Inv(w')
  {
    forall u | u in w'.recorded
      ensures w'.recorded[u] <= FileOf(w', u).version
    {
      FileIsIntact(w, u);
      if u in ids {
        RaisedIsIntact(w, FileOf(w, u), Position(w.notesMigs, FileOf(w, u).version), FileOf(w', u));
      }
    }
    forall u | u in w'.files
      ensures Intact(w', w'.files[u])
    {
      FileIsIntact(w, u);
      if u in ids {
        RaisedIsIntact(w, FileOf(w, u), Position(w.notesMigs, FileOf(w, u).version), FileOf(w', u));
      }
    }
  }

  lemma {:induction false} SameUpScripts(w: World, w': World, migs: seq<Migration>)
    requires forall m :: m in migs ==> Script(w'.scripts, m.upFile) == Script(w.scripts, m.upFile)
    ensures UpScripts(w'.scripts, migs) == UpScripts(w.scripts, migs)
  {
    if migs != [] {
      assert migs[0] in migs;
      SameUpScripts(w, w', migs[1..]);
    }
  }

  lemma IntactAfterRelease(w: World, w': World, d: Database)
    requires Intact(w, d) && Released(w, w')
    ensures Intact(w', d)
  {
    var k :| 0 <= k <= |w.notesMigs| && d == Raised(w.scripts, w.notesMigs, EMPTY, 0, k);
    assert w'.notesMigs[0..k] == w.notesMigs[0..k];
    SameUpScripts(w, w', w.notesMigs[0..k]);
    assert d == Raised(w'.scripts, w'.notesMigs, EMPTY, 0, k);
  }

  lemma ReleaseKeepsInv(w: World, w': World)
    requires Inv(w) && Released(w, w')
    ensures Inv(w')
  {
    forall u | u in w'.files
      ensures Intact(w', w'.files[u])
    {
      IntactAfterRelease(w, w', w.files[u]);
    }
    assert forall u :: u in w'.recorded ==> FileOf(w', u) == FileOf(w, u);
  }

  lemma CreateAndDeleteKeepInv(w: World, w': World)
    requires Inv(w)
    requires (exists id, name, isAdmin :: CreatedUser(w, w', id, name, isAdmin)) || (exists u :: Deleted(w, w', u))
    ensures Inv(w')
  {
  }

  lemma StepKeepsInv(w: World, w': World)
    requires Inv(w) && Step(w, w')
    ensures Inv(w')
  {
    if ids :| Migrated(w, w', ids) {
      MovedKeepsInv(w, w', ids);
    } else if Released(w, w') {
      ReleaseKeepsInv(w, w');
    } else if w' != w {
      CreateAndDeleteKeepInv(w, w');
    }
  }

  /** In every run, whatever fails or restarts in between, a recorded version is at most the
      version its file really has, and every file is some first part of the list. */
  lemma {:induction false} RunKeepsInv(ws: seq<World>, i: nat)
    requires IsRun(ws) && Inv(ws[0]) && i < |ws|
    ensures Inv(ws[i])
  {
    if i > 0 {
      RunKeepsInv(ws, i - 1);
      assert Step(ws[i - 1], ws[i - 1 + 1]);
      StepKeepsInv(ws[i - 1], ws[i]);
    }
  }

  /** A new server, before its first user. */
  ghost predicate NewServer(w: World) {
    w.users == map[] && w.recorded == map[] && w.files == map[] && Numbered(w.notesMigs) && Numbered(w.indexMigs)
  }

  lemma NewServerRunInv(ws: seq<World>, i: nat)
    requires IsRun(ws) && NewServer(ws[0]) && i < |ws|
    ensures Inv(ws[i])
  {
    RunKeepsInv(ws, i);
  }

  /** The rows DBVersionBefore selects. */
  function Behind(w: World): set<Id> {
    set u | u in w.recorded && w.recorded[u] < Latest(w) && u in w.users && !w.users[u].isAdmin
  }

  /** After a RunMigrations that brought the selected rows to the latest version, every recorded
      user database is there, in the index and in its file. */
  lemma SuccessMeansAllLatest(w: World, w': World, u: Id)
    requires Inv(w) && Migrated(w, w', Behind(w)) && u in w'.recorded
    requires AtLatest(w', Behind(w))
    ensures w'.recorded[u] == FileOf(w', u).version == Latest(w')
  {
    MovedKeepsInv(w, w', Behind(w));
    FileIsIntact(w', u);
    if u !in Behind(w) {
      assert Untouched(w, w', u);
      FileIsIntact(w, u);
    }
  }

  lemma NothingMoved(w: World, u: Id)
    requires Inv(w) && u in w.recorded
    ensures Migrated(w, w, {u})
  {
    FileIsIntact(w, u);
    var p := Position(w.notesMigs, FileOf(w, u).version);
    assert FileOf(w, u) == Raised(w.scripts, w.notesMigs, FileOf(w, u), p, p);
  }

  lemma OneMigrated(w: World, u: Id, d: Database, v: nat)
    requires u in w.recorded
    requires var p := Position(w.notesMigs, FileOf(w, u).version);
             p >= 0 && Partway(w.scripts, w.notesMigs, FileOf(w, u), p, d)
    requires v == w.recorded[u] || v == Latest(w) == d.version
    ensures Migrated(w, w.(files := w.files[u := d], recorded := w.recorded[u := v]), {u})
  {
    var w' := w.(files := w.files[u := d], recorded := w.recorded[u := v]);
    assert w'.recorded.Keys == w.recorded.Keys;
    assert Moved(w, w', u);
    forall v | v in w.recorded && v != u
      ensures Untouched(w, w', v)
    {
    }
  }

  /** Writing back the file of u, partly or fully migrated, and its row. */
  lemma OneMoved(w: World, u: Id, d: Database, v: nat)
    requires Inv(w) && u in w.recorded
    requires var p := Position(w.notesMigs, FileOf(w, u).version);
             p >= 0 && Partway(w.scripts, w.notesMigs, FileOf(w, u), p, d)
    requires v == w.recorded[u] || v == Latest(w) == d.version
    ensures var w' := w.(files := w.files[u := d], recorded := w.recorded[u := v]);
            Migrated(w, w', {u}) && Inv(w')
  {
    OneMigrated(w, u, d, v);
    MovedKeepsInv(w, w.(files := w.files[u := d], recorded := w.recorded[u := v]), {u});
  }

  lemma FileMoved(w: World, u: Id, d: Database)
    requires Inv(w) && u in w.recorded
    requires var p := Position(w.notesMigs, FileOf(w, u).version);
             p >= 0 && Partway(w.scripts, w.notesMigs, FileOf(w, u), p, d)
    ensures Migrated(w, w.(files := w.files[u := d]), {u}) && Inv(w.(files := w.files[u := d]))
  {
    OneMoved(w, u, d, w.recorded[u]);
    assert w.recorded[u := w.recorded[u]] == w.recorded;
  }

  /** What the file has run it does not run again; everybody else's file and row are as before. */
  ghost predicate OnlyAddedTo(w: World, w': World, u: Id) {
    && w'.users == w.users && w'.recorded.Keys == w.recorded.Keys
    && (u in w.files ==> u in w'.files && w.files[u].scripts <= w'.files[u].scripts)
    && (forall v :: v in w.files && v != u ==> v in w'.files && w'.files[v] == w.files[v])
    && (forall v :: v in w'.files && v != u ==> v in w.files)
    && (forall v :: v in w.recorded && v != u ==> w'.recorded[v] == w.recorded[v])
  }

  lemma FileWritten(w: World, u: Id, d: Database, v: nat)
    requires u in w.recorded && FileOf(w, u).scripts <= d.scripts
    ensures OnlyAddedTo(w, w, u)
    ensures OnlyAddedTo(w, w.(files := w.files[u := d]), u)
    ensures OnlyAddedTo(w, w.(files := w.files[u := d], recorded := w.recorded[u := v]), u)
  {
  }

  lemma MigratedWiden(w: World, w': World, ids: set<Id>, more: set<Id>)
    requires Inv(w) && Migrated(w, w', ids) && ids <= more <= w.recorded.Keys
    ensures Migrated(w, w', more)
  {
    forall u | u in more
      ensures Moved(w, w', u)
    {
      NothingMoved(w, u);
    }
  }

  lemma MigratedNext(w: World, w1: World, w2: World, ids: set<Id>, u: Id)
    requires Migrated(w, w1, ids) && u !in ids && Migrated(w1, w2, {u})
    ensures Migrated(w, w2, ids + {u})
  {
  }

  ghost predicate AtLatest(w: World, ids: set<Id>) {
    forall v :: v in ids ==> v in w.recorded && w.recorded[v] == Latest(w)
  }

  lemma UpgradedNext(w0: World, w1: World, w2: World, done: set<Id>, u: Id, all: set<Id>)
    requires Inv(w0) && u !in done && done + {u} <= all <= w0.recorded.Keys
    requires Migrated(w0, w1, done) && Migrated(w1, w2, {u})
    ensures Migrated(w0, w2, done + {u}) && Migrated(w0, w2, all)
  {
    MigratedNext(w0, w1, w2, done, u);
    MigratedWiden(w0, w2, done + {u}, all);
  }

  lemma TakenNext(ids: seq<Id>, i: nat)
    requires NoDup(ids) && i < |ids|
    ensures ids[i] !in Elems(ids[..i]) && Elems(ids[..i + 1]) == Elems(ids[..i]) + {ids[i]} <= Elems(ids)
  {
  }

  lemma LatestKept(w: World, w': World, ids: set<Id>, u: Id)
    requires AtLatest(w, ids) && Migrated(w, w', {u}) && u !in ids
    ensures AtLatest(w', ids)
  {
  }

  /** The first i of the databases are upgraded. */
  ghost predicate UpgradedTo(w0: World, w: World, ids: seq<Id>, i: nat)
    requires i <= |ids|
  {
    Inv(w) && w.index == w0.index && Migrated(w0, w, Elems(ids[..i])) && AtLatest(w, Elems(ids[..i]))
  }

  lemma OneMoreUpgraded(w0: World, w1: World, w2: World, ids: seq<Id>, i: nat)
    requires Inv(w0) && NoDup(ids) && i < |ids| && Elems(ids) <= w0.recorded.Keys
    requires UpgradedTo(w0, w1, ids, i) && Inv(w2) && w2.index == w1.index && Migrated(w1, w2, {ids[i]})
    ensures Migrated(w0, w2, Elems(ids))
    ensures ids[i] in w2.recorded && (w2.recorded[ids[i]] == Latest(w2) ==> UpgradedTo(w0, w2, ids, i + 1))
  {
    TakenNext(ids, i);
    UpgradedNext(w0, w1, w2, Elems(ids[..i]), ids[i], Elems(ids));
    LatestKept(w1, w2, Elems(ids[..i]), ids[i]);
  }

  lemma NothingUpgraded(w: World, ids: seq<Id>)
    requires Inv(w)
    ensures UpgradedTo(w, w, ids, 0)
  {
  }

  ghost predicate Readable(migs: seq<Migration>, scripts: Files) {
    migs != [] && forall m :: m in migs ==> m.upFile in scripts
  }

  /** Nothing in the installed release stops a migration from running. */
  ghost predicate Runnable(w: World) {
    && Readable(w.notesMigs, w.scripts) && Readable(w.indexMigs, w.scripts)
    && Position(w.indexMigs, w.index.version) >= 0
  }

  // ----- The methods -----

  /** Up over the migrations a release brings. */
  method UpNumbered(migs: seq<Migration>, scripts: Files, driver: Driver) returns (r: Result<nat>)
    requires Numbered(migs)
    modifies driver
    ensures var p := Position(migs, old(driver.db).version);
            p >= 0 ==> Partway(scripts, migs, old(driver.db), p, driver.db)
    ensures r.Ok? ==> migs != [] && r.value == driver.db.version == VersionAt(migs, |migs|)
    ensures old(driver.faults) == [] ==> driver.faults == []
    ensures old(driver.faults) == [] && Readable(migs, scripts) && Position(migs, old(driver.db).version) >= 0 ==> r.Ok?
  {
    var up := Up(migs, scripts, driver);
    return up.result;
  }

  /** The connection manager's side of user databases. Calls to the outside fail as faults says. */
  class Manager {
    var w: World
    var faults: seq<bool>

    constructor (w: World, faults: seq<bool>)
      requires Inv(w)
      ensures this.w == w && this.faults == faults
    {
      this.w, this.faults := w, faults;
    }

    method Attempt() returns (ok: bool)
      modifies this`faults
      ensures old(faults) == [] ==> ok && faults == []
    {
      ok := faults == [] || !faults[0];
      if faults != [] {
        faults := faults[1..];
      }
    }

    /** One transaction inserts the user and the user_databases row at version 0. */
    method CreateUserAndDB(name: string) returns (r: Result<Id>)
      requires Inv(w)
      modifies this
      ensures Inv(w) && Step(old(w), w)
      ensures r.Ok? ==> CreatedUser(old(w), w, r.value, name, false)
      ensures r.Ok? ==>
                && r.value !in old(w).users && w.users == old(w).users[r.value := User(name, false)]
                && w.recorded == old(w).recorded[r.value := 0] && w.files == old(w).files
      ensures r.Err? ==> w == old(w)
      ensures old(faults) == [] ==> (r.Err? <==> exists u :: u in old(w).users && old(w).users[u].name == name)
    {
      var tx := w;
      var ok := Attempt();
      if !ok || exists u :: u in tx.users && tx.users[u].name == name {
        return Err;
      }
      var r0 := Sorted(tx.users.Keys);
      var id := if r0 == [] then 1 else r0[|r0| - 1] + 1;
      assert id !in tx.users by {
        assert forall x :: x in tx.users.Keys ==> x in r0;
      }
      tx := tx.(users := tx.users[id := User(name, false)]);
      ok := Attempt();
      if !ok {
        return Err;
      }
      tx := tx.(recorded := tx.recorded[id := 0]);
      ok := Attempt();
      if !ok {
        return Err;
      }
      assert CreatedUser(w, tx, id, name, false);
      StepKeepsInv(w, tx);
      w := tx;
      return Ok(id);
    }

    /** Opens the file of u, migrates it up and then records the version reached. */
    method MigrateFile(u: Id) returns (r: Upgrade)
      requires Inv(w) && u in w.recorded
      modifies this
      ensures Inv(w) && Migrated(old(w), w, {u}) && w.index == old(w).index
      ensures r == Upgraded ==> w.recorded[u] == Latest(w) == FileOf(w, u).version
      ensures r == Upgraded ==> u in w.files && w.files[u].version == w.recorded[u]
      ensures OnlyAddedTo(old(w), w, u)
      ensures r == CannotOpen ==> w == old(w)
      ensures old(faults) == [] ==> faults == []
      ensures old(faults) == [] && Readable(w.notesMigs, w.scripts) ==> r == Upgraded
    {
      NothingMoved(w, u);
      FileWritten(w, u, FileOf(w, u), 0);
      ghost var before := w;
      var ok := Attempt();
      if !ok {
        return CannotOpen;
      }
      var driver := new Driver(FileOf(w, u), faults);
      var ver := UpNumbered(w.notesMigs, w.scripts, driver);
      faults := driver.faults;
      FileMoved(before, u, driver.db);
      FileWritten(before, u, driver.db, Latest(before));
      w := w.(files := w.files[u := driver.db]);
      if ver.Err? {
        return CannotMigrate;
      }
      ok := Attempt();
      if !ok {
        return CannotMigrate;
      }
      OneMoved(before, u, driver.db, ver.value);
      w := w.(recorded := w.recorded[u := ver.value]);
      return Upgraded;
    }

    /** createDatabase: the row must exist. */
    method CreateDB(u: Id) returns (ok: bool)
      requires Inv(w)
      modifies this
      ensures Inv(w) && Step(old(w), w)
      ensures u !in old(w).recorded ==> !ok && w == old(w)
      ensures u in old(w).recorded ==> Migrated(old(w), w, {u})
      ensures ok ==> w.recorded[u] == Latest(w) == FileOf(w, u).version
      ensures old(faults) == [] && Readable(old(w).notesMigs, old(w).scripts) && u in old(w).recorded ==> ok
    {
      ok := Attempt();
      if !ok || u !in w.recorded {
        if u in w.recorded {
          NothingMoved(w, u);
        }
        return false;
      }
      var r := MigrateFile(u);
      ok := r == Upgraded;
    }

    /** The index database is bootstrapped if it has no tables, and brought up if it is behind. */
    method MigrateIndex() returns (ok: bool)
      requires Inv(w)
      modifies this
      ensures Inv(w) && w == old(w).(index := w.index)
      ensures ok ==> w.indexMigs != [] && w.index.version == VersionAt(w.indexMigs, |w.indexMigs|)
      ensures old(faults) == [] && Runnable(old(w)) ==> ok && faults == []
    {
      ok := Attempt();
      if !ok {
        return;
      }
      var isEmpty := |w.index.scripts| == 0;
      var driver := new Driver(w.index, faults);
      if !isEmpty {
        var isLatest := IsLatest(w.indexMigs, driver);
        faults := driver.faults;
        if isLatest.Err? || isLatest.value {
          return isLatest.Ok?;
        }
      }
      var ver := UpNumbered(w.indexMigs, w.scripts, driver);
      faults := driver.faults;
      SameFiles(w, driver.db);
      w := w.(index := driver.db);
      return ver.Ok?;
    }

    /** The next database to upgrade. */
    method UpgradeNext(ghost w0: World, ids: seq<Id>, i: nat) returns (r: Upgrade)
      requires Inv(w0) && NoDup(ids) && i < |ids| && Elems(ids) <= w0.recorded.Keys && UpgradedTo(w0, w, ids, i)
      modifies this
      ensures Inv(w) && Migrated(w0, w, Elems(ids)) && w.index == w0.index
      ensures r == Upgraded ==> UpgradedTo(w0, w, ids, i + 1)
      ensures old(faults) == [] ==> faults == []
      ensures old(faults) == [] && Readable(w.notesMigs, w.scripts) ==> r == Upgraded
    {
      assert ids[i] in Elems(ids);
      ghost var w1 := w;
      r := MigrateFile(ids[i]);
      OneMoreUpgraded(w0, w1, w, ids, i);
    }

    /** The loop over the databases to upgrade, stopped by the first failure. */
    method UpgradeAll(ids: seq<Id>) returns (upgrades: seq<Upgrade>)
      requires Inv(w) && NoDup(ids) && Elems(ids) <= w.recorded.Keys
      modifies this
      ensures Inv(w) && Migrated(old(w), w, Elems(ids)) && w.index == old(w).index
      ensures StoppedAtFailure(upgrades, |ids|)
      ensures FirstFailure(upgrades) == |upgrades| ==> AtLatest(w, Elems(ids))
      ensures old(faults) == [] && Readable(w.notesMigs, w.scripts) ==> FirstFailure(upgrades) == |upgrades|
    {
      ghost var w0 := w;
      upgrades := [];
      NothingUpgraded(w, ids);
      for i := 0 to |ids|
        invariant UpgradedTo(w0, w, ids, i)
        invariant |upgrades| == i == FirstFailure(upgrades)
        invariant old(faults) == [] ==> faults == []
      {
        var r := UpgradeNext(w0, ids, i);
        OneMoreTried(upgrades, r);
        upgrades := upgrades + [r];
        if r != Upgraded {
          return;
        }
      }
      assert ids[..|ids|] == ids;
    }

    /** The index database first, then every recorded user database that is behind; what came of
        each of them as far as it went. */
    method RunMigrations() returns (indexReady: bool, upgrades: seq<Upgrade>)
      requires Inv(w)
      modifies this
      ensures Inv(w) && Step(old(w), w)
      ensures Migrated(old(w), w, Behind(old(w)))
      ensures indexReady ==> StoppedAtFailure(upgrades, |Behind(old(w))|)
      ensures indexReady ==> w.index.version == VersionAt(w.indexMigs, |w.indexMigs|)
      ensures indexReady && FirstFailure(upgrades) == |upgrades| ==>
                forall u :: u in w.recorded ==> w.recorded[u] == FileOf(w, u).version == Latest(w)
      ensures old(faults) == [] && Runnable(old(w)) ==> indexReady && FirstFailure(upgrades) == |upgrades|
    {
      ghost var w0 := w;
      upgrades := [];
      indexReady := MigrateIndex();
      IndexAside(w0, w);
      if !indexReady || |w.notesMigs| == 0 {
        return false, [];
      }
      indexReady := Attempt();
      if !indexReady {
        return;
      }
      var ids := Sorted(Behind(w));
      assert Elems(ids) == Behind(w0);
      ElemsSize(ids);
      ghost var w1 := w;
      upgrades := UpgradeAll(ids);
      IndexAsideMigrated(w0, w1, w, Behind(w0));
      if FirstFailure(upgrades) == |upgrades| {
        forall u | u in w.recorded
          ensures w.recorded[u] == FileOf(w, u).version == Latest(w)
        {
          SuccessMeansAllLatest(w0, w, u);
        }
      }
    }
  }

  /** The upgrades of n databases: all of them, or up to the first that failed. */
  ghost predicate StoppedAtFailure(upgrades: seq<Upgrade>, n: nat) {
    |upgrades| <= n && if FirstFailure(upgrades) == |upgrades| then |upgrades| == n
                       else FirstFailure(upgrades) == |upgrades| - 1
  }

  lemma IndexAside(w: World, w': World)
    requires Inv(w) && w' == w.(index := w'.index)
    ensures Migrated(w, w', Behind(w)) && Behind(w') == Behind(w)
  {
    assert Migrated(w, w', {});
    MigratedWiden(w, w', {}, Behind(w));
  }

  lemma IndexAsideMigrated(w: World, w1: World, w2: World, ids: set<Id>)
    requires w1 == w.(index := w1.index) && Migrated(w1, w2, ids)
    ensures Migrated(w, w2, ids)
  {
  }

  lemma SameFiles(w: World, index: Database)
    requires Inv(w)
    ensures Inv(w.(index := index))
  {
  }
}
