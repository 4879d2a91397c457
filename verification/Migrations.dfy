/** Version stepping over a sorted list of migrations, one transaction per script. */
module Migrations {
  import opened Collections

  datatype Migration = Migration(version: nat, upFile: string, downFile: string, name: string)

  const EMPTY_MIGRATION := Migration(0, "", "", "Empty Database")

  /** The embedded scripts by path. */
  type Files = map<string, string>

  /** A database as far as migrations see it: its user_version and the scripts run on it. */
  datatype Database = Database(version: nat, scripts: seq<string>)

  ghost predicate VersionsAscend(migs: seq<Migration>) {
    forall i, j :: 0 <= i < j < |migs| ==> migs[i].version < migs[j].version
  }

  /** What the shipped directories give: ascending positive versions. */
  ghost predicate Numbered(migs: seq<Migration>) {
    VersionsAscend(migs) && (migs != [] ==> migs[0].version > 0)
  }

  /** The version of a database that has the first i migrations of the list behind it. */
  function VersionAt(migs: seq<Migration>, i: nat): nat
    requires i <= |migs|
  {
    if i == 0 then 0 else migs[i - 1].version
  }

  ghost predicate At(migs: seq<Migration>, version: nat, i: nat) {
    i <= |migs| && version == VersionAt(migs, i)
  }

  /** The database is empty or at the version of some migration of the list. */
  ghost predicate Known(migs: seq<Migration>, version: nat) {
    exists i: nat :: At(migs, version, i)
  }

  lemma AtIsUnique(migs: seq<Migration>, version: nat)
    requires Numbered(migs)
    ensures forall i: nat, j: nat :: At(migs, version, i) && At(migs, version, j) ==> i == j
  {
  }

  /** The first index with the version, -1 if there is none. */
  function FirstIndex(migs: seq<Migration>, version: nat): (i: int)
    ensures -1 <= i < |migs|
    ensures i >= 0 ==> migs[i].version == version
    ensures forall k :: 0 <= k < (if i == -1 then |migs| else i) ==> migs[k].version != version
  {
    if migs == [] then -1
    else if migs[0].version == version then 0
    else
      var i := FirstIndex(migs[1..], version);
      if i == -1 then -1 else i + 1
  }

  /** Where a database stands in the list: how many migrations it has behind it, -1 if its
      version is not listed. Version 0 is the empty database, listed or not. */
  function Position(migs: seq<Migration>, version: nat): (p: int)
    ensures p >= 0 ==> At(migs, version, p) && (p == 0 <==> version == 0)
    ensures p < 0 ==> p == -1 && !Known(migs, version)
  {
    if version == 0 then
      assert At(migs, version, 0);
      0
    else
      var i := FirstIndex(migs, version);
      if i == -1 then -1 else i + 1
  }

  lemma PositionIs(migs: seq<Migration>, version: nat, i: nat)
    requires VersionsAscend(migs) && At(migs, version, i) && (version == 0 ==> i == 0)
    ensures Position(migs, version) == i
  {
  }

  function Script(files: Files, path: string): string {
    if path in files then files[path] else ""
  }

  function UpScripts(files: Files, migs: seq<Migration>): seq<string> {
    if migs == [] then [] else [Script(files, migs[0].upFile)] + UpScripts(files, migs[1..])
  }

  /** The down scripts of migs[k..i], last first. */
  function DownScripts(files: Files, migs: seq<Migration>, i: nat, k: nat): seq<string>
    requires i <= |migs|
    decreases i
  {
    if i <= k then [] else [Script(files, migs[i - 1].downFile)] + DownScripts(files, migs, i - 1, k)
  }

  /** The database after the up scripts of migs[i..k], from one that has i migrations behind it. */
  function Raised(files: Files, migs: seq<Migration>, d: Database, i: nat, k: nat): Database
    requires i <= k <= |migs|
  {
    if i == k then d else Database(VersionAt(migs, k), d.scripts + UpScripts(files, migs[i..k]))
  }

  function Lowered(files: Files, migs: seq<Migration>, d: Database, i: nat, k: nat): Database
    requires k <= i <= |migs|
  {
    if i == k then d else Database(VersionAt(migs, k), d.scripts + DownScripts(files, migs, i, k))
  }

  /** Script by script: what is run on the way from i migrations up to k, each text once and in the
      order of the list, and the version that leaves. */
  lemma RaisedMeans(files: Files, migs: seq<Migration>, d: Database, i: nat, k: nat)
    requires i <= k <= |migs|
    ensures var d' := Raised(files, migs, d, i, k);
            && d'.version == (if i == k then d.version else migs[k - 1].version)
            && |d'.scripts| == |d.scripts| + (k - i) && d.scripts <= d'.scripts
            && forall m :: i <= m < k && migs[m].upFile in files ==>
                             d'.scripts[|d.scripts| + (m - i)] == files[migs[m].upFile]
  {
    UpScriptsMean(files, migs[i..k]);
    forall m | i <= m < k && migs[m].upFile in files
      ensures UpScripts(files, migs[i..k])[m - i] == files[migs[m].upFile]
    {
      assert migs[i..k][m - i] == migs[m];
    }
  }

  lemma {:induction false} UpScriptsMean(files: Files, migs: seq<Migration>)
    ensures |UpScripts(files, migs)| == |migs|
    ensures forall j :: 0 <= j < |migs| && migs[j].upFile in files ==>
                          UpScripts(files, migs)[j] == files[migs[j].upFile]
  {
    if migs != [] {
      UpScriptsMean(files, migs[1..]);
    }
  }

  /** And on the way down from i to k, last first. */
  lemma LoweredMeans(files: Files, migs: seq<Migration>, d: Database, i: nat, k: nat)
    requires k <= i <= |migs|
    ensures var d' := Lowered(files, migs, d, i, k);
            && d'.version == (if i == k then d.version else if k == 0 then 0 else migs[k - 1].version)
            && |d'.scripts| == |d.scripts| + (i - k) && d.scripts <= d'.scripts
            && forall m :: k <= m < i && migs[m].downFile in files ==>
                             d'.scripts[|d.scripts| + (i - 1 - m)] == files[migs[m].downFile]
  {
    DownScriptsMean(files, migs, i, k);
  }

  lemma {:induction false} DownScriptsMean(files: Files, migs: seq<Migration>, i: nat, k: nat)
    requires k <= i <= |migs|
    ensures |DownScripts(files, migs, i, k)| == i - k
    ensures forall m :: k <= m < i && migs[m].downFile in files ==>
                          DownScripts(files, migs, i, k)[i - 1 - m] == files[migs[m].downFile]
  {
    if i > k {
      DownScriptsMean(files, migs, i - 1, k);
    }
  }

  // ----- The driver -----

  /** An open database. Its next calls fail as faults says, then they succeed. */
  class Driver {
    var db: Database
    var faults: seq<bool>

    constructor (db: Database, faults: seq<bool>)
      ensures this.db == db && this.faults == faults
    {
      this.db, this.faults := db, faults;
    }

    method Attempt() returns (ok: bool)
      modifies this`faults
      ensures |faults| <= |old(faults)| && (old(faults) != [] ==> |faults| < |old(faults)|)
      ensures old(faults) == [] ==> ok && faults == []
    {
      ok := faults == [] || !faults[0];
      if faults != [] {
        faults := faults[1..];
      }
    }

    method Version() returns (r: Result<nat>)
      modifies this`faults
      ensures |faults| <= |old(faults)| && (old(faults) != [] ==> |faults| < |old(faults)|)
      ensures old(faults) == [] ==> r.Ok? && faults == []
      ensures r.Ok? ==> r.value == db.version
    {
      var ok := Attempt();
      return if ok then Ok(db.version) else Err;
    }

    /** The script and the new user_version are committed together or rolled back together. */
    method RunMigration(script: string, version: nat) returns (ok: bool)
      modifies this
      ensures |faults| <= |old(faults)|
      ensures old(faults) == [] ==> ok && faults == []
      ensures db == if ok then Database(version, old(db).scripts + [script]) else old(db)
    {
      var tx := db;
      ok := Attempt();
      if !ok {
        return;
      }
      tx := tx.(scripts := tx.scripts + [script]);
      ok := Attempt();
      if !ok {
        return;
      }
      tx := tx.(version := version);
      ok := Attempt();
      if !ok {
        return;
      }
      db := tx;
    }
  }

  // ----- Looking versions up -----

  method FindVersionIndex(migs: seq<Migration>, version: nat) returns (index: int)
    ensures -1 <= index < |migs|
    ensures index >= 0 ==> migs[index].version == version
    ensures forall k :: 0 <= k < (if index == -1 then |migs| else index) ==> migs[k].version != version
    ensures index == FirstIndex(migs, version)
  {
    for i := 0 to |migs|
      invariant forall k :: 0 <= k < i ==> migs[k].version != version
    {
      if migs[i].version == version {
        return i;
      }
    }
    return -1;
  }

  method Next(migs: seq<Migration>, currVersion: nat) returns (r: Result<Migration>)
    ensures var p := Position(migs, currVersion);
            r == if 0 <= p < |migs| then Ok(migs[p]) else Err
  {
    if currVersion == 0 {
      return if |migs| == 0 then Err else Ok(migs[0]);
    }
    var i := FindVersionIndex(migs, currVersion);
    if i == |migs| - 1 || i == -1 {
      return Err;
    }
    return Ok(migs[i + 1]);
  }

  /** Before a version that stands at p is the one at p - 1; nothing is before the first migration
      or an unlisted version. */
  method Prev(migs: seq<Migration>, currVersion: nat) returns (r: Result<Migration>)
    ensures var p := Position(migs, currVersion);
            currVersion != 0 ==> r == if p >= 2 then Ok(migs[p - 2]) else Err
    ensures r.Ok? <==> migs != [] && migs[0].version != currVersion && exists m :: m in migs && m.version == currVersion
    ensures currVersion == 0 && VersionsAscend(migs) ==> r == Err
  {
    var i := FindVersionIndex(migs, currVersion);
    assert i >= 0 ==> migs[i] in migs;
    return if i <= 0 then Err else Ok(migs[i - 1]);
  }

  method IsLatest(migs: seq<Migration>, driver: Driver) returns (r: Result<bool>)
    modifies driver`faults
    ensures |driver.faults| <= |old(driver.faults)|
    ensures if old(driver.faults) == [] then driver.faults == [] else |driver.faults| < |old(driver.faults)|
    ensures r.Ok? ==> migs != [] && (r.value <==> driver.db.version == migs[|migs| - 1].version)
    ensures old(driver.faults) == [] && migs != [] ==> r.Ok?
  {
    var dbv := driver.Version();
    if dbv.Err? || |migs| == 0 {
      return Err;
    }
    return Ok(dbv.value == migs[|migs| - 1].version);
  }

  // ----- Up -----

  /** What a step up that reports a migration m has done: nothing, at the latest version; the next
      script; or nothing, the failure of the second version read being dropped. */
  ghost predicate SteppedUp(files: Files, migs: seq<Migration>, d: Database, m: Migration, d': Database, failed: bool)
    requires migs != []
  {
    var p, last := Position(migs, d.version), migs[|migs| - 1];
    || (d.version == last.version && m == last && d' == d)
    || (d.version != last.version && 0 <= p < |migs| && m == migs[p] && m.upFile in files
        && d' == Raised(files, migs, d, p, p + 1))
    || (d.version != last.version && m.version == 0 && d' == d && failed)
  }

  method StepUp(migs: seq<Migration>, files: Files, driver: Driver) returns (r: Result<Migration>)
    modifies driver
    ensures if old(driver.faults) == [] then driver.faults == [] else |driver.faults| < |old(driver.faults)|
    ensures r.Err? ==> driver.db == old(driver.db)
    ensures r.Ok? ==> migs != [] && SteppedUp(files, migs, old(driver.db), r.value, driver.db,
                                              |driver.faults| < |old(driver.faults)|)
    ensures var p := Position(migs, old(driver.db).version);
            old(driver.faults) == [] ==>
              (r.Ok? <==> migs != [] && (old(driver.db).version == migs[|migs| - 1].version
                                         || (0 <= p < |migs| && migs[p].upFile in files)))
  {
    ghost var p := Position(migs, driver.db.version);
    var latest := IsLatest(migs, driver);
    if latest.Err? {
      return Err;
    }
    if latest.value {
      return Ok(migs[|migs| - 1]);
    }
    var cv := driver.Version();
    if cv.Err? {
      return Ok(Migration(0, "", "", ""));
    }
    var nm := Next(migs, cv.value);
    if nm.Err? || nm.value.upFile !in files {
      return Err;
    }
    var ok := driver.RunMigration(files[nm.value.upFile], nm.value.version);
    if !ok {
      return Err;
    }
    assert UpScripts(files, migs[p..p + 1]) == [files[migs[p].upFile]];
    return nm;
  }

  /** A list that goes on after a migration of version 0, and an empty database: the step that runs
      that migration leaves the database at version 0. */
  predicate StuckAtZero(files: Files, migs: seq<Migration>, version: nat) {
    |migs| > 1 && migs[0].version == 0 && migs[0].upFile in files && version == 0
  }

  /** From there no step that succeeds gets Up any further, and without faults all succeed. */
  lemma StuckForever(files: Files, migs: seq<Migration>, d: Database, m: Migration, d': Database, failed: bool)
    requires VersionsAscend(migs) && StuckAtZero(files, migs, d.version) && SteppedUp(files, migs, d, m, d', failed)
    ensures StuckAtZero(files, migs, d'.version) && m.version != migs[|migs| - 1].version
    ensures d'.scripts == d.scripts + [files[migs[0].upFile]] || (failed && d' == d)
  {
    assert UpScripts(files, migs[0..1]) == [Script(files, migs[0].upFile)];
  }

  /** However many steps Up takes from there, none is its last: the same script runs each time. */
  lemma {:induction false} UpNeverEnds(files: Files, migs: seq<Migration>, ds: seq<Database>, ms: seq<Migration>)
    requires VersionsAscend(migs) && |ds| == |ms| + 1 && StuckAtZero(files, migs, ds[0].version)
    requires forall i :: 0 <= i < |ms| ==> SteppedUp(files, migs, ds[i], ms[i], ds[i + 1], false)
    ensures forall m :: m in ms ==> m.version != migs[|migs| - 1].version
    ensures ds[|ms|].version == 0 && |ds[|ms|].scripts| == |ds[0].scripts| + |ms|
    decreases |ms|
  {
    if ms != [] {
      var n := |ms| - 1;
      UpNeverEnds(files, migs, ds[..n + 1], ms[..n]);
      StuckForever(files, migs, ds[n], ms[n], ds[n + 1], false);
      assert ms == ms[..n] + [ms[n]];
    }
  }

  /** The smallest such list, and the step that goes nowhere. */
  lemma StuckExample()
    ensures var migs := [Migration(0, "u0", "d0", "zero"), Migration(1, "u1", "d1", "one")];
            var files: Files := map["u0" := "S"];
            && VersionsAscend(migs) && StuckAtZero(files, migs, 0)
            && SteppedUp(files, migs, Database(0, []), migs[0], Database(0, ["S"]), false)
  {
    var migs := [Migration(0, "u0", "d0", "zero"), Migration(1, "u1", "d1", "one")];
    var files: Files := map["u0" := "S"];
    assert migs[0..1] == [migs[0]] && UpScripts(files, [migs[0]]) == ["S"];
    assert [] + ["S"] == ["S"];
    assert Raised(files, migs, Database(0, []), 0, 1) == Database(0, ["S"]);
  }

  lemma {:induction false} UpScriptsConcat(files: Files, a: seq<Migration>, b: seq<Migration>)
    ensures UpScripts(files, a + b) == UpScripts(files, a) + UpScripts(files, b)
  {
    if a == [] {
      assert a + b == b;
    } else {
      assert (a + b)[1..] == a[1..] + b;
      UpScriptsConcat(files, a[1..], b);
    }
  }

  /** Raising in two stretches is raising in one: a rerun after a failure ends where an
      uninterrupted run does, and so does a run over a list that has grown at its end. */
  lemma RaisedInStretches(files: Files, migs: seq<Migration>, d: Database, i: nat, j: nat, k: nat)
    requires i <= j <= k <= |migs|
    ensures Raised(files, migs, Raised(files, migs, d, i, j), j, k) == Raised(files, migs, d, i, k)
  {
    UpScriptsConcat(files, migs[i..j], migs[j..k]);
    assert migs[i..j] + migs[j..k] == migs[i..k];
    assert d.scripts + (UpScripts(files, migs[i..j]) + UpScripts(files, migs[j..k])) ==
           d.scripts + UpScripts(files, migs[i..j]) + UpScripts(files, migs[j..k]);
  }

  lemma GrownListRaisesAlike(files: Files, migs: seq<Migration>, more: seq<Migration>, d: Database, i: nat, k: nat)
    requires i <= k <= |migs|
    ensures Raised(files, migs + more, d, i, k) == Raised(files, migs, d, i, k)
  {
    assert (migs + more)[i..k] == migs[i..k];
  }

  /** Where the loop of Up has got to, from d at position p: the scripts of migs[p..k] have run. */
  ghost predicate UpTo(files: Files, migs: seq<Migration>, d: Database, p: int, k: int, d': Database)
    requires migs != []
  {
    && -1 <= p <= k <= |migs| && (p < 0 || migs[|migs| - 1].version == 0 ==> k == p)
    && d' == (if p < 0 then d else Raised(files, migs, d, p, k))
    && Position(migs, d'.version) == k
    && !StuckAtZero(files, migs, d'.version)
    && (p >= 0 ==> forall i :: p <= i < k ==> migs[i].upFile in files)
  }

  lemma OneMigrationUp(files: Files, migs: seq<Migration>, d: Database, p: nat, k: nat, d': Database, d'': Database)
    requires VersionsAscend(migs) && migs != [] && UpTo(files, migs, d, p, k, d') && k < |migs|
    requires migs[|migs| - 1].version > 0 && migs[k].version > 0 && migs[k].upFile in files
    requires d'' == Raised(files, migs, d', k, k + 1)
    ensures UpTo(files, migs, d, p, k + 1, d'')
  {
    RaisedInStretches(files, migs, d, p, k, k + 1);
    PositionIs(migs, d''.version, k + 1);
  }

  /** One round of the loop: it is the last one, or brings the list or a failure behind it. */
  lemma UpRound(files: Files, migs: seq<Migration>, d: Database, p: int, k: int, d': Database, m: Migration,
                d'': Database, failed: bool) returns (k': int)
    requires VersionsAscend(migs) && migs != [] && UpTo(files, migs, d, p, k, d')
    requires SteppedUp(files, migs, d', m, d'', failed)
    ensures UpTo(files, migs, d, p, k', d'') && k <= k'
    ensures m.version == migs[|migs| - 1].version || k < k' || failed
    ensures m.version == migs[|migs| - 1].version > 0 ==> k' == |migs|
    ensures m.version == migs[|migs| - 1].version == 0 ==> d'' == d && (failed || d.version == 0)
  {
    var last := migs[|migs| - 1];
    if d'.version != last.version && 0 <= k < |migs| && m == migs[k] && m.upFile in files
       && d'' == Raised(files, migs, d', k, k + 1) {
      assert migs[k].version > 0;
      OneMigrationUp(files, migs, d, p, k, d', d'');
      k' := k + 1;
    } else {
      k' := k;
      assert d'' == d';
    }
    if m.version == last.version > 0 {
      PositionIs(migs, last.version, |migs|);
    }
  }

  /** How a call ends, if it does. */
  datatype Outcome<+T> = Ended(result: Result<T>) | Forever

  function Times(script: string, n: nat): seq<string> {
    if n == 0 then [] else Times(script, n - 1) + [script]
  }

  /** The script of the migration of version 0 has run some number of times. */
  ghost predicate WentRound(files: Files, migs: seq<Migration>, d: Database, d': Database) {
    && StuckAtZero(files, migs, d'.version)
    && exists n: nat :: d'.scripts == d.scripts + Times(files[migs[0].upFile], n)
  }

  lemma RoundAndRound(files: Files, migs: seq<Migration>, d: Database, d': Database, m: Migration, d'': Database,
                      failed: bool)
    requires VersionsAscend(migs) && WentRound(files, migs, d, d') && SteppedUp(files, migs, d', m, d'', failed)
    ensures WentRound(files, migs, d, d'') && m.version != migs[|migs| - 1].version
  {
    var script := files[migs[0].upFile];
    var n: nat :| d'.scripts == d.scripts + Times(script, n);
    StuckForever(files, migs, d', m, d'', failed);
    if d'' != d' {
      assert d''.scripts == d.scripts + Times(script, n + 1);
    }
  }

  /** d' is d with the up scripts of migs[p..k] run on it, for some k. */
  ghost predicate Partway(files: Files, migs: seq<Migration>, d: Database, p: nat, d': Database) {
    exists k :: p <= k <= |migs| && d' == Raised(files, migs, d, p, k)
  }

  /** What an ended run of Up has left, and reports. */
  ghost predicate RanUp(files: Files, migs: seq<Migration>, d: Database, d': Database, r: Result<nat>) {
    var p := Position(migs, d.version);
    && (p < 0 ==> d' == d)
    && (p >= 0 ==> Partway(files, migs, d, p, d'))
    && (r.Ok? ==> migs != [] && r.value == VersionAt(migs, |migs|))
    && (r.Ok? && r.value > 0 ==> p >= 0 && d' == Raised(files, migs, d, p, |migs|))
    && (r.Ok? && r.value == 0 ==> d' == d)
  }

  /** The database is at the latest version, or at a listed one with all scripts still to run there. */
  ghost predicate CanRunUp(files: Files, migs: seq<Migration>, version: nat) {
    var p := Position(migs, version);
    && migs != []
    && (version == migs[|migs| - 1].version || (p >= 0 && forall i :: p <= i < |migs| ==> migs[i].upFile in files))
  }

  lemma UpFailed(files: Files, migs: seq<Migration>, d: Database, p: int, k: int, d': Database)
    requires VersionsAscend(migs) && migs != [] && p == Position(migs, d.version) && UpTo(files, migs, d, p, k, d')
    ensures RanUp(files, migs, d, d', Err)
    ensures !(d'.version == migs[|migs| - 1].version || (0 <= k < |migs| && migs[k].upFile in files)) ==>
              !CanRunUp(files, migs, d.version)
  {
    var last := migs[|migs| - 1];
    if d.version == last.version > 0 {
      PositionIs(migs, d.version, |migs|);
    }
    if k == |migs| {
      assert d'.version == last.version;
    }
  }

  lemma UpSucceeded(files: Files, migs: seq<Migration>, d: Database, p: int, k: int, d': Database)
    requires VersionsAscend(migs) && migs != [] && p == Position(migs, d.version) && UpTo(files, migs, d, p, k, d')
    requires if migs[|migs| - 1].version > 0 then k == |migs| else d' == d
    ensures RanUp(files, migs, d, d', Ok(migs[|migs| - 1].version))
    ensures migs[|migs| - 1].version > 0 || d.version == 0 ==> CanRunUp(files, migs, d.version)
  {
  }

  /** Up over a database at a listed version, or an empty one: the remaining up scripts once each
      and in order; after a failure, some first part of them. An unlisted version fails without
      running anything. A list of nothing but version 0 runs nothing either. It ends however many
      calls of the driver fail, except where StuckAtZero holds: there only a failure can end it,
      and once none is left to come it goes round forever, which is where the model stops. */
  method Up(migs: seq<Migration>, files: Files, driver: Driver) returns (r: Outcome<nat>)
    requires VersionsAscend(migs)
    modifies driver
    ensures r.Forever? ==> StuckAtZero(files, migs, old(driver.db).version) && driver.faults == []
    ensures StuckAtZero(files, migs, old(driver.db).version) ==>
              && WentRound(files, migs, old(driver.db), driver.db)
              && (r.Forever? || r == Ended(Err))
              && (old(driver.faults) == [] ==> r.Forever?)
    ensures !StuckAtZero(files, migs, old(driver.db).version) ==>
              RanUp(files, migs, old(driver.db), driver.db, r.result)
    ensures old(driver.faults) == [] ==> driver.faults == []
    ensures old(driver.faults) == [] && !StuckAtZero(files, migs, old(driver.db).version) ==>
              (r.result.Ok? <==> CanRunUp(files, migs, old(driver.db).version))
  {
    ghost var d := driver.db;
    ghost var p := Position(migs, d.version);
    assert p >= 0 ==> d == Raised(files, migs, d, p, p);
    if |migs| == 0 {
      return Ended(Err);
    }
    var latest := migs[|migs| - 1];
    ghost var stuck, k := StuckAtZero(files, migs, d.version), p;
    assert stuck ==> d.scripts == d.scripts + Times(files[migs[0].upFile], 0);
    while true
      invariant if stuck then WentRound(files, migs, d, driver.db) else UpTo(files, migs, d, p, k, driver.db)
      invariant old(driver.faults) == [] ==> driver.faults == []
      decreases |driver.faults| + (if stuck then 0 else |migs| - k)
    {
      if StuckAtZero(files, migs, driver.db.version) && driver.faults == [] {
        return Forever;
      }
      ghost var before, failing := driver.db, |driver.faults|;
      var mig := StepUp(migs, files, driver);
      if mig.Err? {
        if !stuck {
          UpFailed(files, migs, d, p, k, driver.db);
        }
        return Ended(Err);
      }
      if stuck {
        RoundAndRound(files, migs, d, before, mig.value, driver.db, |driver.faults| < failing);
      } else {
        k := UpRound(files, migs, d, p, k, before, mig.value, driver.db, |driver.faults| < failing);
      }
      if mig.value.version == latest.version {
        UpSucceeded(files, migs, d, p, k, driver.db);
        return Ended(Ok(mig.value.version));
      }
    }
  }

  /** Running Up again on what a failed Up left behind ends where one uninterrupted run does. */
  lemma RerunEndsTheSame(files: Files, migs: seq<Migration>, d: Database, p: nat, d': Database)
    requires Numbered(migs) && At(migs, d.version, p) && Partway(files, migs, d, p, d')
    ensures Position(migs, d'.version) >= p
    ensures Raised(files, migs, d', Position(migs, d'.version), |migs|) == Raised(files, migs, d, p, |migs|)
  {
    var k :| p <= k <= |migs| && d' == Raised(files, migs, d, p, k);
    PositionIs(migs, d'.version, k);
    RaisedInStretches(files, migs, d, p, k, |migs|);
  }

  /** So does running it release by release, over a list that has meanwhile grown at its end. */
  lemma ReleasesEndTheSame(files: Files, migs: seq<Migration>, more: seq<Migration>, d: Database, p: nat)
    requires Numbered(migs + more) && Numbered(migs) && At(migs, d.version, p)
    ensures var d1 := Raised(files, migs, d, p, |migs|);
            && Position(migs + more, d1.version) == |migs|
            && Raised(files, migs + more, d1, |migs|, |migs + more|) == Raised(files, migs + more, d, p, |migs + more|)
  {
    var d1 := Raised(files, migs, d, p, |migs|);
    assert At(migs + more, d1.version, |migs|);
    PositionIs(migs + more, d1.version, |migs|);
    GrownListRaisesAlike(files, migs, more, d, p, |migs|);
    RaisedInStretches(files, migs + more, d, p, |migs|, |migs + more|);
  }

  // ----- Down -----

  method Curr(migs: seq<Migration>, driver: Driver) returns (r: Result<Migration>)
    modifies driver`faults
    ensures old(driver.faults) == [] ==> driver.faults == []
    ensures var p := Position(migs, driver.db.version);
            && (r.Ok? ==> p >= 0 && r.value == if p == 0 then EMPTY_MIGRATION else migs[p - 1])
            && (old(driver.faults) == [] && p >= 0 ==> r.Ok?)
  {
    var cvn := driver.Version();
    if cvn.Err? {
      return Err;
    }
    if cvn.value == 0 {
      return Ok(EMPTY_MIGRATION);
    }
    var i := FindVersionIndex(migs, cvn.value);
    if i == -1 {
      return Err;
    }
    return Ok(migs[i]);
  }

  method StepDown(migs: seq<Migration>, files: Files, driver: Driver) returns (r: Result<Migration>)
    modifies driver
    ensures old(driver.faults) == [] ==> driver.faults == []
    ensures r.Err? ==> driver.db == old(driver.db)
    ensures var p := Position(migs, old(driver.db).version);
            && (r.Ok? ==> p > 0 && r.value.version == VersionAt(migs, p - 1) && migs[p - 1].downFile in files
                          && driver.db == Lowered(files, migs, old(driver.db), p, p - 1))
            && (old(driver.faults) == [] ==> (r.Ok? <==> p > 0 && migs[p - 1].downFile in files))
  {
    ghost var p := Position(migs, driver.db.version);
    var curr := Curr(migs, driver);
    if curr.Err? || curr.value.version == 0 {
      return Err;
    }
    var prev := Prev(migs, curr.value.version);
    var target := if prev.Err? then EMPTY_MIGRATION else prev.value;
    if curr.value.downFile !in files {
      return Err;
    }
    var ok := driver.RunMigration(files[curr.value.downFile], target.version);
    if !ok {
      return Err;
    }
    assert DownScripts(files, migs, p, p - 1) == [files[migs[p - 1].downFile]] + DownScripts(files, migs, p - 1, p - 1);
    return Ok(target);
  }

  lemma {:induction false} DownScriptsConcat(files: Files, migs: seq<Migration>, i: nat, j: nat, k: nat)
    requires k <= j <= i <= |migs|
    ensures DownScripts(files, migs, i, k) == DownScripts(files, migs, i, j) + DownScripts(files, migs, j, k)
  {
    if i > j {
      DownScriptsConcat(files, migs, i - 1, j, k);
    }
  }

  lemma LoweredInStretches(files: Files, migs: seq<Migration>, d: Database, i: nat, j: nat, k: nat)
    requires k <= j <= i <= |migs|
    ensures Lowered(files, migs, Lowered(files, migs, d, i, j), j, k) == Lowered(files, migs, d, i, k)
  {
    DownScriptsConcat(files, migs, i, j, k);
    assert d.scripts + (DownScripts(files, migs, i, j) + DownScripts(files, migs, j, k)) ==
           d.scripts + DownScripts(files, migs, i, j) + DownScripts(files, migs, j, k);
  }

  ghost predicate PartwayDown(files: Files, migs: seq<Migration>, d: Database, p: nat, d': Database)
    requires p <= |migs|
  {
    exists k :: 0 <= k <= p && d' == Lowered(files, migs, d, p, k)
  }

  /** Where Down stops: before the first migration, but after one of version 0. */
  function Floor(migs: seq<Migration>): nat {
    if migs != [] && migs[0].version == 0 then 1 else 0
  }

  /** Where the loop of Down has got to: the down scripts of migs[k..p] have run. */
  ghost predicate DownTo(files: Files, migs: seq<Migration>, d: Database, p: int, k: int, d': Database) {
    && p <= |migs| && (p <= 0 ==> k == p) && (p > 0 ==> Floor(migs) < k <= p)
    && d' == (if p <= 0 then d else Lowered(files, migs, d, p, k))
    && Position(migs, d'.version) == k
    && (p > 0 ==> forall i :: k <= i < p ==> migs[i].downFile in files)
  }

  lemma DownRound(files: Files, migs: seq<Migration>, d: Database, p: nat, k: nat, d': Database, d'': Database)
    requires VersionsAscend(migs) && DownTo(files, migs, d, p, k, d') && 0 < k <= p
    requires d'' == Lowered(files, migs, d', k, k - 1) && migs[k - 1].downFile in files
    ensures d'' == Lowered(files, migs, d, p, k - 1)
    ensures if VersionAt(migs, k - 1) == 0 then k - 1 == Floor(migs) else DownTo(files, migs, d, p, k - 1, d'')
  {
    LoweredInStretches(files, migs, d, p, k, k - 1);
    if VersionAt(migs, k - 1) > 0 {
      PositionIs(migs, d''.version, k - 1);
    }
  }

  /** Down from a listed version: the down scripts of the migrations behind it, last first, to
      version 0; after a failure, some first part of them. An empty database is refused. */
  method Down(migs: seq<Migration>, files: Files, driver: Driver) returns (ok: bool)
    requires VersionsAscend(migs)
    modifies driver
    ensures var p := Position(migs, old(driver.db).version);
            && (p <= 0 ==> !ok && driver.db == old(driver.db))
            && (p > 0 ==> PartwayDown(files, migs, old(driver.db), p, driver.db))
            && (ok ==> Floor(migs) < p && driver.db == Lowered(files, migs, old(driver.db), p, Floor(migs))
                       && driver.db.version == 0)
    ensures var p := Position(migs, old(driver.db).version);
            old(driver.faults) == [] ==>
              (ok <==> p > 0 && forall i :: Floor(migs) <= i < p ==> migs[i].downFile in files)
  {
    ghost var d := driver.db;
    ghost var p := Position(migs, d.version);
    ghost var k := p;
    while true
      invariant DownTo(files, migs, d, p, k, driver.db)
      invariant old(driver.faults) == [] ==> driver.faults == []
      decreases k
    {
      ghost var before := driver.db;
      var mig := StepDown(migs, files, driver);
      if mig.Err? {
        return false;
      }
      DownRound(files, migs, d, p, k, before, driver.db);
      k := k - 1;
      if mig.value.version == 0 {
        return true;
      }
    }
  }

  // ----- Schemas -----

  /** The schema that running scripts leads to, exec being what one script does to a schema. */
  function Exec<S>(exec: (string, S) -> S, scripts: seq<string>, schema: S): S
    decreases |scripts|
  {
    if scripts == [] then schema else Exec(exec, scripts[1..], exec(scripts[0], schema))
  }

  lemma {:induction false} ExecConcat<S>(exec: (string, S) -> S, a: seq<string>, b: seq<string>, schema: S)
    ensures Exec(exec, a + b, schema) == Exec(exec, b, Exec(exec, a, schema))
    decreases |a|
  {
    if a == [] {
      assert a + b == b;
    } else {
      assert (a + b)[1..] == a[1..] + b;
      ExecConcat(exec, a[1..], b, exec(a[0], schema));
    }
  }

  ghost predicate DownInvertsUp<S(!new)>(exec: (string, S) -> S, files: Files, m: Migration) {
    forall schema: S :: exec(Script(files, m.downFile), exec(Script(files, m.upFile), schema)) == schema
  }

  lemma {:induction false} DownsUndoUps<S(!new)>(exec: (string, S) -> S, files: Files, migs: seq<Migration>,
                                                 i: nat, schema: S)
    requires i <= |migs|
    requires forall m :: m in migs ==> DownInvertsUp(exec, files, m)
    ensures Exec(exec, DownScripts(files, migs, i, 0), Exec(exec, UpScripts(files, migs[..i]), schema)) == schema
    decreases i
  {
    if i == 0 {
    } else {
      var m := migs[i - 1];
      assert m in migs;
      assert migs[..i] == migs[..i - 1] + [m];
      UpScriptsConcat(files, migs[..i - 1], [m]);
      var before := Exec(exec, UpScripts(files, migs[..i - 1]), schema);
      ExecConcat(exec, UpScripts(files, migs[..i - 1]), UpScripts(files, [m]), schema);
      assert UpScripts(files, [m]) == [Script(files, m.upFile)];
      var raised := exec(Script(files, m.upFile), before);
      assert Exec(exec, [Script(files, m.upFile)], before) == raised;
      DownsUndoUps(exec, files, migs, i - 1, schema);
      var downs := DownScripts(files, migs, i, 0);
      assert downs[0] == Script(files, m.downFile) && downs[1..] == DownScripts(files, migs, i - 1, 0);
      assert exec(Script(files, m.downFile), raised) == before;
    }
  }

  /** If each down script inverts its up script, Down after Up on an empty database gives back
      its schema and version 0. */
  lemma DownAfterUpRestores<S(!new)>(exec: (string, S) -> S, files: Files, migs: seq<Migration>, d: Database, schema: S)
    requires Numbered(migs) && migs != [] && d.version == 0
    requires forall m :: m in migs ==> DownInvertsUp(exec, files, m)
    ensures var up := Raised(files, migs, d, 0, |migs|);
            var down := Lowered(files, migs, up, |migs|, 0);
            down.version == 0 && Exec(exec, down.scripts, schema) == Exec(exec, d.scripts, schema)
  {
    var up := Raised(files, migs, d, 0, |migs|);
    assert migs[0..|migs|] == migs == migs[..|migs|];
    ExecConcat(exec, d.scripts, UpScripts(files, migs), schema);
    ExecConcat(exec, up.scripts, DownScripts(files, migs, |migs|, 0), schema);
    DownsUndoUps(exec, files, migs, |migs|, Exec(exec, d.scripts, schema));
  }
}
