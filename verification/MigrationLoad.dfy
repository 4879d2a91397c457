/** Loading a list of migrations from the file names of a directory. */
module MigrationLoad {
  import opened Collections
  import opened Decimals
  import opened Migrations

  /** One visit of the directory walk. */
  datatype DirEntry = DirEntry(path: string, name: string, isDir: bool)

  /** What the file name pattern <digits>_<name>.<up|down>.sql captures. */
  datatype FileName = FileName(version: nat, name: string, up: bool)

  const MAX_INT: nat := 0x7FFF_FFFF_FFFF_FFFF

  function DigitRun(s: string): (n: nat)
    ensures n <= |s|
    ensures forall i :: 0 <= i < n ==> IsDigit(s[i])
  {
    if s != "" && IsDigit(s[0]) then 1 + DigitRun(s[1..]) else 0
  }

  predicate EndsWith(s: string, suffix: string) {
    |suffix| <= |s| && s[|s| - |suffix|..] == suffix
  }

  function Parse(fileName: string): Option<FileName> {
    var n := DigitRun(fileName);
    if n == 0 || n == |fileName| || fileName[n] != '_' then None
    else
      var rest := fileName[n + 1..];
      var up := EndsWith(rest, ".up.sql");
      if !up && !EndsWith(rest, ".down.sql") then None
      else
        var stem := rest[..|rest| - (if up then 7 else 9)];
        if '\n' in stem then None else Some(FileName(Number(fileName[..n]), stem, up))
  }

  /** The name is digits of that value, an underscore, the stem on one line, and the ending of the
      direction. */
  ghost predicate Spells(fileName: string, version: nat, stem: string, up: bool) {
    '\n' !in stem && exists digits :: SpelledWith(fileName, digits, version, stem, up)
  }

  ghost predicate SpelledWith(fileName: string, digits: string, version: nat, stem: string, up: bool) {
    && digits != "" && AllDigits(digits) && Number(digits) == version
    && fileName == digits + "_" + stem + (if up then ".up.sql" else ".down.sql")
  }

  lemma {:induction false} DigitRunIs(digits: string, rest: string)
    requires AllDigits(digits) && rest != "" && !IsDigit(rest[0])
    ensures DigitRun(digits + rest) == |digits|
  {
    if digits == "" {
      assert digits + rest == rest;
    } else {
      assert (digits + rest)[1..] == digits[1..] + rest;
      DigitRunIs(digits[1..], rest);
    }
  }

  lemma OneEnding(stem: string, up: bool)
    ensures var rest := stem + (if up then ".up.sql" else ".down.sql");
            && EndsWith(rest, ".up.sql") == up && (up || EndsWith(rest, ".down.sql"))
            && rest[..|rest| - (if up then 7 else 9)] == stem
  {
    var ending := if up then ".up.sql" else ".down.sql";
    var rest := stem + ending;
    assert rest[|rest| - |ending|..] == ending;
    if !up {
      assert rest[|rest| - 7..] == ending[2..];
      assert ending[2..][0] == 'o';
    }
  }

  lemma Parts(a: string, c: char, b: string)
    ensures var s := a + ([c] + b);
            s[..|a|] == a && s[|a|] == c && s[|a| + 1..] == b
  {
  }

  lemma SpelledIsParsed(digits: string, stem: string, up: bool)
    requires digits != "" && AllDigits(digits) && '\n' !in stem
    ensures Parse(digits + "_" + stem + (if up then ".up.sql" else ".down.sql")) ==
            Some(FileName(Number(digits), stem, up))
  {
    var ending := if up then ".up.sql" else ".down.sql";
    var rest := stem + ending;
    assert digits + "_" + stem + ending == digits + ("_" + rest);
    DigitRunIs(digits, "_" + rest);
    Parts(digits, '_', rest);
    OneEnding(stem, up);
  }

  lemma Rejoined(fileName: string, n: nat, stem: string, ending: string)
    requires n < |fileName| && fileName[n] == '_' && fileName[n + 1..] == stem + ending
    ensures fileName == fileName[..n] + "_" + stem + ending
  {
    var digits := fileName[..n];
    assert fileName == digits + "_" + fileName[n + 1..];
    assert digits + "_" + (stem + ending) == digits + "_" + stem + ending;
  }

  lemma ParsedIsSpelled(fileName: string)
    requires Parse(fileName).Some?
    ensures var f := Parse(fileName).value; Spells(fileName, f.version, f.name, f.up)
  {
    var f := Parse(fileName).value;
    var n := DigitRun(fileName);
    var ending := if f.up then ".up.sql" else ".down.sql";
    var rest := fileName[n + 1..];
    assert rest == rest[..|rest| - |ending|] + rest[|rest| - |ending|..] == f.name + ending;
    Rejoined(fileName, n, f.name, ending);
    assert SpelledWith(fileName, fileName[..n], f.version, f.name, f.up);
  }

  /** The pattern reads exactly the names that are spelled so, and from them what they say. */
  lemma ParseIff(fileName: string, version: nat, stem: string, up: bool)
    ensures Parse(fileName) == Some(FileName(version, stem, up)) <==> Spells(fileName, version, stem, up)
  {
    if Parse(fileName).Some? {
      ParsedIsSpelled(fileName);
    }
    if Spells(fileName, version, stem, up) {
      var digits :| SpelledWith(fileName, digits, version, stem, up);
      SpelledIsParsed(digits, stem, up);
    }
  }

  function ParseEntry(e: DirEntry): Option<FileName> {
    if e.isDir then None else Parse(e.name)
  }

  predicate Names(e: DirEntry, version: nat) {
    ParseEntry(e).Some? && ParseEntry(e).value.version == version
  }

  /** The file a version is given last in one direction; "" if in none. */
  function LastPath(entries: seq<DirEntry>, version: nat, up: bool): string {
    if entries == [] then ""
    else
      var e := entries[|entries| - 1];
      if Names(e, version) && ParseEntry(e).value.up == up then e.path
      else LastPath(entries[..|entries| - 1], version, up)
  }

  /** The name a version is given first. */
  function FirstName(entries: seq<DirEntry>, version: nat): string {
    if entries == [] then ""
    else if Names(entries[0], version) then ParseEntry(entries[0]).value.name
    else FirstName(entries[1..], version)
  }

  ghost predicate Named(entries: seq<DirEntry>, version: nat) {
    exists e :: e in entries && Names(e, version)
  }

  ghost predicate FromFiles(m: Migration, entries: seq<DirEntry>) {
    && Named(entries, m.version)
    && m.upFile == LastPath(entries, m.version, true)
    && m.downFile == LastPath(entries, m.version, false)
    && m.name == FirstName(entries, m.version)
  }

  ghost predicate Distinct(migs: seq<Migration>) {
    forall i, j :: 0 <= i < j < |migs| ==> migs[i].version != migs[j].version
  }

  ghost predicate Lists(migs: seq<Migration>, version: nat) {
    exists k :: 0 <= k < |migs| && migs[k].version == version
  }

  /** The list so far: one migration per version named so far, with its files and name. */
  ghost predicate Loaded(migs: seq<Migration>, entries: seq<DirEntry>) {
    && Distinct(migs)
    && (forall k :: 0 <= k < |migs| ==> FromFiles(migs[k], entries))
    && forall v: nat :: Named(entries, v) ==> Lists(migs, v)
  }

  // ----- Sorting -----

  function Insert(m: Migration, sorted: seq<Migration>): seq<Migration> {
    if sorted == [] || m.version < sorted[0].version then [m] + sorted
    else [sorted[0]] + Insert(m, sorted[1..])
  }

  /** slices.SortFunc by version; the versions being distinct, the result is the only sorted one. */
  function SortByVersion(migs: seq<Migration>): seq<Migration> {
    if migs == [] then [] else Insert(migs[0], SortByVersion(migs[1..]))
  }

  lemma {:induction false} InsertMember(m: Migration, sorted: seq<Migration>)
    ensures forall x :: x in Insert(m, sorted) <==> x == m || x in sorted
  {
    if sorted == [] || m.version < sorted[0].version {
    } else {
      InsertMember(m, sorted[1..]);
      assert sorted == [sorted[0]] + sorted[1..];
    }
  }

  lemma {:induction false} InsertAscends(m: Migration, sorted: seq<Migration>)
    requires VersionsAscend(sorted) && forall x :: x in sorted ==> x.version != m.version
    ensures VersionsAscend(Insert(m, sorted))
  {
    if sorted == [] || m.version < sorted[0].version {
    } else {
      var head, tail := sorted[0], sorted[1..];
      assert forall x :: x in tail ==> x in sorted;
      InsertAscends(m, tail);
      InsertMember(m, tail);
      var rest := Insert(m, tail);
      assert head in sorted;
      forall i | 0 <= i < |rest|
        ensures head.version < rest[i].version
      {
        assert rest[i] in rest;
        if rest[i] != m {
          var j :| 0 <= j < |tail| && tail[j] == rest[i];
          assert sorted[j + 1] == rest[i];
        }
      }
    }
  }

  lemma {:induction false} SortedAscends(migs: seq<Migration>)
    requires Distinct(migs)
    ensures VersionsAscend(SortByVersion(migs))
    ensures forall x :: x in SortByVersion(migs) <==> x in migs
  {
    if migs != [] {
      var tail := migs[1..];
      assert migs == [migs[0]] + tail;
      SortedAscends(tail);
      InsertMember(migs[0], SortByVersion(tail));
      InsertAscends(migs[0], SortByVersion(tail));
    }
  }

  // ----- One more file -----

  lemma {:induction false} FirstNameAppend(entries: seq<DirEntry>, e: DirEntry, version: nat)
    ensures FirstName(entries + [e], version) ==
            if Named(entries, version) then FirstName(entries, version)
            else if Names(e, version) then ParseEntry(e).value.name else ""
  {
    var all := entries + [e];
    if entries == [] {
      assert all == [e] && all[1..] == [];
    } else {
      assert all[1..] == entries[1..] + [e] && all[0] == entries[0];
      assert entries == [entries[0]] + entries[1..];
      FirstNameAppend(entries[1..], e, version);
    }
  }

  lemma AppendedEntry(entries: seq<DirEntry>, e: DirEntry, version: nat)
    ensures Named(entries + [e], version) <==> Named(entries, version) || Names(e, version)
    ensures forall up :: LastPath(entries + [e], version, up) ==
                         if Names(e, version) && ParseEntry(e).value.up == up then e.path
                         else LastPath(entries, version, up)
    ensures FirstName(entries + [e], version) ==
            if Named(entries, version) then FirstName(entries, version)
            else if Names(e, version) then ParseEntry(e).value.name else ""
  {
    FirstNameAppend(entries, e, version);
    var all := entries + [e];
    assert all[..|all| - 1] == entries;
    if Names(e, version) {
      assert e in all;
    }
  }

  lemma {:induction false} NoPathIfNotNamed(entries: seq<DirEntry>, version: nat, up: bool)
    requires !Named(entries, version)
    ensures LastPath(entries, version, up) == ""
  {
    if entries != [] {
      var e := entries[|entries| - 1];
      assert e in entries;
      NoPathIfNotNamed(entries[..|entries| - 1], version, up);
    }
  }

  /** Recording a file in the list, as Load does for each match. */
  function Recorded(migs: seq<Migration>, e: DirEntry, f: FileName, index: int): seq<Migration>
    requires -1 <= index < |migs|
  {
    var m := if index == -1 then Migration(f.version, "", "", f.name) else migs[index];
    var m' := if f.up then m.(upFile := e.path) else m.(downFile := e.path);
    if index == -1 then migs + [m'] else migs[index := m']
  }

  /** index is where FindVersionIndex finds the version of f. */
  ghost predicate FoundAt(migs: seq<Migration>, f: FileName, index: int) {
    && -1 <= index < |migs|
    && (index >= 0 ==> migs[index].version == f.version)
    && (index == -1 ==> forall k :: 0 <= k < |migs| ==> migs[k].version != f.version)
  }

  lemma RecordedOther(entries: seq<DirEntry>, e: DirEntry, m: Migration)
    requires FromFiles(m, entries) && !Names(e, m.version)
    ensures FromFiles(m, entries + [e])
  {
    AppendedEntry(entries, e, m.version);
  }

  lemma RecordedHere(migs: seq<Migration>, entries: seq<DirEntry>, e: DirEntry, f: FileName, index: int)
    requires Loaded(migs, entries) && ParseEntry(e) == Some(f) && FoundAt(migs, f, index)
    ensures FromFiles(Recorded(migs, e, f, index)[if index == -1 then |migs| else index], entries + [e])
  {
    AppendedEntry(entries, e, f.version);
    if index == -1 {
      assert !Named(entries, f.version);
      NoPathIfNotNamed(entries, f.version, true);
      NoPathIfNotNamed(entries, f.version, false);
    } else {
      assert FromFiles(migs[index], entries);
    }
  }

  lemma RecordedFromFiles(migs: seq<Migration>, entries: seq<DirEntry>, e: DirEntry, f: FileName, index: int, k: nat)
    requires Loaded(migs, entries) && ParseEntry(e) == Some(f) && FoundAt(migs, f, index)
    requires k < |Recorded(migs, e, f, index)|
    ensures FromFiles(Recorded(migs, e, f, index)[k], entries + [e])
  {
    if k == (if index == -1 then |migs| else index) {
      RecordedHere(migs, entries, e, f, index);
    } else {
      assert Recorded(migs, e, f, index)[k] == migs[k] && FromFiles(migs[k], entries);
      assert index >= 0 ==> migs[k].version != migs[index].version;
      RecordedOther(entries, e, migs[k]);
    }
  }

  lemma RecordedLists(migs: seq<Migration>, e: DirEntry, f: FileName, index: int, v: nat)
    requires FoundAt(migs, f, index)
    ensures Lists(Recorded(migs, e, f, index), v) <==> Lists(migs, v) || v == f.version
  {
    var migs' := Recorded(migs, e, f, index);
    var here := if index == -1 then |migs| else index;
    assert migs'[here].version == f.version;
    forall k | 0 <= k < |migs|
      ensures migs'[k].version == migs[k].version
    {
    }
  }

  lemma RecordedIsLoaded(migs: seq<Migration>, entries: seq<DirEntry>, e: DirEntry, f: FileName, index: int)
    requires Loaded(migs, entries) && ParseEntry(e) == Some(f) && FoundAt(migs, f, index)
    ensures Loaded(Recorded(migs, e, f, index), entries + [e])
  {
    var migs' := Recorded(migs, e, f, index);
    forall k | 0 <= k < |migs'|
      ensures FromFiles(migs'[k], entries + [e])
    {
      RecordedFromFiles(migs, entries, e, f, index, k);
    }
    forall v: nat | Named(entries + [e], v)
      ensures Lists(migs', v)
    {
      AppendedEntry(entries, e, v);
      RecordedLists(migs, e, f, index, v);
    }
    RecordedDistinct(migs, e, f, index);
  }

  lemma RecordedDistinct(migs: seq<Migration>, e: DirEntry, f: FileName, index: int)
    requires Distinct(migs) && FoundAt(migs, f, index)
    ensures Distinct(Recorded(migs, e, f, index))
  {
  }

  lemma SkippedIsLoaded(migs: seq<Migration>, entries: seq<DirEntry>, e: DirEntry)
    requires Loaded(migs, entries) && ParseEntry(e) == None
    ensures Loaded(migs, entries + [e])
  {
    forall v: nat
      ensures Named(entries + [e], v) <==> Named(entries, v)
    {
      AppendedEntry(entries, e, v);
    }
    forall k | 0 <= k < |migs|
      ensures FromFiles(migs[k], entries + [e])
    {
      AppendedEntry(entries, e, migs[k].version);
    }
  }

  /** The entry is a file, and its name says so. */
  ghost predicate IsFile(e: DirEntry, version: nat, stem: string, up: bool) {
    !e.isDir && Spells(e.name, version, stem, up)
  }

  ghost predicate IsFileOf(e: DirEntry, version: nat, up: bool) {
    exists stem :: IsFile(e, version, stem, up)
  }

  /** The number does not fit an int. */
  ghost predicate TooLarge(e: DirEntry) {
    exists v: nat, up :: IsFileOf(e, v, up) && v > MAX_INT
  }

  lemma EntryIff(e: DirEntry, version: nat, up: bool)
    ensures IsFileOf(e, version, up) <==> Names(e, version) && ParseEntry(e).value.up == up
    ensures Names(e, version) ==> IsFile(e, version, ParseEntry(e).value.name, ParseEntry(e).value.up)
  {
    if stem :| IsFile(e, version, stem, up) {
      ParseIff(e.name, version, stem, up);
    }
    if Names(e, version) {
      ParsedIsSpelled(e.name);
      assert IsFile(e, version, ParseEntry(e).value.name, ParseEntry(e).value.up);
    }
  }

  lemma TooLargeIff(e: DirEntry)
    ensures TooLarge(e) <==> ParseEntry(e).Some? && ParseEntry(e).value.version > MAX_INT
  {
    if v: nat, up :| IsFileOf(e, v, up) && v > MAX_INT {
      EntryIff(e, v, up);
    }
    if ParseEntry(e).Some? {
      EntryIff(e, ParseEntry(e).value.version, ParseEntry(e).value.up);
    }
  }

  /** One call of the walk function. */
  method Visit(migs: seq<Migration>, ghost seen: seq<DirEntry>, e: DirEntry) returns (r: Result<seq<Migration>>)
    requires Loaded(migs, seen)
    ensures r.Err? <==> TooLarge(e)
    ensures r.Ok? ==> Loaded(r.value, seen + [e])
  {
    var matches := ParseEntry(e);
    TooLargeIff(e);
    if matches.None? {
      SkippedIsLoaded(migs, seen, e);
      return Ok(migs);
    }
    var f := matches.value;
    if f.version > MAX_INT {
      return Err;
    }
    var index := FindVersionIndex(migs, f.version);
    RecordedIsLoaded(migs, seen, e, f, index);
    return Ok(Recorded(migs, e, f, index));
  }

  /** The loaded list in the order of versions. */
  lemma SortedIsLoaded(migs: seq<Migration>, entries: seq<DirEntry>)
    requires Loaded(migs, entries)
    ensures VersionsAscend(SortByVersion(migs))
    ensures forall m :: m in SortByVersion(migs) ==> FromFiles(m, entries)
    ensures forall v: nat :: Named(entries, v) ==> exists m :: m in SortByVersion(migs) && m.version == v
  {
    SortedAscends(migs);
    forall v: nat | Named(entries, v)
      ensures exists m :: m in SortByVersion(migs) && m.version == v
    {
      var k :| 0 <= k < |migs| && migs[k].version == v;
      assert migs[k] in SortByVersion(migs);
    }
  }

  // ----- What that says about the files -----

  /** The path is that of the last of the files of the version in that direction; "" if there is
      none. */
  ghost predicate PathOf(entries: seq<DirEntry>, version: nat, up: bool, path: string) {
    || (path == "" && forall e :: e in entries ==> !IsFileOf(e, version, up))
    || exists i :: LastFile(entries, version, up, i) && path == entries[i].path
  }

  ghost predicate LastFile(entries: seq<DirEntry>, version: nat, up: bool, i: int) {
    && 0 <= i < |entries| && IsFileOf(entries[i], version, up)
    && forall j :: i < j < |entries| ==> !IsFileOf(entries[j], version, up)
  }

  /** The name is that of the first of its files in either direction. */
  ghost predicate NameOf(entries: seq<DirEntry>, version: nat, name: string) {
    exists i :: FirstFile(entries, version, name, i)
  }

  ghost predicate FirstFile(entries: seq<DirEntry>, version: nat, name: string, i: int) {
    && 0 <= i < |entries| && (IsFile(entries[i], version, name, true) || IsFile(entries[i], version, name, false))
    && forall j :: 0 <= j < i ==> !IsFileOf(entries[j], version, true) && !IsFileOf(entries[j], version, false)
  }

  lemma {:induction false} LastPathIs(entries: seq<DirEntry>, version: nat, up: bool)
    ensures PathOf(entries, version, up, LastPath(entries, version, up))
  {
    if entries != [] {
      var n := |entries| - 1;
      var before, e := entries[..n], entries[n];
      assert entries == before + [e];
      EntryIff(e, version, up);
      if IsFileOf(e, version, up) {
        assert LastFile(entries, version, up, n);
      } else {
        LastPathIs(before, version, up);
        if i :| LastFile(before, version, up, i) && LastPath(before, version, up) == before[i].path {
          assert LastFile(entries, version, up, i);
        }
      }
    }
  }

  lemma {:induction false} FirstNameIs(entries: seq<DirEntry>, version: nat)
    requires Named(entries, version)
    ensures NameOf(entries, version, FirstName(entries, version))
  {
    var e := entries[0];
    EntryIff(e, version, true);
    EntryIff(e, version, false);
    if Names(e, version) {
      assert FirstFile(entries, version, FirstName(entries, version), 0);
    } else {
      var rest := entries[1..];
      assert entries == [e] + rest;
      FirstNameIs(rest, version);
      var i :| FirstFile(rest, version, FirstName(rest, version), i);
      LaterFile(e, rest, version, FirstName(rest, version), i);
    }
  }

  lemma LaterFile(e: DirEntry, rest: seq<DirEntry>, version: nat, name: string, i: int)
    requires FirstFile(rest, version, name, i) && !IsFileOf(e, version, true) && !IsFileOf(e, version, false)
    ensures FirstFile([e] + rest, version, name, i + 1)
  {
  }

  lemma FilesMean(m: Migration, entries: seq<DirEntry>)
    requires FromFiles(m, entries)
    ensures PathOf(entries, m.version, true, m.upFile) && PathOf(entries, m.version, false, m.downFile)
    ensures NameOf(entries, m.version, m.name)
  {
    LastPathIs(entries, m.version, true);
    LastPathIs(entries, m.version, false);
    FirstNameIs(entries, m.version);
  }

  /** Each migration has the paths of its files and the name of the first, and every file has a
      migration. */
  ghost predicate LoadedFrom(migs: seq<Migration>, entries: seq<DirEntry>) {
    && (forall m :: m in migs ==>
                      && PathOf(entries, m.version, true, m.upFile)
                      && PathOf(entries, m.version, false, m.downFile)
                      && NameOf(entries, m.version, m.name))
    && forall e, v: nat, up :: e in entries && IsFileOf(e, v, up) ==> exists m :: m in migs && m.version == v
  }

  lemma LoadMeans(migs: seq<Migration>, entries: seq<DirEntry>)
    requires forall m :: m in migs ==> FromFiles(m, entries)
    requires forall v: nat :: Named(entries, v) ==> exists m :: m in migs && m.version == v
    ensures LoadedFrom(migs, entries)
  {
    forall m | m in migs
      ensures PathOf(entries, m.version, true, m.upFile) && PathOf(entries, m.version, false, m.downFile)
      ensures NameOf(entries, m.version, m.name)
    {
      FilesMean(m, entries);
    }
    forall e, v: nat, up | e in entries && IsFileOf(e, v, up)
      ensures Named(entries, v)
    {
      EntryIff(e, v, up);
    }
  }

  /** Strictly ascending versions, exactly those the files name, each with its own files. The
      walk fails on a number too large for an int. */
  method Load(entries: seq<DirEntry>) returns (r: Result<seq<Migration>>)
    ensures r.Err? <==> exists e :: e in entries && TooLarge(e)
    ensures r.Ok? ==>
              && VersionsAscend(r.value)
              && (forall m :: m in r.value ==> FromFiles(m, entries))
              && (forall v: nat :: Named(entries, v) ==> exists m :: m in r.value && m.version == v)
    ensures r.Ok? ==> LoadedFrom(r.value, entries)
  {
    var migs: seq<Migration> := [];
    for k := 0 to |entries|
      invariant Loaded(migs, entries[..k])
      invariant forall i :: 0 <= i < k ==> !TooLarge(entries[i])
    {
      assert entries[..k + 1] == entries[..k] + [entries[k]];
      var visited := Visit(migs, entries[..k], entries[k]);
      if visited.Err? {
        return Err;
      }
      migs := visited.value;
    }
    assert entries[..|entries|] == entries;
    SortedIsLoaded(migs, entries);
    LoadMeans(SortByVersion(migs), entries);
    return Ok(SortByVersion(migs));
  }
}
