# Communis: a verified model

Communis is a multi-user notes server. Every user's notes live in one SQLite file; an index
database lists the users and records the schema version of each file. This project models the
parts of the server that carry invariants and proves them in Dafny:

- **The notes store and its full-text index** (`NotesTables`, `NotesViews`, `NotesIndex`,
  `NotesOps`, `NotesStore`, `NotesTransactions`, `NotesCoverage`, `NotesSearch`, `NotesEffects`,
  `NotesReading`, `NotesViewEquivalence`, `NotesFirstFill`, `NotesUpgrades`, `NotesStatements`).
  The tables are maps and sets with their keys and foreign keys, the view is a relational
  expression over table scans, and the index is a set of (rowid, column, term) that each write
  keeps in step by deleting the old text and inserting the new. `Store` and `Tx` run the statements
  of each Go method inside a transaction in which any statement can fail; what a method leaves
  behind is proved to be the operation described in `NotesOps`, or nothing. Its contract also says
  it in terms of the tables alone: the rows and links afterwards, when it succeeds, and what a
  search then finds.
- **The connection manager** (`ConnCache`, `ConnLease`, `ConnActor`, `ConnActorRuns`,
  `ConnReplies`, `ConnRunLeases`, `ConnScenario`, `ConnWorker`): the cache of open databases as the
  worker's methods change it, and the actor around it as a step system of clients, worker, poller,
  channel close and clock, with what that system can do as well as what it keeps.
- **Migrations** (`Migrations`, `MigrationLoad`, `Upgrades`, `UserDatabases`): stepping up and down
  a sorted list with every driver call able to fail, loading the list from file names, and the version
  that is recorded both in the file and in the index database.
- **The markdown editor** (`MarkdownText`, `UndoHistory`): text insertions around the selection
  and the bounded undo history.
- **Smaller pieces**: `Slug` and `SlugTitles`, `Pagination`, `NoteForm`, `Decimals`.

Conventions. `SplitsAtSpaces` is all that is assumed of the tokenizer; `WordsIsATokenizer` shows
that it can be met. A `Scan` fixes the order in which a query meets the rows of a table, and
theorems quantify over it. Failures come from parameters: a set of failing statement numbers
(`faults: set<nat>`), a list of failing driver calls (`faults: seq<bool>`), the connections whose
Close reports an error (`shut`). Ids are natural numbers; the handlers refuse ids below 1. Where
the source would go round a loop forever, the model returns `Forever`.

Five statements one would expect are false of the code as it stands; each has its input and the
exact condition under which it holds.

- The index keeps agreeing with the view. `DeleteTag` re-inserts through links that its own delete
  has cascaded away (data-store/sqlite.go:788-793), so it drops the carriers of the tag from the
  index: `DeleteTagExactEffect`, `DeleteTagAgreesIff` and `DeleteTagLosesANote` say exactly what
  is lost and when, `RecordingIdsKeepsAgreement` that remembering the ids first would repair it.
- A connection is open when it is handed out. After a Close that fails, the entry stays cached and
  is handed out shut (`FailedCloseHandsOutClosed`); `HandedOutOpenIff` says that this is the only
  way: a handed-out connection is open if and only if no earlier failed Close shut that entry.
- Every selected line gets its marker. A selection that starts on the first line of a text, or at a
  line end, leaves its first line unmarked (`EverySelectedLineMarkedIff`,
  `FirstLineGoesWithout`).
- An index statement names each document once. Over the views of 0004 and 0005 it names a note once
  per tag, so with two tags a 'delete' meets a document that is already gone (`TwoTagsNameTwice`);
  `NamesIndexedIff` is the exact condition, and over 0006 it holds in every run without DeleteTag
  (`RunsOver6NameIndexed`).
- `Up` ends. Over a list that goes on after a migration of version 0 it runs that migration on an
  empty database forever (`StuckExample`, `UpNeverEnds`); from everywhere else `Up` ends, and its
  contract says which way.

Undo is bounded by design: `EditorRefinesUnboundedUndo` says exactly how far the editor behaves as
an undo list without a bound.

## Model

| member | source | states |
|---|---|---|
| NotesTransactions.Store.CreateNote | data-store/sqlite.go:63-133 | succeeds (without outside faults) exactly when title, section, tag ids and reference ids satisfy the constraints, duplicates included; then the tables hold one more row with the values given and its links, a failure changes nothing; and from an agreeing index the new note is found by exactly the terms of its title, content and tags |
| NotesTransactions.Store.UpdateNote | data-store/sqlite.go:232-315 | the same for an update, which keeps the bookmark and leaves the links and references of other notes; a missing id is accepted only without tags and references and changes nothing |
| NotesTransactions.Store.DeleteNote | data-store/sqlite.go:317-336 | removes the note, its tag links, its references in both directions and exactly its index entries, or nothing |
| NotesTransactions.Store.SetNoteBookmark | data-store/sqlite.go:484-491 | stores the bookmark given in one row and changes nothing else |
| NotesTransactions.Store.CreateTag | data-store/sqlite.go:718-728 | adds the name under the next id exactly when no tag has it |
| NotesTransactions.Store.UpdateTag | data-store/sqlite.go:756-778 | after a success the tag has the new name and nothing else in the tables has changed, after a failure nothing has; it succeeds exactly when no other tag has the name; from an agreeing index a note with the tag is then found by exactly the terms of the new name, its title, its content and its other tags, any other note by what it was found by |
| NotesTransactions.Store.DeleteTag | data-store/sqlite.go:780-801 | removes the tag and its links and nothing else from the tables; from an agreeing index the notes that had it are then found by no term, the others by what they were found by |
| NotesTransactions.Store.CreateSection | data-store/sqlite.go:587-595 | adds the name under the next id exactly when no section has it |
| NotesTransactions.Store.UpdateSection | data-store/sqlite.go:623-634 | the section has the new name and nothing else has changed, exactly when no other has the name |
| NotesTransactions.Store.DeleteSection | data-store/sqlite.go:636-646 | removes the section and nothing else, exactly when no note is in it |
| NotesTransactions.Store.End | dbx/sqlitex/sqlite.go:362-401 | a failed body or commit leaves the database as it was; otherwise it becomes what the body made |
| NotesTransactions.Store.PerformAll | data-store/sqlite.go:63-801 | any calls of the write methods in any order, with any statements failing, are a run of events: the theorems about runs are about the methods |
| NotesStore.Tx.InsertLinks | data-store/sqlite.go:87-104 | a multi-row INSERT puts in all rows or none, and fails exactly on a duplicate or dangling row |
| NotesStore.Tx.SelectById | data-store/sqlite.go:17-24 | the rows selected by note id carry exactly that note's current text |
| NotesStore.Tx.SelectByTag | data-store/sqlite.go:25-32 | the json_each join selects exactly the documents of the notes carrying the tag |
| NotesOps.AcceptedKeepsWf | dbx/migrations/sql/notes-db/0001_bootstrap.up.sql:1-29 | every committed write keeps unique names and titles and all foreign keys |
| NotesOps.RunKeepsWf | dbx/migrations/sql/notes-db/0004_reference-notes.up.sql:1-7 | so does every run, failed transactions included |
| NotesTables.NextId | dbx/migrations/sql/notes-db/0001_bootstrap.up.sql:13-14 | a new rowid is unused and one above the largest in use, so the last id is reused after deletion |
| NotesCoverage.CommittedCovers | data-store/sqlite.go:17-32 | each operation turns the index of a covered set of notes into the index of the set it moves to |
| NotesCoverage.RunCovers | data-store/sqlite.go:63-336 | in every run the index is exactly the rebuilt index of the covered notes |
| NotesSearch.RunAgrees | data-store/sqlite.go:63-336 | every run without DeleteTag keeps the index equal to the one rebuilt from the view |
| NotesSearch.AgreementByColumn | data-store/sqlite.go:17-32 | in an agreeing index a note has an entry under title, content or tags exactly for the terms of its title, its content or the names of its tags |
| NotesSearch.SearchIsExactInEveryRun | data-store/sqlite.go:392-428 | after any such run a term finds exactly the notes whose title, content or tag names contain it |
| NotesSearch.NoStaleEntryInAnyRun | data-store/sqlite.go:780-801 | in all runs, DeleteTag included, every entry is text a current note has |
| NotesSearch.DeleteTagExactEffect | data-store/sqlite.go:780-801 | from agreement, DeleteTag leaves the rebuilt index of the notes that did not carry the tag |
| NotesSearch.DeleteTagAgreesIff | data-store/sqlite.go:788-793 | agreement survives if and only if every carrier has no term in title, content or other tags |
| NotesSearch.DeleteTagLosesANote | data-store/sqlite.go:788-793 | a concrete database where a titled note is no longer found |
| NotesEffects.RenameIsFound | data-store/sqlite.go:756-778 | where the index agrees with tables in which one tag has been renamed, a note with the tag is found by the terms of the new name and by its other text, and by a term of the old name only if other text of it has it |
| NotesSearch.RecordingIdsKeepsAgreement | data-store/sqlite.go:780-801 | the variant that records the affected ids before the delete keeps agreement |
| NotesSearch.UpdateNoteRepairs | data-store/sqlite.go:232-315 | after any run, saving a note makes it findable by all of its text |
| NotesSearch.AgreementMeansNothingMissing | data-store/sqlite.go:17-32 | the index agrees exactly when the uncovered notes have no terms |
| NotesReading.SearchNotes | data-store/sqlite.go:392-428 | lists each hit once, and exactly the notes of the view that have an index entry for the term |
| NotesReading.FindNoteByID | data-store/sqlite.go:149-195 | finds a row exactly for existing ids, and the row shows that note |
| NotesReading.SavedNoteReadsBack | data-store/sqlite.go:63-195 | a created or updated note is read back with exactly the title, content, section, tag set and reference set given |
| NotesReading.ReferencesAreMutual | dbx/migrations/sql/notes-db/0006_notes-details-v2.up.sql:15-16 | in every reachable state a lists b as reference iff b lists a as referenced-by, no deleted note or tag is listed and no link is lost |
| NotesReading.ViewsShowTheSameNotes | dbx/migrations/sql/notes-db/0006_notes-details-v2.up.sql:3-18 | under any two scan orders 0005 and 0006 show the same notes, once in 0006 and max(1, tags) times in 0005 |
| NotesViewEquivalence.GroupedIsCorrelated | dbx/migrations/sql/notes-db/0005_bookmarks.up.sql:21-45 | a join with a grouped subquery meets one group, the rows the correlated subquery selects |
| NotesViewEquivalence.View6OneRowPerNote | dbx/migrations/sql/notes-db/0006_notes-details-v2.up.sql:3-18 | exactly one row per note |
| NotesViewEquivalence.View5IsView6Repeated | dbx/migrations/sql/notes-db/0005_bookmarks.up.sql:4-45 | 0005 repeats each row of 0006 max(1, tags) times and has no other row, text and JSON array of the tags being read in one order |
| NotesIndex.TagTextTerms | dbx/migrations/sql/notes-db/0006_notes-details-v2.up.sql:14 | the concatenated tag names hold exactly the terms of the tags, in whatever order |
| NotesFirstFill.NonNullTags | dbx/migrations/sql/notes-db/0002_note-view.up.sql:10-15 | the NULL tag of an untagged note apart, the grouped view lists the tags the later views list |
| NotesFirstFill.EveryViewIndexesTheSame | dbx/migrations/sql/notes-db/0004_reference-notes.up.sql:10-51 | the views of 0002, 0004, 0005 and 0006 put the same terms into the index |
| NotesUpgrades.EveryGenerationSelectsTheSame | data-store/sqlite.go:17-32 | the index statements select the same set of entries from every generation of the view, repeated rows and the NULL tag of 0002 included |
| NotesUpgrades.UpgradesDoNotShow | dbx/migrations/sql/notes-db/0004_reference-notes.up.sql:10-51 | as a set of entries, the index after a run whose calls meet changing generations of the view, under changing scan orders, is that of the run over the last one |
| NotesUpgrades.FilledOnceAgreesForGood | dbx/migrations/sql/notes-db/0003_notes_fts.up.sql:1-5 | the index filled once stays the rebuilt index over any mixture of upgrades and writes without DeleteTag |
| NotesStatements.StatementsSelect | data-store/sqlite.go:17-32 | how often the statements name a document: once over 0006, max(1, tags) times over 0004 and 0005, by id and by tag, and nothing else |
| NotesStatements.NamesIndexedIff | data-store/sqlite.go:17-32 | an operation deletes only indexed documents and inserts only unindexed ones iff the notes with terms it takes out are covered and the view shows them, and those it puts in, once each |
| NotesStatements.RunsOver6NameIndexed | dbx/migrations/sql/notes-db/0006_notes-details-v2.up.sql:3-18 | in runs over 0006 without DeleteTag every call does so |
| NotesStatements.TwoTagsNameTwice | dbx/migrations/sql/notes-db/0005_bookmarks.up.sql:4-45 | a note with two tags for which it fails over 0005 and holds over 0006 |
| NotesFirstFill.FillIndex | dbx/migrations/sql/notes-db/0003_notes_fts.up.sql:3-5 | the first fill gives the rebuilt index, of any later view as well |
| ConnCache.Manager.GetNotesStore | user-store/sqliteconncache.go:261-279 | an error exactly if the key is not cached and no connection can be opened, and then nothing changes; else the cached connection or, on a miss, a new open one, cached until the time to live from now, all other entries as before |
| ConnCache.Manager.RemoveConnection | user-store/sqliteconncache.go:290-301 | closes and forgets an entry; exactly if Close fails the entry stays, shut, and the reply is an error |
| ConnCache.Manager.SweepExpired | user-store/sqliteconncache.go:432-445 | a successful sweep removes all that had expired when it began and keeps all not expired when it ended, in any visiting order; what is removed is closed; it fails only at a Close that fails |
| ConnCache.Manager.CreateDatabase | user-store/sqliteconncache.go:313-326 | done exactly if the database opens and all that follows succeeds; leaves the cache alone and its own connection open |
| ConnCache.Manager.RunMigrations | user-store/sqliteconncache.go:395-411 | leaves open one connection for each upgrade up to the first failing one, that one included unless its file cannot be opened; succeeds iff none fails |
| ConnCache.Manager.Serve | user-store/sqliteconncache.go:208-238 | the worker's switch: for each command what it may do to the cache, and which reply goes with which outcome of the calls to the outside |
| ConnWorker.ServeAll | user-store/sqliteconncache.go:208-238 | whatever commands the worker serves and whatever happens to them, what it has done is a history |
| ConnWorker.GetGives | user-store/sqliteconncache.go:261-279 | a served request for a connection is refused exactly if the key was not cached and none could be opened; else the caller has a connection that is cached and open for the time to live if it was new or open before, and one opened on a miss was open for nobody before |
| ConnWorker.CheckMigrations | user-store/sqliteconncache.go:356-413 | upgrading leaves open one connection for each database tried; on success every database is at the latest version and exactly one connection is left for each that was behind |
| ConnCache.Manager.CloseAll | user-store/sqliteconncache.go:415-430 | succeeds exactly if no Close of an open cached connection fails; then all cached connections are closed |
| ConnLease.ConnectionsAreConserved | user-store/sqliteconncache.go:261-326 | in every history with successful closes, open connections are the cached ones plus those opened by createDatabase and runMigrations |
| ConnLease.LeaseIsSafe | user-store/sqliteconncache.go:261-301 | a connection handed out at t stays cached and open through t+ttl unless its key is removed |
| ConnLease.HandedOutOpenIff | user-store/sqliteconncache.go:261-301 | what is handed out is open if and only if no earlier failed Close shut that key's entry |
| ConnLease.FailedCloseHandsOutClosed | user-store/sqliteconncache.go:290-301 | after a failed Close a closed connection is handed out |
| ConnActor.RunInv | user-store/sqliteconncache.go:144-240 | the invariant of clients, worker, poller, channel and log holds in every reachable state |
| ConnActorRuns.OneReplyFromASequentialHistory | chanutil/chanutil.go:13-58 | the log is a sequential history in which each call is at most once; an answer is the reply of the call's own entry, on its caller's channel, or EOF for a call that is not in the log |
| ConnReplies.EofIffNotAcceptedBeforeTheClose | chanutil/chanutil.go:21-45 | a call gets EOF if and only if it was not accepted before the close; an accepted one is only ever answered with its reply |
| ConnReplies.SendersAtTheCloseGetEof | chanutil/chanutil.go:21-45 | a sender blocked when the channel is closed, or arriving after that, gets EOF on its own channel |
| ConnReplies.EverybodyIsAnswered | chanutil/chanutil.go:13-58 | once the system is at rest after the close every call has its answer: the reply if accepted before the close, else EOF |
| ConnActorRuns.HistoryRespectsRealTime | user-store/sqliteconncache.go:208-238 | the receive order respects the real-time order of calls: the actor is linearizable |
| ConnActorRuns.NoDeadlock | chanutil/chanutil.go:21-45 | while any call or the shutdown is unfinished the system can move |
| ConnActorRuns.SystemDrains | user-store/sqliteconncache.go:144-168 | the system's own steps are bounded; when none is left every call has been answered, and after the close worker and poller have ended |
| ConnScenario.ClientIsServed | user-store/sqliteconncache.go:208-279 | from every reachable state with the channel open and the worker ready, any call of an idle client can be answered, a request for a connection with one cached for its time to live |
| ConnScenario.TimerSweeps | user-store/sqliteconncache.go:144-168 | from such a state the timer can fire at any later hour and make the poller sweep: what had expired by then is gone and closed, the rest is still cached |
| ConnScenario.CloseEndsThem | user-store/sqliteconncache.go:415-430 | from such a state a close can go through to the end: worker and poller ended, no cached connection open |
| ConnScenario.LateCallIsTurnedAway | chanutil/chanutil.go:21-45 | after the close any call of an idle client can come back with EOF and change nothing else |
| ConnScenario.AWholeDay | user-store/sqliteconncache.go:144-240 | a whole run: a client gets the first connection, the sweep closes it, the close ends worker and poller, and a late call gets EOF |
| ConnRunLeases.LeaseHoldsInRuns | user-store/sqliteconncache.go:208-301 | in every run of the actor, a connection handed out to a call made after clock reading t is cached and open in every later state before the close whose clock is at most t+ttl, unless its key was removed or its entry had been shut |
| ConnRunLeases.ConnectionsAreConservedInRuns | user-store/sqliteconncache.go:208-430 | in every run whose single closes succeed, the open connections are the cached ones and those opened on the side; after the close only the latter |
| Migrations.FindVersionIndex | dbx/migrations/migrations.go:35-42 | the first index with the version, -1 if there is none |
| Migrations.Next | dbx/migrations/migrations.go:118-129 | for any list, the migration after the current one, an error at the end or at an unlisted version |
| Migrations.Prev | dbx/migrations/migrations.go:109-116 | for any list, the migration before the current one, an error at the first, at an unlisted version and at the empty database |
| Migrations.IsLatest | dbx/migrations/migrations.go:281-294 | compares the version read with the last migration's; an error for an empty list |
| Migrations.Curr | dbx/migrations/migrations.go:131-147 | for any list, the migration the database is at, the empty one at version 0, an error if unlisted |
| Migrations.StepUp | dbx/migrations/migrations.go:180-215 | for any list, runs the next script or nothing; a failed second version read is swallowed and reported as the zero migration; undisturbed it succeeds iff the version is the last one or the next script is there |
| Migrations.Up | dbx/migrations/migrations.go:160-177 | runs the remaining up scripts once each in order and ends at the latest version, or some first part of them; nothing for an unlisted version; ends under any finite failures except where a migration of version 0 is stuck on an empty database; undisturbed it succeeds iff the database is at the latest version or at a listed one with all further scripts there |
| Migrations.UpNeverEnds | dbx/migrations/migrations.go:167-199 | on an empty database and a list that goes on after version 0, none of any number of undisturbed steps is the last: each runs the same script and leaves version 0 |
| Migrations.StuckExample | dbx/migrations/migrations.go:118-129 | a list of versions 0 and 1 and a step that runs its first script and stays at version 0 |
| Migrations.RaisedMeans | dbx/migrations/migrations.go:180-215 | what is run on the way up, script by script: the up file of each migration in the order of the list, and the version of the last one |
| Migrations.LoweredMeans | dbx/migrations/migrations.go:241-271 | what is run on the way down: the down files, last first, and the version before them |
| Migrations.RerunEndsTheSame | dbx/migrations/migrations.go:160-177 | Up after a failed Up ends where an uninterrupted Up does |
| Migrations.ReleasesEndTheSame | dbx/migrations/migrations.go:160-177 | Up release by release over a growing list ends where one Up does |
| Migrations.Driver.RunMigration | dbx/sqlitex/migrations.go:35-52 | script and version change together or not at all |
| Migrations.StepDown | dbx/migrations/migrations.go:241-271 | for any list, runs the current migration's down script and moves to the version before it, or changes nothing |
| Migrations.Down | dbx/migrations/migrations.go:226-238 | runs the down scripts in reverse order to version 0, where it stops even if a migration of version 0 is left, or some first part of them |
| Migrations.DownAfterUpRestores | dbx/migrations/migrations.go:160-238 | if each down script inverts its up script, Down after Up restores the schema |
| MigrationLoad.Load | dbx/migrations/migrations.go:44-91 | strictly ascending versions, exactly those the file names carry; the up file is the path of the last up file of the version, the down file that of its last down file, the name that of the first; an error exactly if a number is too large |
| MigrationLoad.SpelledIsParsed | dbx/migrations/migrations.go:17 | digits, an underscore, a stem on one line and .up.sql or .down.sql are read as the number, the stem and that direction |
| MigrationLoad.ParseIff | dbx/migrations/migrations.go:17 | and a name is read as such only if it is spelled so |
| Decimals.LeadingZero | dbx/migrations/migrations.go:57 | a number is read the same behind a zero, as in 0001 |
| UserDatabases.RunKeepsInv | user-store/sqlite.go:28-72 | in every run over releases, failures and restarts the recorded version is at most the file's own |
| UserDatabases.NewServerRunInv | user-store/sqliteconncache.go:356-413 | so in every run of a server that starts without users |
| UserDatabases.Manager.CreateUserAndDB | user-store/sqlite.go:105-134 | the user and his record at version 0 under an unused id, exactly if the name is free, or nothing |
| UserDatabases.Manager.MigrateFile | user-store/sqliteconncache.go:397-410 | the file moves up by some migrations, running none a second time, and only a file at the latest version is recorded so; all other files and records stay |
| UserDatabases.Manager.CreateDB | user-store/sqliteconncache.go:313-326 | the same for a new database; without a row nothing happens; undisturbed, with a row and readable scripts, it succeeds |
| UserDatabases.Manager.MigrateIndex | user-store/sqliteconncache.go:356-383 | success leaves the index database at its latest version |
| UserDatabases.Manager.RunMigrations | user-store/sqliteconncache.go:356-413 | success leaves index database, every record and every recorded file at the latest version; failure leaves each somewhere on the way |
| MarkdownText.WrappedIsUnique | web/assets/static/js/markdown-editor.js:154-178 | text and selection determine what is wrapped |
| MarkdownText.InsertWrap | web/assets/static/js/markdown-editor.js:154-178 | markers around the selection or the whole word under the cursor, which keeps its place; removable |
| MarkdownText.InsertLink | web/assets/static/js/markdown-editor.js:241-272 | link brackets around it, the cursor between the parentheses or the placeholder selected; removable |
| MarkdownText.InsertBeginningOfLine | web/assets/static/js/markdown-editor.js:181-238 | one marker at the line start, or one after each newline of the extended selection with the cursor at the end of the rewritten block: for a marker without a newline as many lines, the first as it was, the i-th behind the marker, and behind the number i and a dot if numbered |
| MarkdownText.ReplaceNewlines | web/assets/static/js/markdown-editor.js:217-232 | for a marker without a newline, rewrites the block line by line: the first as it was, the i-th behind the marker, and behind the number i and a dot if numbered; counts the newlines, and its charsInserted is the true growth |
| MarkdownText.LinesMean | web/assets/static/js/markdown-editor.js:217-232 | the lines of a text hold no newline and with newlines between them are the text |
| MarkdownText.StripRecovers | web/assets/static/js/markdown-editor.js:217-232 | a counter-driven strip recovers the block, multi-digit counters included |
| MarkdownText.MarkedLineByLine | web/assets/static/js/markdown-editor.js:217-232 | the lines are kept and numbered 1..k behind the newlines |
| MarkdownText.MarkedGrowth | web/assets/static/js/markdown-editor.js:217-234 | the growth is the sum of the marker lengths |
| MarkdownText.EverySelectedLineMarkedIff | web/assets/static/js/markdown-editor.js:205-232 | every line the selection touches gets a marker iff it does not start at a line end and a line ends before it |
| MarkdownText.FirstLineGoesWithout | web/assets/static/js/markdown-editor.js:205-232 | selecting the first line of a text inserts no marker |
| Decimals.DecimalReadsBack | web/assets/static/js/markdown-editor.js:223 | a counter is written in digits that read back as its number |
| Decimals.Samples | web/assets/static/js/markdown-editor.js:223 | and in the usual digits |
| MarkdownText.WordCharacters | web/assets/static/js/markdown-editor.js:4 | the characters of a word, by code |
| UndoHistory.Editor.UndoEntry | web/assets/static/js/markdown-editor.js:28-35 | moves back one entry and shows it with the cursor where it was, as far as the text reaches, if there is one |
| UndoHistory.Editor.RedoEntry | web/assets/static/js/markdown-editor.js:37-44 | moves forward one entry and shows it with the cursor where it was, as far as the text reaches, if there is one |
| UndoHistory.Editor.RestoreState | web/assets/static/js/markdown-editor.js:46-56 | shows the current entry with the cursor where it was, as far as the text reaches |
| UndoHistory.Editor.AddHistoryEntry | web/assets/static/js/markdown-editor.js:58-71 | cuts the redo tail, appends the text and keeps the last ten entries; nothing while undoing or redoing |
| UndoHistory.PerformAll | web/assets/static/js/markdown-editor.js:20-71 | an editor on which some calls have been made has the history of that run and shows its current entry |
| UndoHistory.EditorRefinesUnboundedUndo | web/assets/static/js/markdown-editor.js:20-71 | throughout a run the history is a plain undo list without its evicted entries, both at the same entry, if and only if no undo reaches for an evicted entry |
| UndoHistory.FirstLostUndo | web/assets/static/js/markdown-editor.js:28-35 | until the first such undo both show the same text; there the editor stays at its oldest entry and the list goes back one further |
| UndoHistory.UndoReachesBack | web/assets/static/js/markdown-editor.js:58-71 | the last ten texts are kept: undoing everything typed reaches the first text iff fewer than ten were typed after it |
| UndoHistory.UndosThenRedos | web/assets/static/js/markdown-editor.js:28-56 | k undos then k redos restore the history, and the text iff it had been recorded |
| UndoHistory.RedosThenUndos | web/assets/static/js/markdown-editor.js:28-56 | k redos then k undos restore the history and show its current entry |
| Slug.SlugifyGivesSlug | slug/slug.go:8-33 | non-empty, at most 100 of a-z, 0-9 and single interior dashes |
| Slug.SlugifyFixesExactlySlugs | slug/slug.go:8-33 | Slugify leaves a string alone iff it has that shape |
| Slug.SlugifyIsIdempotent | slug/slug.go:8-33 | Slugify of a slug is that slug |
| SlugTitles.SeparatorsBecomeDashes | slug/slug.go:11-18 | between two parts that each have a letter or digit a space, underscore or dash becomes one dash between their slugs, as long as that fits |
| SlugTitles.LongTitlesAreCut | slug/slug.go:22-26 | and what does not fit is cut to its first 100 characters without a dash at the end |
| SlugTitles.OthersVanish | slug/slug.go:14-15 | a character whose lower case is neither kept nor a separator makes no difference anywhere |
| SlugTitles.EdgesVanish | slug/slug.go:20 | nor does a part without letter or digit at either end |
| SlugTitles.RunsAreLowered | slug/slug.go:9 | a run of letters and digits gives its lower case, up to 100 characters |
| SlugTitles.UntitledIffNothingKept | slug/slug.go:28-30 | untitled stands for a title without letter or digit; any other slug begins with the first of them |
| Slug.RendersExactlyItsSlug | web/handlers/note.go:638-643 | a path renders the note iff it has the slug shape and slugs to what the title slugs to |
| Slug.RedirectsAtMostOnce | web/handlers/note.go:638-643 | the redirect target is a legal path segment that is not redirected again |
| Pagination.ListPage | data-store/sqlite.go:338-390 | a positive limit and offset are used as given, else the default and 0; the rows of the table from there, as many as the limit allows; HasMore iff rows remain, NextOffset behind the page |
| Pagination.FollowPages | data-store/sqlite.go:832-875 | following NextOffset terminates, all pages but the last are full, and they concatenate to the whole table in order |
| NoteForm.QueryTags | data-store/sqlite.go:877-919 | each stored tag asked for, once |
| NoteForm.SameCountMeansAllStored | web/handlers/note.go:212 | equal counts mean every submitted id is stored |
| NoteForm.ValidateTags | web/handlers/note.go:202-222 | a tag error iff some submitted id does not exist, duplicates or not |

## Left out

- HTTP handlers, templates, sessions, logging, configuration, bcrypt and the CLI: plumbing and library wrappers without invariants of their own.
- SQLite internals: storage, locking, PRAGMAs, ranking, highlight and snippet text, `LIMIT 50`. A rollback that itself fails is taken to have rolled back.
- Timestamps; the clock of the cache is an abstract monotone reading.
- The largest rowid: SQLite picks a random free id above it, here ids are unbounded.
- The column `notes.content` can be NULL in the schema; no write of the store makes it so.
- NotesReading.SearchNotes: does not model phrases of several terms; a query is one term.
- FTS5 'delete' is set difference: positions, term counts and the document size table are not modelled, nor what FTS5 makes of a 'delete' or insert that `NamesIndexedIff` rules out.
- NoteForm.ValidateTags: does not model the checks of title, section and id, which are single lookups.
- Migrations.Up: requires ascending versions, which `MigrationLoad.Load` gives.
- Migrations.Down: requires ascending versions, which `MigrationLoad.Load` gives.
- NotesUpgrades.EveryGenerationSelectsTheSame: compares sets of entries; how often a document is named is in `NotesStatements.StatementsSelect`.
- NotesUpgrades.UpgradesDoNotShow: the index is a set of entries without multiplicities; and the statements are those of this release, that the reference table exists only from 0004 and the bookmark column from 0005 on not being modelled.
- MigrationLoad.SortByVersion: stands for the library sort; the versions being distinct, its result is the only sorted one.
- The shipped down scripts as inverses of their up scripts: a hypothesis of `DownAfterUpRestores`.
- The width of `user_version`: versions are unbounded in the database.
- UserDatabases.RunKeepsInv: does not model the CLI commands that migrate a file without the record, nor the moment in deleting a user between removing the file and the rows; deletion is one step.
- ConnActor.RunInv: does not model `Stop` reading the connections map while the worker is inside a command, nor a `Stop` that gives up on a failed Close and leaves the channel open.
- The fairness of goroutine scheduling: `SystemDrains` bounds the system's own steps between two steps of the outside world.
- mdeInsertCodeBlock, whose forward scan compares with the length of a regular expression; the 500 ms save timer, of which only the entry it adds is modelled.
