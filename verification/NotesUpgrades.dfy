/** Writes before, between and after the migrations that replace the view: the index statements
    select from whatever generation is installed, and every generation selects the same entries. */
module NotesUpgrades {
  import opened Collections
  import opened NotesTables
  import opened NotesViews
  import opened NotesIndex
  import opened NotesOps
  import opened NotesCoverage
  import opened NotesStore
  import opened NotesFirstFill
  import NotesSearch

  /** The view in place after migration 0002, 0004, 0005 or 0006. */
  datatype Generation = Gen2 | Gen4 | Gen5 | Gen6

  // ----- Selecting from the view of 0002 -----

  function WithId2(rows: seq<Details2>, id: Id): seq<Details2> {
    if rows == [] then []
    else if rows[0].id == id then [rows[0]] + WithId2(rows[1..], id)
    else WithId2(rows[1..], id)
  }

  /** json_each also meets the object an untagged note has for its NULL tag; its id equals none. */
  function TagHits2(items: seq<Option<Item>>, tag: Id): nat {
    if items == [] then 0
    else (if items[0].Some? && items[0].value.id == tag then 1 else 0) + TagHits2(items[1..], tag)
  }

  function JoinedWith2(rows: seq<Details2>, tag: Id): seq<Details2> {
    if rows == [] then []
    else NotesViewEquivalence.Repeat(rows[0], TagHits2(rows[0].tagsJson, tag)) + JoinedWith2(rows[1..], tag)
  }

  lemma {:induction false} WithId2Member(rows: seq<Details2>, id: Id, row: Details2)
    ensures row in WithId2(rows, id) <==> row in rows && row.id == id
  {
    if rows != [] {
      WithId2Member(rows[1..], id, row);
      assert rows == [rows[0]] + rows[1..];
    }
  }

  lemma {:induction false} JoinedWith2Member(rows: seq<Details2>, tag: Id, row: Details2)
    ensures row in JoinedWith2(rows, tag) <==> row in rows && TagHits2(row.tagsJson, tag) > 0
  {
    if rows != [] {
      JoinedWith2Member(rows[1..], tag, row);
      assert rows == [rows[0]] + rows[1..];
      var hits := TagHits2(rows[0].tagsJson, tag);
      if hits > 0 {
        RepeatMember(rows[0], hits, row);
      }
    }
  }

  lemma {:induction false} NullHitsNothing(items: seq<Option<Item>>, tag: Id)
    ensures TagHits2(items, tag) == TagHits(NonNull(items), tag)
  {
    if items != [] {
      NullHitsNothing(items[1..], tag);
      if items[0].Some? {
        assert NonNull(items)[1..] == NonNull(items[1..]);
      }
    }
  }

  lemma Selected2Docs(tok: Tokenizer, t: Tables, s: Scan, sel: seq<Details2>, ids: set<Id>)
    requires SplitsAtSpaces(tok) && ScanOf(s, t)
    requires forall row :: row in sel <==>
                             row.id in ids && row.id in t.notes && row == Row2(t, GroupOfNote(t, s, row.id))
    ensures FilledFrom2(tok, sel) == IndexOf(tok, t, ids)
  {
    forall e: Entry
      ensures e in FilledFrom2(tok, sel) <==> e in IndexOf(tok, t, ids)
    {
      if e in FilledFrom2(tok, sel) {
        var row :| row in sel && e in RowEntries2(tok, row);
        RowEntries2AreNoteEntries(tok, t, s, row.id);
      }
      if e in IndexOf(tok, t, ids) {
        var n :| n in ids && e in NoteEntries(tok, t, n);
        RowEntries2AreNoteEntries(tok, t, s, n);
        assert Row2(t, GroupOfNote(t, s, n)) in sel;
      }
    }
  }

  lemma SelectedById2(tok: Tokenizer, t: Tables, s: Scan, id: Id)
    requires SplitsAtSpaces(tok) && ScanOf(s, t)
    ensures FilledFrom2(tok, WithId2(View2(t, s), id)) == IndexOf(tok, t, {id})
  {
    var sel := WithId2(View2(t, s), id);
    forall row: Details2
      ensures row in sel <==> row.id in {id} && row.id in t.notes && row == Row2(t, GroupOfNote(t, s, row.id))
    {
      WithId2Member(View2(t, s), id, row);
      View2Member(t, s, row);
    }
    Selected2Docs(tok, t, s, sel, {id});
  }

  lemma SelectedByTag2(tok: Tokenizer, t: Tables, s: Scan, tag: Id)
    requires SplitsAtSpaces(tok) && Wf(t) && ScanOf(s, t)
    ensures FilledFrom2(tok, JoinedWith2(View2(t, s), tag)) == IndexOf(tok, t, Carriers(t, tag))
  {
    var sel := JoinedWith2(View2(t, s), tag);
    forall row: Details2
      ensures row in sel <==>
              row.id in Carriers(t, tag) && row.id in t.notes && row == Row2(t, GroupOfNote(t, s, row.id))
    {
      JoinedWith2Member(View2(t, s), tag, row);
      View2Member(t, s, row);
      NullHitsNothing(GroupOfNote(t, s, row.id).vals, tag);
      NonNullTags(t, s.notesTags, row.id);
      TagListedIffCarrier(t, s, row.id, tag);
    }
    Selected2Docs(tok, t, s, sel, Carriers(t, tag));
  }

  // ----- Selecting from any generation -----

  lemma JoinedShowsNotes(t: Tables, s: Scan, bm: bool)
    requires ScanOf(s, t)
    ensures ShowsNotes(JoinedRows(t, s, s.notes, bm), t, OneTagScan(s), bm)
  {
    forall row: Details
      ensures row in JoinedRows(t, s, s.notes, bm) <==>
              row.id in t.notes && row == CorrelatedRow(t, OneTagScan(s), row.id, bm)
    {
      JoinedRowsMember(t, s, s.notes, bm, row);
    }
  }

  /** The entries of the rows that WHERE id = ? selects. */
  ghost function ById(tok: Tokenizer, gen: Generation, t: Tables, s: Scan, id: Id): set<Entry>
    requires ScanOf(s, t)
  {
    match gen
    case Gen2 => FilledFrom2(tok, WithId2(View2(t, s), id))
    case Gen4 => FilledFrom(tok, WithId(View4(t, s), id))
    case Gen5 => FilledFrom(tok, WithId(View5(t, s), id))
    case Gen6 => FilledFrom(tok, WithId(View6(t, s), id))
  }

  /** The entries of the rows that the join with json_each on a tag id selects. */
  ghost function ByTag(tok: Tokenizer, gen: Generation, t: Tables, s: Scan, tag: Id): set<Entry>
    requires ScanOf(s, t)
  {
    match gen
    case Gen2 => FilledFrom2(tok, JoinedWith2(View2(t, s), tag))
    case Gen4 => FilledFrom(tok, JoinedWith(View4(t, s), tag))
    case Gen5 => FilledFrom(tok, JoinedWith(View5(t, s), tag))
    case Gen6 => FilledFrom(tok, JoinedWith(View6(t, s), tag))
  }

  /** Repeated rows and NULL tags included, every generation selects the documents of the one note
      and of exactly the carriers of the tag. */
  lemma EveryGenerationSelectsTheSame(tok: Tokenizer, gen: Generation, t: Tables, s: Scan, id: Id, tag: Id)
    requires SplitsAtSpaces(tok) && Wf(t) && ScanOf(s, t)
    ensures ById(tok, gen, t, s, id) == IndexOf(tok, t, {id})
    ensures ByTag(tok, gen, t, s, tag) == IndexOf(tok, t, Carriers(t, tag))
  {
    match gen
    case Gen2 =>
      SelectedById2(tok, t, s, id);
      SelectedByTag2(tok, t, s, tag);
    case Gen4 =>
      JoinedShowsNotes(t, s, false);
      SelectedById(tok, t, OneTagScan(s), false, View4(t, s), id);
      SelectedByTag(tok, t, OneTagScan(s), false, View4(t, s), tag);
    case Gen5 =>
      JoinedShowsNotes(t, s, true);
      SelectedById(tok, t, OneTagScan(s), true, View5(t, s), id);
      SelectedByTag(tok, t, OneTagScan(s), true, View5(t, s), tag);
    case Gen6 =>
      View6ShowsNotes(t, s);
      SelectedById(tok, t, s, true, View6(t, s), id);
      SelectedByTag(tok, t, s, true, View6(t, s), tag);
  }

  // ----- Runs over changing views -----

  /** A call, the generation of the view it meets, and the orders in which its two selections,
      before and after the change, scan the tables. */
  datatype Call = Call(ev: Event, gen: Generation, before: Scan, after: Scan)

  /** What the 'delete' statements select. */
  ghost function TakenOut(tok: Tokenizer, gen: Generation, op: Op, t: Tables, s: Scan): set<Entry>
    requires ScanOf(s, t)
  {
    match op
    case UpdateNote(id, _, _, _, _, _) => ById(tok, gen, t, s, id)
    case DeleteNote(id) => ById(tok, gen, t, s, id)
    case UpdateTag(id, _) => ByTag(tok, gen, t, s, id)
    case DeleteTag(id) => ByTag(tok, gen, t, s, id)
    case _ => {}
  }

  /** What the insert statements select, from the tables as the operation leaves them. */
  ghost function PutIn(tok: Tokenizer, gen: Generation, op: Op, t: Tables, s': Scan): set<Entry>
    requires ScanOf(s', Effect(op, t))
  {
    var t' := Effect(op, t);
    match op
    case CreateNote(_, _, _, _, _) => ById(tok, gen, t', s', NextId(t.notes.Keys))
    case UpdateNote(id, _, _, _, _, _) => ById(tok, gen, t', s', id)
    case UpdateTag(id, _) => ByTag(tok, gen, t', s', id)
    case DeleteTag(id) => ByTag(tok, gen, t', s', id)
    case _ => {}
  }

  ghost predicate Commits(db: Db, ev: Event) {
    !ev.failed && Accepts(ev.op, db.t)
  }

  ghost predicate Scans(db: Db, call: Call) {
    Commits(db, call.ev) ==> ScanOf(call.before, db.t) && ScanOf(call.after, Effect(call.ev.op, db.t))
  }

  ghost function StepOver(tok: Tokenizer, db: Db, call: Call): Db
    requires Scans(db, call)
  {
    var op := call.ev.op;
    if !Commits(db, call.ev) then db
    else Db(Effect(op, db.t),
            db.fts - TakenOut(tok, call.gen, op, db.t, call.before) + PutIn(tok, call.gen, op, db.t, call.after))
  }

  lemma StepOverIsStep(tok: Tokenizer, db: Db, call: Call)
    requires SplitsAtSpaces(tok) && Wf(db.t) && Scans(db, call)
    ensures StepOver(tok, db, call) == Step(tok, db, call.ev)
  {
    var op, t := call.ev.op, db.t;
    if Commits(db, call.ev) {
      var t' := Effect(op, t);
      AcceptedKeepsWf(op, t);
      var id := if op.CreateNote? then NextId(t.notes.Keys)
                else if op.UpdateNote? || op.DeleteNote? || op.UpdateTag? || op.DeleteTag? then op.id else 0;
      EveryGenerationSelectsTheSame(tok, call.gen, t, call.before, id, id);
      EveryGenerationSelectsTheSame(tok, call.gen, t', call.after, id, id);
      SingleIndex(tok, t, id);
      SingleIndex(tok, t', id);
      assert op.DeleteTag? ==> Carriers(t', id) == {};
    }
  }

  /** The scans of the calls fit the tables they meet, the calls being made in turn. */
  ghost predicate Fits(tok: Tokenizer, db: Db, calls: seq<Call>)
    decreases |calls|
  {
    calls != [] ==> Scans(db, calls[0]) && Fits(tok, Step(tok, db, calls[0].ev), calls[1..])
  }

  ghost function RunOver(tok: Tokenizer, db: Db, calls: seq<Call>): Db
    requires SplitsAtSpaces(tok) && Wf(db.t) && Fits(tok, db, calls)
    decreases |calls|
  {
    if calls == [] then db
    else
      StepOverIsStep(tok, db, calls[0]);
      RunKeepsWf(tok, db, [calls[0].ev]);
      assert Run(tok, db, [calls[0].ev]) == Step(tok, db, calls[0].ev);
      RunOver(tok, StepOver(tok, db, calls[0]), calls[1..])
  }

  function EventsOf(calls: seq<Call>): seq<Event> {
    if calls == [] then [] else [calls[0].ev] + EventsOf(calls[1..])
  }

  /** A run in which each call may meet another generation of the view, under other scan orders, is
      the run that selects from the last one throughout. */
  lemma {:induction false} UpgradesDoNotShow(tok: Tokenizer, db: Db, calls: seq<Call>)
    requires SplitsAtSpaces(tok) && Wf(db.t) && Fits(tok, db, calls)
    ensures RunOver(tok, db, calls) == Run(tok, db, EventsOf(calls))
    decreases |calls|
  {
    if calls != [] {
      StepOverIsStep(tok, db, calls[0]);
      RunKeepsWf(tok, db, [calls[0].ev]);
      assert Run(tok, db, [calls[0].ev]) == Step(tok, db, calls[0].ev);
      UpgradesDoNotShow(tok, Step(tok, db, calls[0].ev), calls[1..]);
      assert EventsOf(calls)[1..] == EventsOf(calls[1..]);
    }
  }

  /** So the index filled once from the first view stays the rebuilt index over any mixture of
      writes and upgrades without DeleteTag. */
  lemma FilledOnceAgreesForGood(tok: Tokenizer, t: Tables, s: Scan, calls: seq<Call>)
    requires SplitsAtSpaces(tok) && Wf(t) && ScanOf(s, t)
    requires var db := Db(t, FilledFrom2(tok, View2(t, s))); Fits(tok, db, calls)
    requires forall call :: call in calls ==> !call.ev.op.DeleteTag?
    ensures Agree(tok, RunOver(tok, Db(t, FilledFrom2(tok, View2(t, s))), calls))
  {
    var db := Db(t, FilledFrom2(tok, View2(t, s)));
    FilledFromView2(tok, t, s);
    UpgradesDoNotShow(tok, db, calls);
    NoDeleteTag(calls);
    NotesSearch.RunAgrees(tok, db, EventsOf(calls));
  }

  lemma {:induction false} NoDeleteTag(calls: seq<Call>)
    requires forall call :: call in calls ==> !call.ev.op.DeleteTag?
    ensures forall ev :: ev in EventsOf(calls) ==> !ev.op.DeleteTag?
  {
    if calls != [] {
      NoDeleteTag(calls[1..]);
      assert calls[0] in calls;
    }
  }
}
