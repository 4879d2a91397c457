/** The index statements row by row. A 'delete' has to name a document as it is indexed, and an
    insert a rowid that is not indexed yet; the joined views name a document once per tag. */
module NotesStatements {
  import opened Collections
  import opened NotesTables
  import opened NotesViews
  import opened NotesIndex
  import opened NotesOps
  import opened NotesCoverage
  import opened NotesStore
  import opened NotesUpgrades
  import opened NotesViewEquivalence
  import NotesReading
  import NotesSearch

  // ----- How often a statement names a document -----

  /** The view the statements of this release select from: 0004, 0005 or 0006. */
  ghost function Rows(gen: Generation, t: Tables, s: Scan): seq<Details>
    requires gen != Gen2 && ScanOf(s, t)
  {
    if gen == Gen4 then View4(t, s) else if gen == Gen5 then View5(t, s) else View6(t, s)
  }

  /** The row it shows for a note. */
  ghost function RowOf(gen: Generation, t: Tables, s: Scan, n: Id): Details
    requires n in t.notes
  {
    CorrelatedRow(t, if gen == Gen6 then s else OneTagScan(s), n, gen != Gen4)
  }

  /** And how many times. */
  ghost function Times(gen: Generation, t: Tables, n: Id): nat {
    if gen == Gen6 then 1 else Copies(t, n)
  }

  /** Each of the notes is selected as many times as the view shows it, and nothing else is. */
  ghost predicate Selects(sel: seq<Details>, gen: Generation, t: Tables, s: Scan, ids: set<Id>) {
    forall row ::
      multiset(sel)[row] ==
      if row.id in ids && row.id in t.notes && row == RowOf(gen, t, s, row.id) then Times(gen, t, row.id) else 0
  }

  lemma ViewSelectsAll(gen: Generation, t: Tables, s: Scan)
    requires gen != Gen2 && ScanOf(s, t)
    ensures Selects(Rows(gen, t, s), gen, t, s, t.notes.Keys)
  {
    forall row: Details
      ensures multiset(Rows(gen, t, s))[row] ==
              if row.id in t.notes && row == RowOf(gen, t, s, row.id) then Times(gen, t, row.id) else 0
    {
      if gen == Gen6 {
        View6OneRowPerNote(t, s, row);
      } else {
        JoinedCounts(t, s, s.notes, gen == Gen5, row);
      }
    }
  }

  lemma {:induction false} WithIdCounts(rows: seq<Details>, id: Id, row: Details)
    ensures multiset(WithId(rows, id))[row] == if row.id == id then multiset(rows)[row] else 0
  {
    if rows != [] {
      WithIdCounts(rows[1..], id, row);
      assert rows == [rows[0]] + rows[1..];
    }
  }

  lemma CountsAdd<T>(a: seq<T>, b: seq<T>, x: T)
    ensures multiset(a + b)[x] == multiset(a)[x] + multiset(b)[x]
  {
  }

  lemma {:induction false} JoinedWithCounts(rows: seq<Details>, tag: Id, row: Details)
    requires TagHits(row.tagsJson, tag) <= 1
    ensures multiset(JoinedWith(rows, tag))[row] == if TagHits(row.tagsJson, tag) == 1 then multiset(rows)[row] else 0
  {
    if rows != [] {
      var hits := TagHits(rows[0].tagsJson, tag);
      JoinedWithCounts(rows[1..], tag, row);
      RepeatCounts(rows[0], hits, row);
      CountsAdd(Repeat(rows[0], hits), JoinedWith(rows[1..], tag), row);
      CountsAdd([rows[0]], rows[1..], row);
      assert rows == [rows[0]] + rows[1..];
      assert multiset([rows[0]])[row] == if row == rows[0] then 1 else 0;
    }
  }

  /** A tag is listed at most once, so the join with json_each multiplies nothing. */
  lemma {:induction false} TagListedOnce(items: seq<Item>, tag: Id)
    requires NoDup(items) && forall a, b :: a in items && b in items && a.id == b.id ==> a == b
    ensures TagHits(items, tag) <= 1
  {
    if items != [] {
      var rest := items[1..];
      NoDupTail(items);
      assert items == [items[0]] + rest;
      TagListedOnce(rest, tag);
      TagHitsMean(rest, tag);
    }
  }

  lemma TaggedOnce(t: Tables, s: Scan, n: Id, tag: Id)
    requires Wf(t) && ScanOf(s, t)
    ensures TagHits(Tagged(t, s, n), tag) == if n in Carriers(t, tag) then 1 else 0
  {
    NotesReading.TagsListed(t, s.notesTags, n);
    TagListedOnce(Tagged(t, s, n), tag);
    TagListedIffCarrier(t, s, n, tag);
  }

  lemma ByIdSelects(gen: Generation, t: Tables, s: Scan, id: Id)
    requires gen != Gen2 && ScanOf(s, t)
    ensures Selects(WithId(Rows(gen, t, s), id), gen, t, s, {id})
  {
    ViewSelectsAll(gen, t, s);
    forall row: Details
      ensures multiset(WithId(Rows(gen, t, s), id))[row] ==
              if row.id in {id} && row.id in t.notes && row == RowOf(gen, t, s, row.id)
              then Times(gen, t, row.id) else 0
    {
      WithIdCounts(Rows(gen, t, s), id, row);
    }
  }

  /** WHERE id = ? names the document once over 0006, and once per tag over 0004 and 0005; so does
      the join with json_each for each carrier of the tag. */
  lemma StatementsSelect(gen: Generation, t: Tables, s: Scan, id: Id, tag: Id)
    requires gen != Gen2 && Wf(t) && ScanOf(s, t)
    ensures Selects(WithId(Rows(gen, t, s), id), gen, t, s, {id})
    ensures Selects(JoinedWith(Rows(gen, t, s), tag), gen, t, s, Carriers(t, tag))
  {
    ByIdSelects(gen, t, s, id);
    ViewSelectsAll(gen, t, s);
    forall row: Details
      ensures multiset(JoinedWith(Rows(gen, t, s), tag))[row] ==
              if row.id in Carriers(t, tag) && row.id in t.notes && row == RowOf(gen, t, s, row.id)
              then Times(gen, t, row.id) else 0
    {
      JoinedRowCounts(gen, t, s, tag, row);
    }
  }

  lemma JoinedRowCounts(gen: Generation, t: Tables, s: Scan, tag: Id, row: Details)
    requires gen != Gen2 && Wf(t) && ScanOf(s, t) && Selects(Rows(gen, t, s), gen, t, s, t.notes.Keys)
    ensures multiset(JoinedWith(Rows(gen, t, s), tag))[row] ==
            if row.id in Carriers(t, tag) && row.id in t.notes && row == RowOf(gen, t, s, row.id)
            then Times(gen, t, row.id) else 0
  {
    var rows := Rows(gen, t, s);
    if row.id in t.notes && row == RowOf(gen, t, s, row.id) {
      TaggedOnce(t, s, row.id, tag);
      JoinedWithCounts(rows, tag, row);
    } else {
      assert row !in multiset(rows);
      JoinedWithMember(rows, tag, row);
      assert row in rows <==> row in multiset(rows);
      assert row in JoinedWith(rows, tag) <==> row in multiset(JoinedWith(rows, tag));
    }
  }

  // ----- Statements that name what is indexed -----

  ghost predicate Unindexed(fts: set<Entry>, id: Id) {
    forall e :: e in fts ==> e.rowid != id
  }

  /** Each 'delete' meets its document in the index. */
  ghost predicate DeletesOk(tok: Tokenizer, fts: set<Entry>, rows: seq<Details>)
    decreases |rows|
  {
    rows != [] ==>
      RowEntries(tok, rows[0]) <= fts && DeletesOk(tok, fts - RowEntries(tok, rows[0]), rows[1..])
  }

  /** Each insert meets a rowid without entries. */
  ghost predicate InsertsOk(tok: Tokenizer, fts: set<Entry>, rows: seq<Details>)
    decreases |rows|
  {
    rows != [] ==>
      Unindexed(fts, rows[0].id) && InsertsOk(tok, fts + RowEntries(tok, rows[0]), rows[1..])
  }

  /** No document with any term is named twice. */
  ghost predicate Once(tok: Tokenizer, rows: seq<Details>) {
    forall row :: row in rows && RowEntries(tok, row) != {} ==> multiset(rows)[row] == 1
  }

  ghost predicate OneRowPerId(rows: seq<Details>) {
    forall a, b :: a in rows && b in rows && a.id == b.id ==> a == b
  }

  lemma OnceFirst(tok: Tokenizer, rows: seq<Details>)
    requires rows != []
    ensures Once(tok, rows) <==>
            Once(tok, rows[1..]) && (RowEntries(tok, rows[0]) != {} ==> rows[0] !in rows[1..])
  {
    var first, rest := rows[0], rows[1..];
    assert rows == [first] + rest;
    forall row: Details
      ensures multiset(rows)[row] == multiset(rest)[row] + if row == first then 1 else 0
      ensures row in rest <==> multiset(rest)[row] > 0
    {
    }
    if Once(tok, rows) {
      forall row | row in rest && RowEntries(tok, row) != {}
        ensures multiset(rest)[row] == 1
      {
        assert row in rows;
      }
      if RowEntries(tok, first) != {} {
        assert first in rows;
      }
    }
  }

  /** The documents of different notes have nothing in common. */
  lemma ApartFrom(tok: Tokenizer, fts: set<Entry>, first: Details, row: Details)
    requires row.id != first.id
    ensures RowEntries(tok, row) <= fts <==> RowEntries(tok, row) <= fts - RowEntries(tok, first)
    ensures Unindexed(fts, row.id) <==> Unindexed(fts + RowEntries(tok, first), row.id)
  {
  }

  lemma {:induction false} DeletesOkIff(tok: Tokenizer, fts: set<Entry>, rows: seq<Details>)
    requires OneRowPerId(rows)
    ensures DeletesOk(tok, fts, rows) <==> Once(tok, rows) && forall row :: row in rows ==> RowEntries(tok, row) <= fts
    decreases |rows|
  {
    if rows != [] {
      var first, rest := rows[0], rows[1..];
      assert rows == [first] + rest;
      OnceFirst(tok, rows);
      DeletesOkIff(tok, fts - RowEntries(tok, first), rest);
      forall row | row in rest && row != first
        ensures RowEntries(tok, row) <= fts <==> RowEntries(tok, row) <= fts - RowEntries(tok, first)
      {
        ApartFrom(tok, fts, first, row);
      }
    }
  }

  lemma {:induction false} InsertsOkIff(tok: Tokenizer, fts: set<Entry>, rows: seq<Details>)
    requires OneRowPerId(rows)
    ensures InsertsOk(tok, fts, rows) <==> Once(tok, rows) && forall row :: row in rows ==> Unindexed(fts, row.id)
    decreases |rows|
  {
    if rows != [] {
      var first, rest := rows[0], rows[1..];
      assert rows == [first] + rest;
      OnceFirst(tok, rows);
      InsertsOkIff(tok, fts + RowEntries(tok, first), rest);
      forall row | row in rest && row != first
        ensures Unindexed(fts, row.id) <==> Unindexed(fts + RowEntries(tok, first), row.id)
      {
        ApartFrom(tok, fts, first, row);
      }
      if first in rest && RowEntries(tok, first) != {} {
        var e :| e in RowEntries(tok, first);
        assert e in fts + RowEntries(tok, first) && e.rowid == first.id;
      }
    }
  }

  // ----- Over each generation -----

  /** The notes with any terms are shown once each. */
  ghost predicate ShownOnce(tok: Tokenizer, gen: Generation, t: Tables, ids: set<Id>) {
    forall n :: n in ids && NoteEntries(tok, t, n) != {} ==> Times(gen, t, n) == 1
  }

  lemma RowOfEntries(tok: Tokenizer, gen: Generation, t: Tables, s: Scan, n: Id)
    requires SplitsAtSpaces(tok) && ScanOf(s, t) && n in t.notes
    ensures RowEntries(tok, RowOf(gen, t, s, n)) == NoteEntries(tok, t, n)
    ensures RowOf(gen, t, s, n).id == n
  {
    RowEntriesAreNoteEntries(tok, t, if gen == Gen6 then s else OneTagScan(s), n, gen != Gen4);
  }

  lemma SelectedRow(gen: Generation, t: Tables, s: Scan, sel: seq<Details>, ids: set<Id>, row: Details)
    requires Selects(sel, gen, t, s, ids)
    ensures row in sel <==> row.id in ids && row.id in t.notes && row == RowOf(gen, t, s, row.id)
  {
    assert row in sel <==> multiset(sel)[row] > 0;
  }

  lemma OnceIff(tok: Tokenizer, gen: Generation, t: Tables, s: Scan, sel: seq<Details>, ids: set<Id>)
    requires SplitsAtSpaces(tok) && ScanOf(s, t) && Selects(sel, gen, t, s, ids)
    ensures OneRowPerId(sel)
    ensures Once(tok, sel) <==> ShownOnce(tok, gen, t, ids)
  {
    forall row: Details
      ensures row in sel <==> row.id in ids && row.id in t.notes && row == RowOf(gen, t, s, row.id)
      ensures row in sel ==> RowEntries(tok, row) == NoteEntries(tok, t, row.id)
      ensures row in sel ==> multiset(sel)[row] == Times(gen, t, row.id)
    {
      SelectedRow(gen, t, s, sel, ids, row);
      if row in sel {
        RowOfEntries(tok, gen, t, s, row.id);
      }
    }
    forall n | n in ids && NoteEntries(tok, t, n) != {}
      ensures RowOf(gen, t, s, n) in sel && RowOf(gen, t, s, n).id == n
    {
      RowOfEntries(tok, gen, t, s, n);
    }
  }

  /** Naming documents for deletion goes well exactly if each of them is indexed and shown once. */
  lemma DeletesOkOverView(tok: Tokenizer, gen: Generation, db: Db, s: Scan, sel: seq<Details>, ids: set<Id>,
                          covered: set<Id>)
    requires SplitsAtSpaces(tok) && ScanOf(s, db.t) && Selects(sel, gen, db.t, s, ids) && Covers(tok, db, covered)
    ensures DeletesOk(tok, db.fts, sel) <==>
            ShownOnce(tok, gen, db.t, ids)
            && forall n :: n in ids && NoteEntries(tok, db.t, n) != {} ==> n in covered
  {
    OnceIff(tok, gen, db.t, s, sel, ids);
    DeletesOkIff(tok, db.fts, sel);
    forall n | n in ids && n in db.t.notes
      ensures RowOf(gen, db.t, s, n) in sel
      ensures RowEntries(tok, RowOf(gen, db.t, s, n)) <= db.fts <==> NoteEntries(tok, db.t, n) == {} || n in covered
    {
      RowOfEntries(tok, gen, db.t, s, n);
      SelectedRow(gen, db.t, s, sel, ids, RowOf(gen, db.t, s, n));
      IndexedIff(tok, db, covered, n);
    }
    forall row | row in sel
      ensures row.id in ids && row.id in db.t.notes && row == RowOf(gen, db.t, s, row.id)
    {
      SelectedRow(gen, db.t, s, sel, ids, row);
    }
  }

  lemma IndexedIff(tok: Tokenizer, db: Db, covered: set<Id>, n: Id)
    requires Covers(tok, db, covered)
    ensures NoteEntries(tok, db.t, n) <= db.fts <==> NoteEntries(tok, db.t, n) == {} || n in covered
  {
    forall e | e in NoteEntries(tok, db.t, n)
      ensures e in db.fts <==> n in covered
    {
      NoteEntriesMean(tok, db.t, n, e);
      IndexOfMeans(tok, db.t, covered, e);
    }
  }

  lemma InsertsOkOverView(tok: Tokenizer, gen: Generation, t: Tables, s: Scan, fts: set<Entry>, sel: seq<Details>,
                          ids: set<Id>)
    requires SplitsAtSpaces(tok) && ScanOf(s, t) && Selects(sel, gen, t, s, ids)
    requires forall n :: n in ids && n in t.notes ==> Unindexed(fts, n)
    ensures InsertsOk(tok, fts, sel) <==> ShownOnce(tok, gen, t, ids)
  {
    OnceIff(tok, gen, t, s, sel, ids);
    InsertsOkIff(tok, fts, sel);
    forall row | row in sel
      ensures Unindexed(fts, row.id)
    {
      SelectedRow(gen, t, s, sel, ids, row);
    }
  }

  // ----- Whole operations -----

  /** The documents an operation deletes, one statement row each. */
  ghost function OutRows(gen: Generation, op: Op, t: Tables, s: Scan): seq<Details>
    requires gen != Gen2 && ScanOf(s, t)
  {
    match op
    case UpdateNote(id, _, _, _, _, _) => WithId(Rows(gen, t, s), id)
    case DeleteNote(id) => WithId(Rows(gen, t, s), id)
    case UpdateTag(id, _) => JoinedWith(Rows(gen, t, s), id)
    case DeleteTag(id) => JoinedWith(Rows(gen, t, s), id)
    case _ => []
  }

  /** And those it inserts, from the tables as it leaves them. */
  ghost function InRows(gen: Generation, op: Op, t: Tables, s': Scan): seq<Details>
    requires gen != Gen2 && ScanOf(s', Effect(op, t))
  {
    var rows := Rows(gen, Effect(op, t), s');
    match op
    case CreateNote(_, _, _, _, _) => WithId(rows, NextId(t.notes.Keys))
    case UpdateNote(id, _, _, _, _, _) => WithId(rows, id)
    case UpdateTag(id, _) => JoinedWith(rows, id)
    case DeleteTag(id) => JoinedWith(rows, id)
    case _ => []
  }

  /** Every 'delete' of the operation names a document as it is indexed, every insert a rowid that is
      not. */
  ghost predicate NamesIndexed(tok: Tokenizer, gen: Generation, op: Op, db: Db, s: Scan, s': Scan)
    requires gen != Gen2 && ScanOf(s, db.t) && ScanOf(s', Effect(op, db.t))
  {
    && DeletesOk(tok, db.fts, OutRows(gen, op, db.t, s))
    && InsertsOk(tok, db.fts - FilledFrom(tok, OutRows(gen, op, db.t, s)), InRows(gen, op, db.t, s'))
  }

  lemma NothingSelected(gen: Generation, t: Tables, s: Scan)
    ensures Selects([], gen, t, s, {})
  {
  }

  lemma SelectedEntries(tok: Tokenizer, gen: Generation, t: Tables, s: Scan, sel: seq<Details>, ids: set<Id>)
    requires SplitsAtSpaces(tok) && ScanOf(s, t) && Selects(sel, gen, t, s, ids)
    ensures FilledFrom(tok, sel) == IndexOf(tok, t, ids)
  {
    var s', bm := if gen == Gen6 then s else OneTagScan(s), gen != Gen4;
    forall row: Details
      ensures row in sel <==> row.id in ids && row.id in t.notes && row == CorrelatedRow(t, s', row.id, bm)
    {
      SelectedRow(gen, t, s, sel, ids, row);
    }
    SelectedDocs(tok, t, s', bm, sel, ids);
  }

  lemma MissingNoteSelectsNothing(gen: Generation, t: Tables, s: Scan, sel: seq<Details>, id: Id)
    requires Selects(sel, gen, t, s, {id}) && id !in t.notes
    ensures Selects(sel, gen, t, s, {})
  {
  }

  lemma NoteRowsSelect(gen: Generation, op: Op, t: Tables, s: Scan)
    requires gen != Gen2 && ScanOf(s, t) && (op.UpdateNote? || op.DeleteNote?)
    ensures Selects(WithId(Rows(gen, t, s), op.id), gen, t, s, Dropped(op, t))
  {
    ByIdSelects(gen, t, s, op.id);
    if op.UpdateNote? && op.id !in t.notes {
      MissingNoteSelectsNothing(gen, t, s, WithId(Rows(gen, t, s), op.id), op.id);
    }
  }

  lemma TagRowsSelect(gen: Generation, t: Tables, s: Scan, tag: Id, rows: seq<Details>, ids: set<Id>)
    requires gen != Gen2 && Wf(t) && ScanOf(s, t)
    requires rows == JoinedWith(Rows(gen, t, s), tag) && ids == Carriers(t, tag)
    ensures Selects(rows, gen, t, s, ids)
  {
    StatementsSelect(gen, t, s, 0, tag);
  }

  lemma OutRowsSelect(gen: Generation, op: Op, t: Tables, s: Scan)
    requires gen != Gen2 && Wf(t) && ScanOf(s, t)
    ensures Selects(OutRows(gen, op, t, s), gen, t, s, Dropped(op, t))
  {
    match op
    case UpdateTag(id, _) => TagRowsSelect(gen, t, s, id, OutRows(gen, op, t, s), Dropped(op, t));
    case DeleteTag(id) => TagRowsSelect(gen, t, s, id, OutRows(gen, op, t, s), Dropped(op, t));
    case UpdateNote(_, _, _, _, _, _) => NoteRowsSelect(gen, op, t, s);
    case DeleteNote(_) => NoteRowsSelect(gen, op, t, s);
    case _ => NothingSelected(gen, t, s);
  }

  lemma InNoteRowsSelect(gen: Generation, op: Op, t: Tables, s': Scan)
    requires gen != Gen2 && Wf(t) && Accepts(op, t) && ScanOf(s', Effect(op, t))
    requires op.CreateNote? || op.UpdateNote?
    ensures Selects(InRows(gen, op, t, s'), gen, Effect(op, t), s', Inserted(op, t))
  {
    var t' := Effect(op, t);
    ByIdSelects(gen, t', s', if op.CreateNote? then NextId(t.notes.Keys) else op.id);
  }

  lemma InTagRowsSelect(gen: Generation, op: Op, t: Tables, s': Scan)
    requires gen != Gen2 && Wf(t) && Accepts(op, t) && ScanOf(s', Effect(op, t))
    requires op.UpdateTag? || op.DeleteTag?
    ensures Selects(InRows(gen, op, t, s'), gen, Effect(op, t), s', Inserted(op, t))
  {
    var t' := Effect(op, t);
    AcceptedKeepsWf(op, t);
    assert Carriers(t', op.id) == if op.DeleteTag? then {} else Carriers(t, op.id);
    TagRowsSelect(gen, t', s', op.id, InRows(gen, op, t, s'), Inserted(op, t));
  }

  lemma InRowsSelect(gen: Generation, op: Op, t: Tables, s': Scan)
    requires gen != Gen2 && Wf(t) && Accepts(op, t) && ScanOf(s', Effect(op, t))
    ensures Selects(InRows(gen, op, t, s'), gen, Effect(op, t), s', Inserted(op, t))
  {
    if op.CreateNote? || op.UpdateNote? {
      InNoteRowsSelect(gen, op, t, s');
    } else if op.UpdateTag? || op.DeleteTag? {
      InTagRowsSelect(gen, op, t, s');
    } else {
      NothingSelected(gen, Effect(op, t), s');
    }
  }

  lemma UnindexedWhenInserted(tok: Tokenizer, op: Op, db: Db, covered: set<Id>, n: Id)
    requires Covers(tok, db, covered) && n in Inserted(op, db.t)
    ensures Unindexed(db.fts - IndexOf(tok, db.t, Dropped(op, db.t)), n)
  {
    forall e | e in db.fts && e.rowid == n
      ensures e in IndexOf(tok, db.t, Dropped(op, db.t))
    {
      IndexOfMeans(tok, db.t, covered, e);
      IndexOfMeans(tok, db.t, Dropped(op, db.t), e);
    }
  }

  /** An operation deletes only what is indexed and inserts only what is not, if and only if the
      notes with any terms that it takes out are covered by the index, and the view shows them, and
      those it puts in, once each: over 0006 always, over 0004 and 0005 with at most one tag. */
  lemma NamesIndexedIff(tok: Tokenizer, gen: Generation, op: Op, db: Db, s: Scan, s': Scan, covered: set<Id>)
    requires SplitsAtSpaces(tok) && gen != Gen2 && Wf(db.t) && Accepts(op, db.t) && Covers(tok, db, covered)
    requires ScanOf(s, db.t) && ScanOf(s', Effect(op, db.t))
    ensures NamesIndexed(tok, gen, op, db, s, s') <==>
            && ShownOnce(tok, gen, db.t, Dropped(op, db.t))
            && ShownOnce(tok, gen, Effect(op, db.t), Inserted(op, db.t))
            && forall n :: n in Dropped(op, db.t) && NoteEntries(tok, db.t, n) != {} ==> n in covered
  {
    OutRowsSelect(gen, op, db.t, s);
    SelectedEntries(tok, gen, db.t, s, OutRows(gen, op, db.t, s), Dropped(op, db.t));
    InRowsSelect(gen, op, db.t, s');
    DeletesOkOverView(tok, gen, db, s, OutRows(gen, op, db.t, s), Dropped(op, db.t), covered);
    forall n | n in Inserted(op, db.t)
      ensures Unindexed(db.fts - IndexOf(tok, db.t, Dropped(op, db.t)), n)
    {
      UnindexedWhenInserted(tok, op, db, covered, n);
    }
    InsertsOkOverView(tok, gen, Effect(op, db.t), s', db.fts - IndexOf(tok, db.t, Dropped(op, db.t)),
                      InRows(gen, op, db.t, s'), Inserted(op, db.t));
  }

  /** The inbox with one note carrying two tags. */
  function NoteWithTwoTags(title: string): Tables {
    Tables(map[1 := "01 Inbox"], map[1 := "a", 2 := "b"], map[1 := NoteRow(title, "", 1, false)],
           {Link(1, 1), Link(1, 2)}, {})
  }

  /** Deleting that note over 0005 names its document a second time when it is already gone. */
  lemma TwoTagsNameTwice(tok: Tokenizer, title: string, w: string, s: Scan, s': Scan)
    requires SplitsAtSpaces(tok) && w in tok(title)
    requires ScanOf(s, NoteWithTwoTags(title)) && ScanOf(s', Effect(DeleteNote(1), NoteWithTwoTags(title)))
    ensures var db := Db(NoteWithTwoTags(title), Rebuilt(tok, NoteWithTwoTags(title)));
            && Wf(db.t) && Agree(tok, db)
            && !NamesIndexed(tok, Gen5, DeleteNote(1), db, s, s')
            && NamesIndexed(tok, Gen6, DeleteNote(1), db, s, s')
  {
    var t := NoteWithTwoTags(title);
    var db := Db(t, Rebuilt(tok, t));
    var links := set l | l in t.notesTags && l.src == 1;
    assert links == {Link(1, 1), Link(1, 2)};
    NoteEntriesMean(tok, t, 1, Entry(1, TitleCol, w));
    assert Copies(t, 1) == 2;
    NamesIndexedIff(tok, Gen5, DeleteNote(1), db, s, s', t.notes.Keys);
    NamesIndexedIff(tok, Gen6, DeleteNote(1), db, s, s', t.notes.Keys);
  }

  // ----- Whole runs -----

  /** Every committed call of the run does so. */
  ghost predicate AllNameIndexed(tok: Tokenizer, db: Db, calls: seq<Call>)
    decreases |calls|
  {
    calls != [] ==>
      var call := calls[0];
      && (Commits(db, call.ev) ==>
            && call.gen != Gen2 && ScanOf(call.before, db.t) && ScanOf(call.after, Effect(call.ev.op, db.t))
            && NamesIndexed(tok, call.gen, call.ev.op, db, call.before, call.after))
      && AllNameIndexed(tok, Step(tok, db, call.ev), calls[1..])
  }

  /** Over the view of 0006, as long as no tag is deleted, the index is never asked to forget what it
      does not hold or to take in a note twice. */
  lemma {:induction false} RunsOver6NameIndexed(tok: Tokenizer, db: Db, calls: seq<Call>)
    requires SplitsAtSpaces(tok) && Wf(db.t) && Agree(tok, db) && Fits(tok, db, calls)
    requires forall call :: call in calls ==> call.gen == Gen6 && !call.ev.op.DeleteTag?
    ensures AllNameIndexed(tok, db, calls)
    decreases |calls|
  {
    if calls != [] {
      var call := calls[0];
      assert call in calls;
      assert forall c :: c in calls[1..] ==> c in calls;
      if Commits(db, call.ev) {
        NamesIndexedIff(tok, Gen6, call.ev.op, db, call.before, call.after, db.t.notes.Keys);
      }
      RunKeepsWf(tok, db, [call.ev]);
      NotesSearch.RunAgrees(tok, db, [call.ev]);
      assert Run(tok, db, [call.ev]) == Step(tok, db, call.ev);
      RunsOver6NameIndexed(tok, Step(tok, db, call.ev), calls[1..]);
    }
  }
}
