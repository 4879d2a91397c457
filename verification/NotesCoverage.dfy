/** Over any run of the store, failed transactions and reused ids included, the index is exactly
    the rebuilt index of a set of covered notes. Only DeleteTag takes a note out of that set. */
module NotesCoverage {
  import opened NotesTables
  import opened NotesIndex
  import opened NotesOps

  /** The index and the view agree: every term search finds what the view shows. */
  ghost predicate Agree(tok: Tokenizer, db: Db) {
    db.fts == Rebuilt(tok, db.t)
  }

  ghost predicate Covers(tok: Tokenizer, db: Db, covered: set<Id>) {
    covered <= db.t.notes.Keys && db.fts == IndexOf(tok, db.t, covered)
  }

  function CoveredAfter(op: Op, t: Tables, covered: set<Id>): set<Id> {
    covered - Dropped(op, t) + Inserted(op, t)
  }

  ghost function RunCovered(tok: Tokenizer, db: Db, evs: seq<Event>, covered: set<Id>): set<Id>
    decreases |evs|
  {
    if evs == [] then covered
    else
      var covered' := if evs[0].failed || !Accepts(evs[0].op, db.t) then covered
                      else CoveredAfter(evs[0].op, db.t, covered);
      RunCovered(tok, Step(tok, db, evs[0]), evs[1..], covered')
  }

  // ----- One operation -----

  /** The text of a note depends on its own row, its own links and the names of its tags. */
  lemma SameText(tok: Tokenizer, t: Tables, t': Tables, n: Id)
    requires n in t.notes && n in t'.notes
    requires t.notes[n].title == t'.notes[n].title && t.notes[n].content == t'.notes[n].content
    requires forall l: Link :: l.src == n ==> (l in t.notesTags <==> l in t'.notesTags)
    requires forall l :: l in t.notesTags && l.src == n ==> Named(t, t', l.dst)
    ensures NoteEntries(tok, t, n) == NoteEntries(tok, t', n)
  {
  }

  ghost predicate Named(t: Tables, t': Tables, tag: Id) {
    (tag in t.tags <==> tag in t'.tags) && (tag in t.tags ==> t.tags[tag] == t'.tags[tag])
  }

  lemma CarrierOf(t: Tables, l: Link)
    requires l in t.notesTags
    ensures l.src in Carriers(t, l.dst)
  {
  }

  lemma UntouchedByTagChange(tok: Tokenizer, op: Op, t: Tables, n: Id)
    requires op.UpdateTag? || op.DeleteTag?
    requires n in t.notes && n !in Carriers(t, op.id)
    ensures NoteEntries(tok, t, n) == NoteEntries(tok, Effect(op, t), n)
  {
    forall l | l in t.notesTags
      ensures l.src in Carriers(t, l.dst)
    {
      CarrierOf(t, l);
    }
    SameText(tok, t, Effect(op, t), n);
  }

  lemma UntouchedByNoteChange(tok: Tokenizer, op: Op, t: Tables, n: Id)
    requires op.CreateNote? || op.UpdateNote? || op.DeleteNote? || op.SetNoteBookmark?
    requires n in t.notes && n !in Dropped(op, t)
    ensures n in Effect(op, t).notes && NoteEntries(tok, t, n) == NoteEntries(tok, Effect(op, t), n)
  {
    SameText(tok, t, Effect(op, t), n);
  }

  lemma UntouchedByOtherChange(tok: Tokenizer, op: Op, t: Tables, n: Id)
    requires op.CreateTag? || op.CreateSection? || op.UpdateSection? || op.DeleteSection?
    requires Wf(t) && n in t.notes
    ensures n in Effect(op, t).notes && NoteEntries(tok, t, n) == NoteEntries(tok, Effect(op, t), n)
  {
    SameText(tok, t, Effect(op, t), n);
  }

  lemma UntouchedText(tok: Tokenizer, op: Op, t: Tables, n: Id)
    requires Wf(t)
    requires n in t.notes && n !in Dropped(op, t)
    ensures n in Effect(op, t).notes
    ensures NoteEntries(tok, t, n) == NoteEntries(tok, Effect(op, t), n)
  {
    if op.UpdateTag? || op.DeleteTag? {
      UntouchedByTagChange(tok, op, t, n);
    } else if op.CreateNote? || op.UpdateNote? || op.DeleteNote? || op.SetNoteBookmark? {
      UntouchedByNoteChange(tok, op, t, n);
    } else {
      UntouchedByOtherChange(tok, op, t, n);
    }
  }

  /** Deleting the documents of some notes and inserting those of others, as set operations. */
  lemma PatchedIndex(tok: Tokenizer, t: Tables, t': Tables, covered: set<Id>, dropped: set<Id>, inserted: set<Id>)
    requires forall n :: n in covered - dropped ==> NoteEntries(tok, t, n) == NoteEntries(tok, t', n)
    ensures IndexOf(tok, t, covered) - IndexOf(tok, t, dropped) + IndexOf(tok, t', inserted) ==
            IndexOf(tok, t', covered - dropped + inserted)
  {
    forall e: Entry
      ensures e in IndexOf(tok, t, covered) - IndexOf(tok, t, dropped) + IndexOf(tok, t', inserted) <==>
              e in IndexOf(tok, t', covered - dropped + inserted)
    {
      IndexOfMeans(tok, t, covered, e);
      IndexOfMeans(tok, t, dropped, e);
      IndexOfMeans(tok, t', inserted, e);
      IndexOfMeans(tok, t', covered - dropped + inserted, e);
      if e.rowid in covered - dropped {
        NoteEntriesMean(tok, t, e.rowid, e);
        NoteEntriesMean(tok, t', e.rowid, e);
      }
    }
  }

  /** One committed operation moves the covered set as CoveredAfter says. */
  lemma CommittedCovers(tok: Tokenizer, op: Op, db: Db, covered: set<Id>)
    requires Wf(db.t) && Accepts(op, db.t) && Covers(tok, db, covered)
    ensures Covers(tok, Committed(tok, op, db), CoveredAfter(op, db.t, covered))
  {
    var t' := Effect(op, db.t);
    forall n | n in covered - Dropped(op, db.t)
      ensures NoteEntries(tok, db.t, n) == NoteEntries(tok, t', n) && n in t'.notes
    {
      UntouchedText(tok, op, db.t, n);
    }
    PatchedIndex(tok, db.t, t', covered, Dropped(op, db.t), Inserted(op, db.t));
  }

  // ----- Whole runs -----

  /** In every run the index is the rebuilt index of the covered notes. */
  lemma {:induction false} RunCovers(tok: Tokenizer, db: Db, evs: seq<Event>, covered: set<Id>)
    requires Wf(db.t) && Covers(tok, db, covered)
    ensures Covers(tok, Run(tok, db, evs), RunCovered(tok, db, evs, covered))
    decreases |evs|
  {
    if evs == [] {
    } else {
      var op := evs[0].op;
      if evs[0].failed || !Accepts(op, db.t) {
        RunCovers(tok, db, evs[1..], covered);
      } else {
        AcceptedKeepsWf(op, db.t);
        CommittedCovers(tok, op, db, covered);
        RunCovers(tok, Committed(tok, op, db), evs[1..], CoveredAfter(op, db.t, covered));
      }
    }
  }
}
