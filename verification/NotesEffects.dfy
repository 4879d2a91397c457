/** What a committed write means for searching, in terms of the tables before it. */
module NotesEffects {
  import opened Collections
  import opened NotesTables
  import opened NotesIndex
  import opened NotesOps
  import opened NotesCoverage
  import opened NotesSearch

  /** A tag of the note holds the term. */
  ghost predicate TagHasTerm(tok: Tokenizer, t: Tables, n: Id, w: string) {
    exists l :: l in t.notesTags && l.src == n && l.dst in t.tags && w in tok(t.tags[l.dst])
  }

  /** Another tag of the note does. */
  ghost predicate OtherTagHasTerm(tok: Tokenizer, t: Tables, n: Id, tag: Id, w: string) {
    exists l :: l in t.notesTags && l.src == n && l.dst != tag && l.dst in t.tags && w in tok(t.tags[l.dst])
  }

  /** A write with no index statement. */
  predicate Quiet(op: Op) {
    op.SetNoteBookmark? || op.CreateTag? || op.CreateSection? || op.UpdateSection? || op.DeleteSection?
  }

  lemma QuietIndex(tok: Tokenizer, op: Op, db: Db)
    requires Quiet(op)
    ensures Reindexed(tok, op, db) == db.fts
  {
    assert Dropped(op, db.t) == {} && Inserted(op, db.t) == {};
  }

  /** The writes with no index statement leave the index as it is, rightly. */
  lemma QuietCommit(tok: Tokenizer, op: Op, db: Db)
    requires Wf(db.t) && Accepts(op, db.t) && Quiet(op)
    ensures Committed(tok, op, db) == Db(Effect(op, db.t), db.fts)
    ensures Wf(Effect(op, db.t))
    ensures Agree(tok, db) ==> Agree(tok, Db(Effect(op, db.t), db.fts))
  {
    QuietIndex(tok, op, db);
    AcceptedKeepsWf(op, db.t);
    if Agree(tok, db) {
      CommittedAgrees(tok, op, db);
    }
  }

  lemma CreateNoteAccepted(op: Op, t: Tables)
    requires op.CreateNote?
    ensures Accepts(op, t) <==>
            && op.section in t.sections && (forall n :: n in t.notes ==> t.notes[n].title != op.title)
            && NoDup(op.tagIds) && (forall x :: x in op.tagIds ==> x in t.tags)
            && NoDup(op.refIds) && forall x :: x in op.refIds ==> x in t.notes || x == NextId(t.notes.Keys)
  {
    forall n | n in t.notes
      ensures n in Titles(t.notes) && Titles(t.notes)[n] == t.notes[n].title
    {
    }
  }

  lemma UpdateNoteAccepted(op: Op, t: Tables)
    requires op.UpdateNote?
    ensures Accepts(op, t) <==>
            if op.id !in t.notes then op.tagIds == [] && op.refIds == []
            else && op.section in t.sections
                 && (forall n :: n in t.notes && n != op.id ==> t.notes[n].title != op.title)
                 && NoDup(op.tagIds) && (forall x :: x in op.tagIds ==> x in t.tags)
                 && NoDup(op.refIds) && forall x :: x in op.refIds ==> x in t.notes
  {
    forall n | n in t.notes
      ensures n in Titles(t.notes) && Titles(t.notes)[n] == t.notes[n].title
    {
    }
  }

  lemma MissingNoteUpdated(tok: Tokenizer, op: Op, db: Db)
    requires op.UpdateNote?
    ensures op.id !in db.t.notes ==> Committed(tok, op, db) == db
  {
    SingleIndex(tok, db.t, op.id);
  }

  lemma DeletedNoteLeavesTheRest(tok: Tokenizer, db: Db, id: Id)
    requires Agree(tok, db)
    ensures forall e :: e in Committed(tok, DeleteNote(id), db).fts <==> e in db.fts && e.rowid != id
  {
    SingleIndex(tok, db.t, id);
    SingleIndex(tok, Effect(DeleteNote(id), db.t), id);
    forall e: Entry
      ensures e in db.fts && e in NoteEntries(tok, db.t, id) <==> e in db.fts && e.rowid == id
    {
      IndexOfMeans(tok, db.t, db.t.notes.Keys, e);
      NoteEntriesMean(tok, db.t, id, e);
    }
  }

  /** A note just saved under a title, a content and tags is found by their terms and no others. */
  lemma SavedNoteIsFound(tok: Tokenizer, db: Db, n: Id, title: string, content: string, tagIds: seq<Id>, w: string)
    requires Agree(tok, db) && n in db.t.notes
    requires db.t.notes[n].title == title && db.t.notes[n].content == content
    requires forall l: Link :: l.src == n ==> (l in db.t.notesTags <==> l.dst in tagIds)
    ensures n in SearchHits(db, w) <==>
            || w in tok(title) || w in tok(content)
            || exists x :: x in tagIds && x in db.t.tags && w in tok(db.t.tags[x])
  {
    AgreementMakesSearchExact(tok, db, w, n);
    forall x | x in tagIds && x in db.t.tags && w in tok(db.t.tags[x])
      ensures TagHasTerm(tok, db.t, n, w)
    {
      assert Link(n, x) in db.t.notesTags;
    }
  }

  /** What a note is found by once the tag has the new name. A carrier: that name, its own text and
      its other tags, so the old name only as far as those have its terms. Another note: what it was
      found by before. */
  ghost predicate HasTermRenamed(tok: Tokenizer, t: Tables, tag: Id, name: string, n: Id, w: string) {
    if Link(n, tag) in t.notesTags then
      n in t.notes && (|| w in tok(name)
                       || w in tok(t.notes[n].title) || w in tok(t.notes[n].content)
                       || OtherTagHasTerm(tok, t, n, tag, w))
    else HasTerm(tok, t, n, w)
  }

  lemma CarrierIsFound(tok: Tokenizer, t: Tables, db: Db, tag: Id, name: string, n: Id, w: string)
    requires Wf(t) && Agree(tok, db) && tag in t.tags && db.t == t.(tags := t.tags[tag := name])
    requires Link(n, tag) in t.notesTags
    ensures n in SearchHits(db, w) <==> HasTermRenamed(tok, t, tag, name, n, w)
  {
    AgreementMakesSearchExact(tok, db, w, n);
    if w in tok(name) {
      assert TagHasTerm(tok, db.t, n, w);
    }
  }

  lemma OtherIsFound(tok: Tokenizer, t: Tables, db: Db, tag: Id, name: string, n: Id, w: string)
    requires Wf(t) && Agree(tok, db) && tag in t.tags && db.t == t.(tags := t.tags[tag := name])
    requires Link(n, tag) !in t.notesTags
    ensures n in SearchHits(db, w) <==> HasTermRenamed(tok, t, tag, name, n, w)
  {
    AgreementMakesSearchExact(tok, db, w, n);
    assert TagHasTerm(tok, db.t, n, w) <==> TagHasTerm(tok, t, n, w);
  }

  lemma RenameIsFound(tok: Tokenizer, t: Tables, db: Db, tag: Id, name: string)
    requires Wf(t) && Agree(tok, db) && tag in t.tags && db.t == t.(tags := t.tags[tag := name])
    ensures forall n, w :: n in SearchHits(db, w) <==> HasTermRenamed(tok, t, tag, name, n, w)
  {
    forall n, w
      ensures n in SearchHits(db, w) <==> HasTermRenamed(tok, t, tag, name, n, w)
    {
      if Link(n, tag) in t.notesTags {
        CarrierIsFound(tok, t, db, tag, name, n, w);
      } else {
        OtherIsFound(tok, t, db, tag, name, n, w);
      }
    }
  }

  /** After DeleteTag its carriers are found by nothing at all, the others by what they were. */
  lemma DeletedTagLosesCarriers(tok: Tokenizer, db: Db, tag: Id, n: Id, w: string)
    requires Wf(db.t) && Agree(tok, db)
    ensures n in SearchHits(Committed(tok, DeleteTag(tag), db), w) <==>
            HasTerm(tok, db.t, n, w) && Link(n, tag) !in db.t.notesTags
  {
    var db' := Committed(tok, DeleteTag(tag), db);
    var rest := db.t.notes.Keys - Carriers(db.t, tag);
    DeleteTagExactEffect(tok, db, tag);
    assert n in Carriers(db.t, tag) <==> Link(n, tag) in db.t.notesTags;
    MentionsAreTerms(tok, db'.t, n, w);
    assert Link(n, tag) !in db.t.notesTags ==> (HasTerm(tok, db.t, n, w) <==> HasTerm(tok, db'.t, n, w));
    if n in SearchHits(db', w) {
      var e :| e in db'.fts && e.term == w && e.rowid == n;
      IndexOfMeans(tok, db'.t, rest, e);
    }
    if column :| n in rest && Mentions(tok, db'.t, n, column, w) {
      IndexOfMeans(tok, db'.t, rest, Entry(n, column, w));
      assert Entry(n, column, w) in db'.fts;
    }
  }
}
