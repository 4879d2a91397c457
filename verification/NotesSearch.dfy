/** What the coverage of the index means for searching: exactness without DeleteTag, the exact
    damage DeleteTag does, and how it is repaired. */
module NotesSearch {
  import opened NotesTables
  import opened NotesIndex
  import opened NotesOps
  import opened NotesCoverage

  /** The notes a search for one term returns: index hits that are rows of the view. */
  function SearchHits(db: Db, w: string): set<Id> {
    set e | e in db.fts && e.term == w && e.rowid in db.t.notes :: e.rowid
  }

  /** The term is in the title, the content or a tag of the note. */
  ghost predicate HasTerm(tok: Tokenizer, t: Tables, n: Id, w: string) {
    n in t.notes && (|| w in tok(t.notes[n].title)
                     || w in tok(t.notes[n].content)
                     || exists l :: l in t.notesTags && l.src == n && l.dst in t.tags && w in tok(t.tags[l.dst]))
  }

  // ----- Runs without DeleteTag -----

  lemma NoteKeysAfter(op: Op, t: Tables)
    ensures Effect(op, t).notes.Keys ==
            if op.CreateNote? then t.notes.Keys + {NextId(t.notes.Keys)}
            else if op.DeleteNote? then t.notes.Keys - {op.id} else t.notes.Keys
  {
  }

  lemma ReplacedKey(keys: set<Id>, id: Id)
    ensures keys - {} + {id} == keys + {id}
    ensures id in keys ==> keys - {id} + {id} == keys
    ensures keys - {id} + {} == keys - {id}
    ensures keys - {} + {} == keys
  {
  }

  lemma NoteOpKeepsCoverage(op: Op, t: Tables)
    requires op.CreateNote? || op.UpdateNote? || op.DeleteNote?
    ensures CoveredAfter(op, t, t.notes.Keys) == Effect(op, t).notes.Keys
  {
    NoteKeysAfter(op, t);
    ReplacedKey(t.notes.Keys, if op.CreateNote? then NextId(t.notes.Keys) else op.id);
  }

  lemma RenamedTagKeepsCoverage(id: Id, name: string, t: Tables)
    requires Wf(t)
    ensures CoveredAfter(UpdateTag(id, name), t, t.notes.Keys) == t.notes.Keys
  {
    assert Carriers(t, id) <= t.notes.Keys;
  }

  lemma FullCoverageKept(op: Op, t: Tables)
    requires !op.DeleteTag? && Wf(t)
    ensures CoveredAfter(op, t, t.notes.Keys) == Effect(op, t).notes.Keys
  {
    if op.CreateNote? || op.UpdateNote? || op.DeleteNote? {
      NoteOpKeepsCoverage(op, t);
    } else {
      NoteKeysAfter(op, t);
      if op.UpdateTag? {
        RenamedTagKeepsCoverage(op.id, op.name, t);
      } else {
        ReplacedKey(t.notes.Keys, 0);
      }
    }
  }

  lemma CommittedAgrees(tok: Tokenizer, op: Op, db: Db)
    requires Wf(db.t) && Agree(tok, db) && Accepts(op, db.t) && !op.DeleteTag?
    ensures Agree(tok, Committed(tok, op, db))
  {
    CommittedCovers(tok, op, db, db.t.notes.Keys);
    FullCoverageKept(op, db.t);
  }

  /** Every run without DeleteTag keeps the index equal to the one rebuilt from the view. */
  lemma {:induction false} RunAgrees(tok: Tokenizer, db: Db, evs: seq<Event>)
    requires Wf(db.t) && Agree(tok, db)
    requires forall ev :: ev in evs ==> !ev.op.DeleteTag?
    ensures Agree(tok, Run(tok, db, evs))
    decreases |evs|
  {
    if evs == [] {
    } else {
      var op := evs[0].op;
      assert evs[0] in evs;
      assert forall ev :: ev in evs[1..] ==> ev in evs;
      if !evs[0].failed && Accepts(op, db.t) {
        AcceptedKeepsWf(op, db.t);
        CommittedAgrees(tok, op, db);
      }
      RunAgrees(tok, Step(tok, db, evs[0]), evs[1..]);
    }
  }

  lemma MentionsAreTerms(tok: Tokenizer, t: Tables, n: Id, w: string)
    ensures (exists column :: Mentions(tok, t, n, column, w)) <==> HasTerm(tok, t, n, w)
  {
    if HasTerm(tok, t, n, w) {
      if w in tok(t.notes[n].title) {
        assert Mentions(tok, t, n, TitleCol, w);
      } else if w in tok(t.notes[n].content) {
        assert Mentions(tok, t, n, ContentCol, w);
      } else {
        assert Mentions(tok, t, n, TagsCol, w);
      }
    }
  }

  /** While the index agrees, a term finds exactly the notes that mention it. */
  lemma AgreementMakesSearchExact(tok: Tokenizer, db: Db, w: string, n: Id)
    requires Agree(tok, db)
    ensures n in SearchHits(db, w) <==> exists column :: Mentions(tok, db.t, n, column, w)
    ensures n in SearchHits(db, w) <==> HasTerm(tok, db.t, n, w)
  {
    MentionsAreTerms(tok, db.t, n, w);
    if n in SearchHits(db, w) {
      var e :| e in db.fts && e.term == w && e.rowid == n;
      IndexOfMeans(tok, db.t, db.t.notes.Keys, e);
      assert Mentions(tok, db.t, n, e.column, w);
    }
    if column :| Mentions(tok, db.t, n, column, w) {
      var e := Entry(n, column, w);
      IndexOfMeans(tok, db.t, db.t.notes.Keys, e);
      assert e in db.fts;
    }
  }

  /** Column by column: the title, the content and the tag names of the notes, and nothing else. */
  lemma AgreementByColumn(tok: Tokenizer, db: Db, n: Id, w: string)
    requires Agree(tok, db)
    ensures Entry(n, TitleCol, w) in db.fts <==> n in db.t.notes && w in tok(db.t.notes[n].title)
    ensures Entry(n, ContentCol, w) in db.fts <==> n in db.t.notes && w in tok(db.t.notes[n].content)
    ensures Entry(n, TagsCol, w) in db.fts <==>
            n in db.t.notes
            && exists l :: l in db.t.notesTags && l.src == n && l.dst in db.t.tags && w in tok(db.t.tags[l.dst])
  {
    IndexOfMeans(tok, db.t, db.t.notes.Keys, Entry(n, TitleCol, w));
    IndexOfMeans(tok, db.t, db.t.notes.Keys, Entry(n, ContentCol, w));
    IndexOfMeans(tok, db.t, db.t.notes.Keys, Entry(n, TagsCol, w));
  }

  /** From a fresh database, after any run without DeleteTag, search is exact. */
  lemma SearchIsExactInEveryRun(tok: Tokenizer, evs: seq<Event>, w: string, n: Id)
    requires forall ev :: ev in evs ==> !ev.op.DeleteTag?
    ensures var db := Run(tok, BOOTSTRAPPED, evs);
            && (n in SearchHits(db, w) <==> HasTerm(tok, db.t, n, w))
            && (n in SearchHits(db, w) <==> exists column :: Mentions(tok, db.t, n, column, w))
  {
    assert Rebuilt(tok, BOOTSTRAPPED.t) == {};
    RunAgrees(tok, BOOTSTRAPPED, evs);
    AgreementMakesSearchExact(tok, Run(tok, BOOTSTRAPPED, evs), w, n);
  }

  // ----- Runs with DeleteTag -----

  /** Even with DeleteTag no entry is stale: a hit is always a note that mentions the term. */
  lemma NoStaleEntryInAnyRun(tok: Tokenizer, evs: seq<Event>, e: Entry)
    requires e in Run(tok, BOOTSTRAPPED, evs).fts
    ensures var t := Run(tok, BOOTSTRAPPED, evs).t;
            && Mentions(tok, t, e.rowid, e.column, e.term)
            && HasTerm(tok, t, e.rowid, e.term)
  {
    var db := Run(tok, BOOTSTRAPPED, evs);
    RunCovers(tok, BOOTSTRAPPED, evs, {});
    IndexOfMeans(tok, db.t, RunCovered(tok, BOOTSTRAPPED, evs, {}), e);
    MentionsAreTerms(tok, db.t, e.rowid, e.term);
  }

  /** The index agrees exactly when the notes it does not cover have no terms at all. */
  lemma AgreementMeansNothingMissing(tok: Tokenizer, db: Db, covered: set<Id>)
    requires Covers(tok, db, covered)
    ensures Agree(tok, db) <==> forall n :: n in db.t.notes.Keys - covered ==> NoteEntries(tok, db.t, n) == {}
  {
    forall n | n in db.t.notes.Keys - covered && NoteEntries(tok, db.t, n) != {}
      ensures !Agree(tok, db)
    {
      var e :| e in NoteEntries(tok, db.t, n);
      NoteEntriesMean(tok, db.t, n, e);
      IndexOfMeans(tok, db.t, covered, e);
      IndexOfMeans(tok, db.t, db.t.notes.Keys, e);
    }
    if forall n :: n in db.t.notes.Keys - covered ==> NoteEntries(tok, db.t, n) == {} {
      forall e: Entry
        ensures e in db.fts <==> e in Rebuilt(tok, db.t)
      {
        IndexOfMeans(tok, db.t, covered, e);
        IndexOfMeans(tok, db.t, db.t.notes.Keys, e);
        NoteEntriesMean(tok, db.t, e.rowid, e);
      }
    }
  }

  /** A carrier of the tag that has nothing else to be found by. */
  ghost predicate OnlyTag(tok: Tokenizer, t: Tables, n: Id, tag: Id)
    requires n in t.notes
  {
    && tok(t.notes[n].title) == {}
    && tok(t.notes[n].content) == {}
    && forall l :: l in t.notesTags && l.src == n && l.dst != tag && l.dst in t.tags ==> tok(t.tags[l.dst]) == {}
  }

  lemma OnlyTagLeavesNothing(tok: Tokenizer, t: Tables, n: Id, tag: Id)
    requires n in t.notes
    ensures NoteEntries(tok, Effect(DeleteTag(tag), t), n) == {} <==> OnlyTag(tok, t, n, tag)
  {
    var t' := Effect(DeleteTag(tag), t);
    if NoteEntries(tok, t', n) == {} {
      forall w
        ensures w !in tok(t.notes[n].title) && w !in tok(t.notes[n].content)
      {
        NoteEntriesMean(tok, t', n, Entry(n, TitleCol, w));
        NoteEntriesMean(tok, t', n, Entry(n, ContentCol, w));
      }
      forall l, w | l in t.notesTags && l.src == n && l.dst != tag && l.dst in t.tags
        ensures w !in tok(t.tags[l.dst])
      {
        assert l in t'.notesTags && l.dst in t'.tags;
        NoteEntriesMean(tok, t', n, Entry(n, TagsCol, w));
      }
    }
    if OnlyTag(tok, t, n, tag) {
      forall e: Entry
        ensures e !in NoteEntries(tok, t', n)
      {
        NoteEntriesMean(tok, t', n, e);
      }
    }
  }

  /** The exact effect of DeleteTag on an agreeing index: what remains is the rebuilt index of
      the notes that did not carry the tag. */
  lemma DeleteTagExactEffect(tok: Tokenizer, db: Db, tag: Id)
    requires Wf(db.t) && Agree(tok, db)
    ensures var db' := Committed(tok, DeleteTag(tag), db);
            db'.fts == IndexOf(tok, db'.t, db.t.notes.Keys - Carriers(db.t, tag))
  {
    CommittedCovers(tok, DeleteTag(tag), db, db.t.notes.Keys);
  }

  /** DeleteTag keeps the index in agreement if and only if every note carrying the tag has no
      term in its title, its content or another tag. */
  lemma DeleteTagAgreesIff(tok: Tokenizer, db: Db, tag: Id)
    requires Wf(db.t) && Agree(tok, db)
    ensures Agree(tok, Committed(tok, DeleteTag(tag), db)) <==>
            forall n :: n in Carriers(db.t, tag) ==> n in db.t.notes && OnlyTag(tok, db.t, n, tag)
  {
    var db' := Committed(tok, DeleteTag(tag), db);
    var covered := db.t.notes.Keys - Carriers(db.t, tag);
    CommittedCovers(tok, DeleteTag(tag), db, db.t.notes.Keys);
    assert covered == CoveredAfter(DeleteTag(tag), db.t, db.t.notes.Keys);
    AgreementMeansNothingMissing(tok, db', covered);
    assert db'.t.notes.Keys - covered == Carriers(db.t, tag);
    forall n | n in Carriers(db.t, tag)
      ensures n in db.t.notes
      ensures NoteEntries(tok, db'.t, n) == {} <==> OnlyTag(tok, db.t, n, tag)
    {
      OnlyTagLeavesNothing(tok, db.t, n, tag);
    }
  }

  /** The inbox with one tagged note. */
  function OneTaggedNote(title: string): Tables {
    Tables(map[1 := "01 Inbox"], map[1 := "tag"], map[1 := NoteRow(title, "", 1, false)], {Link(1, 1)}, {})
  }

  /** One tagged note with a title is enough to lose agreement. */
  lemma DeleteTagLosesANote(tok: Tokenizer, title: string, w: string)
    requires w in tok(title)
    ensures var t := OneTaggedNote(title);
            var db := Db(t, Rebuilt(tok, t));
            && Wf(t) && Agree(tok, db)
            && !Agree(tok, Committed(tok, DeleteTag(1), db))
            && 1 in SearchHits(db, w) && 1 !in SearchHits(Committed(tok, DeleteTag(1), db), w)
  {
    var t := OneTaggedNote(title);
    var db := Db(t, Rebuilt(tok, t));
    assert Carriers(t, 1) == {1} by {
      assert Link(1, 1) in t.notesTags;
    }
    DeleteTagAgreesIff(tok, db, 1);
    assert !OnlyTag(tok, t, 1, 1);
    AgreementMakesSearchExact(tok, db, w, 1);
    assert Mentions(tok, t, 1, TitleCol, w);
    DeleteTagExactEffect(tok, db, 1);
    assert t.notes.Keys - Carriers(t, 1) == {};
  }

  /** DeleteTag written to remember the carriers before the links are cascaded away. */
  function DeleteTagRecordingIds(tok: Tokenizer, tag: Id, db: Db): Db {
    var t' := Effect(DeleteTag(tag), db.t);
    var ids := Carriers(db.t, tag);
    Db(t', db.fts - IndexOf(tok, db.t, ids) + IndexOf(tok, t', ids))
  }

  lemma RecordingIdsKeepsAgreement(tok: Tokenizer, db: Db, tag: Id)
    requires Wf(db.t) && Agree(tok, db)
    ensures Agree(tok, DeleteTagRecordingIds(tok, tag, db))
  {
    var t' := Effect(DeleteTag(tag), db.t);
    var ids := Carriers(db.t, tag);
    forall n | n in db.t.notes.Keys - ids
      ensures NoteEntries(tok, db.t, n) == NoteEntries(tok, t', n)
    {
      UntouchedText(tok, DeleteTag(tag), db.t, n);
    }
    PatchedIndex(tok, db.t, t', db.t.notes.Keys, ids, ids);
    assert db.t.notes.Keys - ids + ids == t'.notes.Keys;
  }

  /** After any run whatsoever, saving a note again makes it findable by all of its text. */
  lemma UpdateNoteRepairs(tok: Tokenizer, evs: seq<Event>, op: Op, column: Column, w: string)
    requires op.UpdateNote?
    requires var db := Run(tok, BOOTSTRAPPED, evs); op.id in db.t.notes && Accepts(op, db.t)
    ensures var db' := Run(tok, BOOTSTRAPPED, evs + [Event(op, false)]);
            Entry(op.id, column, w) in db'.fts <==> Mentions(tok, db'.t, op.id, column, w)
  {
    var db := Run(tok, BOOTSTRAPPED, evs);
    var covered := RunCovered(tok, BOOTSTRAPPED, evs, {});
    RunCovers(tok, BOOTSTRAPPED, evs, {});
    RunKeepsWf(tok, BOOTSTRAPPED, evs);
    CommittedCovers(tok, op, db, covered);
    RunAppend(tok, BOOTSTRAPPED, evs, Event(op, false));
    IndexOfMeans(tok, Effect(op, db.t), CoveredAfter(op, db.t, covered), Entry(op.id, column, w));
  }
}
