/** The write methods of the notes store. Each runs its statements in a transaction; what it
    leaves behind is the committed operation of NotesOps or nothing at all. */
module NotesTransactions {
  import opened Collections
  import opened NotesTables
  import opened NotesIndex
  import opened NotesOps
  import opened NotesStore
  import opened NotesCoverage
  import opened NotesSearch
  import opened NotesEffects

  /** The argument list of a multi-row INSERT. */
  method LinkRows(src: Id, ids: seq<Id>) returns (rows: seq<Link>)
    ensures |rows| == |ids| && forall i :: 0 <= i < |ids| ==> rows[i] == Link(src, ids[i])
  {
    rows := [];
    for i := 0 to |ids|
      invariant |rows| == i && forall k :: 0 <= k < i ==> rows[k] == Link(src, ids[k])
    {
      rows := rows + [Link(src, ids[i])];
    }
  }

  lemma RowsAreLinkable(links: set<Link>, src: Id, ids: seq<Id>, rows: seq<Link>, srcs: set<Id>, dsts: set<Id>)
    requires |rows| == |ids| && forall i :: 0 <= i < |ids| ==> rows[i] == Link(src, ids[i])
    requires src in srcs && forall l :: l in links ==> l.src != src
    ensures InsertableRows(links, rows, srcs, dsts) <==> Linkable(ids, dsts)
    ensures Elems(rows) == LinksFrom(src, ids)
  {
  }

  /** The body of a transaction ran: on success the operation is in place, and without outside
      faults it fails only where the constraints refuse it. */
  ghost predicate Prepared(tok: Tokenizer, op: Op, before: Db, after: Db, ok: bool, faults: set<nat>) {
    && (ok ==> Accepts(op, before.t) && after == Committed(tok, op, before))
    && (faults == {} && !ok ==> !Accepts(op, before.t))
  }

  /** A store method returned: the operation is committed, or nothing has changed. */
  ghost predicate Performs(tok: Tokenizer, op: Op, before: Db, after: Db, ok: bool, faults: set<nat>) {
    && (ok ==> Accepts(op, before.t))
    && after == (if ok then Committed(tok, op, before) else before)
    && (faults == {} ==> (ok <==> Accepts(op, before.t)))
  }

  /** Which is one event of a run. */
  lemma PerformedIsAStep(tok: Tokenizer, op: Op, before: Db, after: Db, ok: bool, faults: set<nat>)
    requires Performs(tok, op, before, after, ok, faults)
    ensures after == Step(tok, before, Event(op, !ok))
  {
  }

  class Store {
    const tok: Tokenizer
    var db: Db

    ghost predicate Valid()
      reads this
    {
      Wf(db.t) && SplitsAtSpaces(tok)
    }

    constructor (tok: Tokenizer)
      requires SplitsAtSpaces(tok)
      ensures Valid() && this.tok == tok && db == BOOTSTRAPPED
    {
      this.tok, this.db := tok, BOOTSTRAPPED;
    }

    /** The end of WithTransaction: roll back what failed, commit the rest. */
    method End<T>(tx: Tx, r: Result<T>) returns (res: Result<T>)
      modifies this`db, tx`statements
      ensures db == if res.Ok? then tx.db else old(db)
      ensures res.Ok? ==> res == r
      ensures tx.faults == {} && r.Ok? ==> res.Ok?
    {
      if r.Err? {
        return Err;
      }
      var ok := tx.Attempt();
      if !ok {
        return Err;
      }
      db := tx.db;
      return r;
    }

    /** The links of a note that has none, if any are given. */
    method AddTagLinks(tx: Tx, id: Id, tagIds: seq<Id>) returns (ok: bool)
      requires forall l :: l in tx.db.t.notesTags ==> l.src != id
      modifies tx
      ensures !ok ==> tx.db == old(tx.db)
      ensures ok ==> tx.db == old(tx.db).(t := old(tx.db).t.(notesTags :=
                                                old(tx.db).t.notesTags + LinksFrom(id, tagIds)))
      ensures ok ==> tagIds == [] || (id in tx.db.t.notes && Linkable(tagIds, tx.db.t.tags.Keys))
      ensures tx.faults == {} && !ok ==> !(id in tx.db.t.notes && Linkable(tagIds, tx.db.t.tags.Keys)) && tagIds != []
    {
      if |tagIds| == 0 {
        assert tx.db.t.notesTags + LinksFrom(id, tagIds) == tx.db.t.notesTags;
        return true;
      }
      var rows := LinkRows(id, tagIds);
      LinkableIffPresent(tx.db.t.notesTags, id, tagIds, rows, tx.db.t.notes.Keys, tx.db.t.tags.Keys);
      ok := tx.InsertTagLinks(rows);
    }

    method AddRefs(tx: Tx, id: Id, refIds: seq<Id>) returns (ok: bool)
      requires forall l :: l in tx.db.t.refs ==> l.src != id
      modifies tx
      ensures !ok ==> tx.db == old(tx.db)
      ensures ok ==> tx.db == old(tx.db).(t := old(tx.db).t.(refs := old(tx.db).t.refs + LinksFrom(id, refIds)))
      ensures ok ==> refIds == [] || (id in tx.db.t.notes && Linkable(refIds, tx.db.t.notes.Keys))
      ensures tx.faults == {} && !ok ==> !(id in tx.db.t.notes && Linkable(refIds, tx.db.t.notes.Keys)) && refIds != []
    {
      if |refIds| == 0 {
        assert tx.db.t.refs + LinksFrom(id, refIds) == tx.db.t.refs;
        return true;
      }
      var rows := LinkRows(id, refIds);
      LinkableIffPresent(tx.db.t.refs, id, refIds, rows, tx.db.t.notes.Keys, tx.db.t.notes.Keys);
      ok := tx.InsertRefs(rows);
    }

    /** The rows of a new note, without the index. */
    method CreateNoteRows(tx: Tx, title: string, content: string, section: Id, tagIds: seq<Id>, refIds: seq<Id>)
      returns (r: Result<Id>)
      requires Wf(tx.db.t)
      modifies tx
      ensures var op := Op.CreateNote(title, content, section, tagIds, refIds);
              && (r.Ok? ==> Accepts(op, old(tx.db).t) && tx.db == old(tx.db).(t := Effect(op, old(tx.db).t))
                            && r.value == NextId(old(tx.db).t.notes.Keys))
              && (tx.faults == {} && r.Err? ==> !Accepts(op, old(tx.db).t))
    {
      ghost var before := tx.db;
      var inserted := tx.InsertNote(title, content, section);
      if inserted.Err? {
        return Err;
      }
      var nid := inserted.value;
      assert tx.db.t.notes.Keys == before.t.notes.Keys + {nid};
      var ok := AddTagLinks(tx, nid, tagIds);
      if !ok {
        return Err;
      }
      ok := AddRefs(tx, nid, refIds);
      if !ok {
        return Err;
      }
      return Ok(nid);
    }

    method CreateNoteIn(tx: Tx, title: string, content: string, section: Id, tagIds: seq<Id>, refIds: seq<Id>)
      returns (r: Result<Id>)
      requires Wf(tx.db.t) && SplitsAtSpaces(tx.tok)
      modifies tx
      ensures Prepared(tx.tok, Op.CreateNote(title, content, section, tagIds, refIds), old(tx.db), tx.db, r.Ok?,
                       tx.faults)
      ensures r.Ok? ==> r.value == NextId(old(tx.db).t.notes.Keys)
    {
      var ok := tx.Attempt();
      if !ok {
        return Err;
      }
      ghost var before := tx.db;
      r := CreateNoteRows(tx, title, content, section, tagIds, refIds);
      if r.Err? {
        return;
      }
      var docs := tx.SelectById(r.value);
      ok := tx.InsertDocs(docs);
      if !ok {
        return Err;
      }
      SingleIndex(tx.tok, before.t, r.value);
    }

    method CreateNote(title: string, content: string, section: Id, tagIds: seq<Id>, refIds: seq<Id>, faults: set<nat>)
      returns (r: Result<Id>)
      requires Valid()
      modifies this`db
      ensures Valid()
      ensures Performs(tok, Op.CreateNote(title, content, section, tagIds, refIds), old(db), db, r.Ok?, faults)
      ensures r.Err? ==> db == old(db)
      ensures Agree(tok, old(db)) ==> Agree(tok, db)
      ensures r.Ok? ==>
                var t, t' := old(db).t, db.t;
                && r.value == NextId(t.notes.Keys)
                && t'.sections == t.sections && t'.tags == t.tags
                && t'.notes == t.notes[r.value := NoteRow(title, content, section, false)]
                && (forall l :: l in t'.notesTags <==> l in t.notesTags || (l.src == r.value && l.dst in tagIds))
                && (forall l :: l in t'.refs <==> l in t.refs || (l.src == r.value && l.dst in refIds))
      ensures faults == {} ==>
                var t := old(db).t;
                (r.Ok? <==> && section in t.sections && (forall n :: n in t.notes ==> t.notes[n].title != title)
                            && NoDup(tagIds) && (forall x :: x in tagIds ==> x in t.tags)
                            && NoDup(refIds) && forall x :: x in refIds ==> x in t.notes || x == NextId(t.notes.Keys))
      ensures r.Ok? && Agree(tok, old(db)) ==>
                forall w :: r.value in SearchHits(db, w) <==>
                              || w in tok(title) || w in tok(content)
                              || exists x :: x in tagIds && x in db.t.tags && w in tok(db.t.tags[x])
    {
      var tx := new Tx(tok, db, faults);
      r := CreateNoteIn(tx, title, content, section, tagIds, refIds);
      r := End(tx, r);
      ghost var op := Op.CreateNote(title, content, section, tagIds, refIds);
      CreateNoteAccepted(op, old(db).t);
      if r.Ok? {
        AcceptedKeepsWf(op, old(db).t);
        if Agree(tok, old(db)) {
          CommittedAgrees(tok, op, old(db));
          forall w {
            SavedNoteIsFound(tok, db, r.value, title, content, tagIds, w);
          }
        }
      }
    }

    method UpdateNoteIn(tx: Tx, id: Id, title: string, content: string, section: Id, tagIds: seq<Id>, refIds: seq<Id>)
      returns (r: Result<()>)
      requires Wf(tx.db.t) && SplitsAtSpaces(tx.tok)
      modifies tx
      ensures Prepared(tx.tok, Op.UpdateNote(id, title, content, section, tagIds, refIds), old(tx.db), tx.db, r.Ok?,
                       tx.faults)
    {
      var ok := tx.Attempt();
      if !ok {
        return Err;
      }
      ghost var before := tx.db;
      ghost var op := Op.UpdateNote(id, title, content, section, tagIds, refIds);
      var docs := tx.SelectById(id);
      ok := tx.DeleteDocs(docs);
      if !ok {
        return Err;
      }
      ok := tx.UpdateNoteRow(id, title, content, section);
      if !ok {
        return Err;
      }
      assert tx.db.t.notes.Keys == before.t.notes.Keys;

      ok := tx.Rewrite(tx.db.t.(notesTags := WithoutSrc(tx.db.t.notesTags, id)));
      if !ok {
        return Err;
      }
      ok := AddTagLinks(tx, id, tagIds);
      if !ok {
        return Err;
      }
      ok := tx.Rewrite(tx.db.t.(refs := WithoutSrc(tx.db.t.refs, id)));
      if !ok {
        return Err;
      }
      ok := AddRefs(tx, id, refIds);
      if !ok {
        return Err;
      }
      assert Accepts(op, before.t);
      assert tx.db.t == Effect(op, before.t) by {
        if id !in before.t.notes {
          assert WithoutSrc(before.t.notesTags, id) == before.t.notesTags;
          assert WithoutSrc(before.t.refs, id) == before.t.refs;
        }
      }
      docs := tx.SelectById(id);
      ok := tx.InsertDocs(docs);
      if !ok {
        return Err;
      }
      SingleIndex(tx.tok, before.t, id);
      SingleIndex(tx.tok, tx.db.t, id);
      return Ok(());
    }

    method UpdateNote(id: Id, title: string, content: string, section: Id, tagIds: seq<Id>, refIds: seq<Id>,
                      faults: set<nat>)
      returns (r: Result<()>)
      requires Valid()
      modifies this`db
      ensures Valid()
      ensures Performs(tok, Op.UpdateNote(id, title, content, section, tagIds, refIds), old(db), db, r.Ok?, faults)
      ensures r.Err? ==> db == old(db)
      ensures Agree(tok, old(db)) ==> Agree(tok, db)
      ensures r.Ok? && id !in old(db).t.notes ==> db == old(db)
      ensures r.Ok? && id in old(db).t.notes ==>
                var t, t' := old(db).t, db.t;
                && t'.sections == t.sections && t'.tags == t.tags
                && t'.notes == t.notes[id := NoteRow(title, content, section, t.notes[id].bookmark)]
                && (forall l :: l in t'.notesTags <==> if l.src == id then l.dst in tagIds else l in t.notesTags)
                && (forall l :: l in t'.refs <==> if l.src == id then l.dst in refIds else l in t.refs)
      ensures faults == {} ==>
                var t := old(db).t;
                (r.Ok? <==> if id !in t.notes then tagIds == [] && refIds == []
                            else && section in t.sections
                                 && (forall n :: n in t.notes && n != id ==> t.notes[n].title != title)
                                 && NoDup(tagIds) && (forall x :: x in tagIds ==> x in t.tags)
                                 && NoDup(refIds) && forall x :: x in refIds ==> x in t.notes)
      ensures r.Ok? && Agree(tok, old(db)) && id in old(db).t.notes ==>
                forall w :: id in SearchHits(db, w) <==>
                              || w in tok(title) || w in tok(content)
                              || exists x :: x in tagIds && x in db.t.tags && w in tok(db.t.tags[x])
    {
      var tx := new Tx(tok, db, faults);
      r := UpdateNoteIn(tx, id, title, content, section, tagIds, refIds);
      r := End(tx, r);
      ghost var op := Op.UpdateNote(id, title, content, section, tagIds, refIds);
      UpdateNoteAccepted(op, old(db).t);
      if r.Ok? {
        AcceptedKeepsWf(op, old(db).t);
        MissingNoteUpdated(tok, op, old(db));
        if Agree(tok, old(db)) {
          CommittedAgrees(tok, op, old(db));
          forall w | id in old(db).t.notes {
            SavedNoteIsFound(tok, db, id, title, content, tagIds, w);
          }
        }
      }
    }

    method DeleteNote(id: Id, faults: set<nat>) returns (r: Result<()>)
      requires Valid()
      modifies this`db
      ensures Valid()
      ensures Performs(tok, Op.DeleteNote(id), old(db), db, r.Ok?, faults)
      ensures r.Err? ==> db == old(db)
      ensures Agree(tok, old(db)) ==> Agree(tok, db)
      ensures r.Ok? ==>
                var t, t' := old(db).t, db.t;
                && t'.sections == t.sections && t'.tags == t.tags && t'.notes == t.notes - {id}
                && (forall l :: l in t'.notesTags <==> l in t.notesTags && l.src != id)
                && (forall l :: l in t'.refs <==> l in t.refs && l.src != id && l.dst != id)
      ensures faults == {} ==> r.Ok?
      ensures r.Ok? && Agree(tok, old(db)) ==> forall e :: e in db.fts <==> e in old(db).fts && e.rowid != id
    {
      var tx := new Tx(tok, db, faults);
      r := DeleteNoteIn(tx, id);
      r := End(tx, r);
      if r.Ok? {
        AcceptedKeepsWf(Op.DeleteNote(id), old(db).t);
        if Agree(tok, old(db)) {
          CommittedAgrees(tok, Op.DeleteNote(id), old(db));
          DeletedNoteLeavesTheRest(tok, old(db), id);
        }
      }
    }

    method DeleteNoteIn(tx: Tx, id: Id) returns (r: Result<()>)
      requires Wf(tx.db.t) && SplitsAtSpaces(tx.tok)
      modifies tx
      ensures Prepared(tx.tok, Op.DeleteNote(id), old(tx.db), tx.db, r.Ok?, tx.faults)
    {
      var ok := tx.Attempt();
      if !ok {
        return Err;
      }
      ghost var before := tx.db;
      var docs := tx.SelectById(id);
      ok := tx.DeleteDocs(docs);
      if !ok {
        return Err;
      }
      var t := tx.db.t;
      ok := tx.Rewrite(t.(notes := t.notes - {id}, notesTags := WithoutSrc(t.notesTags, id),
                          refs := Without(t.refs, id)));
      if !ok {
        return Err;
      }
      SingleIndex(tx.tok, tx.db.t, id);
      return Ok(());
    }

    method SetNoteBookmark(id: Id, bookmark: bool, faults: set<nat>) returns (r: Result<()>)
      requires Valid()
      modifies this`db
      ensures Valid()
      ensures Performs(tok, Op.SetNoteBookmark(id, bookmark), old(db), db, r.Ok?, faults)
      ensures r.Err? ==> db == old(db)
      ensures Agree(tok, old(db)) ==> Agree(tok, db)
      ensures db.fts == old(db).fts
      ensures r.Ok? && id !in old(db).t.notes ==> db == old(db)
      ensures r.Ok? && id in old(db).t.notes ==>
                db.t == old(db).t.(notes := old(db).t.notes[id := old(db).t.notes[id].(bookmark := bookmark)])
      ensures faults == {} ==> r.Ok?
    {
      var tx := new Tx(tok, db, faults);
      var ok := tx.Attempt();
      if !ok {
        return Err;
      }
      if id in db.t.notes {
        db := db.(t := db.t.(notes := db.t.notes[id := db.t.notes[id].(bookmark := bookmark)]));
      }
      QuietCommit(tok, Op.SetNoteBookmark(id, bookmark), old(db));
      return Ok(());
    }

    // ----- Tags -----

    method CreateTag(name: string, faults: set<nat>) returns (r: Result<Id>)
      requires Valid()
      modifies this`db
      ensures Valid()
      ensures Performs(tok, Op.CreateTag(name), old(db), db, r.Ok?, faults)
      ensures r.Err? ==> db == old(db)
      ensures Agree(tok, old(db)) ==> Agree(tok, db)
      ensures db.fts == old(db).fts
      ensures r.Ok? ==>
                && r.value == NextId(old(db).t.tags.Keys)
                && db.t == old(db).t.(tags := old(db).t.tags[r.value := name])
      ensures faults == {} ==> (r.Ok? <==> forall k :: k in old(db).t.tags ==> old(db).t.tags[k] != name)
    {
      var tx := new Tx(tok, db, faults);
      var ok := tx.Attempt();
      if !ok || exists k :: k in db.t.tags && db.t.tags[k] == name {
        return Err;
      }
      var id := NextId(db.t.tags.Keys);
      db := db.(t := db.t.(tags := db.t.tags[id := name]));
      QuietCommit(tok, Op.CreateTag(name), old(db));
      return Ok(id);
    }

    method UpdateTagIn(tx: Tx, id: Id, name: string) returns (r: Result<()>)
      requires Wf(tx.db.t) && SplitsAtSpaces(tx.tok)
      modifies tx
      ensures Prepared(tx.tok, Op.UpdateTag(id, name), old(tx.db), tx.db, r.Ok?, tx.faults)
    {
      var ok := tx.Attempt();
      if !ok {
        return Err;
      }
      ghost var before := tx.db;
      var docs := tx.SelectByTag(id);
      ok := tx.DeleteDocs(docs);
      if !ok {
        return Err;
      }
      if id in tx.db.t.tags {
        if exists k :: k in tx.db.t.tags && k != id && tx.db.t.tags[k] == name {
          return Err;
        }
        ok := tx.Rewrite(tx.db.t.(tags := tx.db.t.tags[id := name]));
      } else {
        ok := tx.Attempt();
      }
      if !ok {
        return Err;
      }
      AcceptedKeepsWf(Op.UpdateTag(id, name), before.t);
      docs := tx.SelectByTag(id);
      ok := tx.InsertDocs(docs);
      if !ok {
        return Err;
      }
      return Ok(());
    }

    method UpdateTag(id: Id, name: string, faults: set<nat>) returns (r: Result<()>)
      requires Valid()
      modifies this`db
      ensures Valid()
      ensures Performs(tok, Op.UpdateTag(id, name), old(db), db, r.Ok?, faults)
      ensures r.Err? ==> db == old(db)
      ensures Agree(tok, old(db)) ==> Agree(tok, db)
      ensures r.Ok? && id !in old(db).t.tags ==> db.t == old(db).t
      ensures r.Ok? && id in old(db).t.tags ==> db.t == old(db).t.(tags := old(db).t.tags[id := name])
      ensures faults == {} ==>
                (r.Ok? <==> id in old(db).t.tags ==>
                              forall k :: k in old(db).t.tags && k != id ==> old(db).t.tags[k] != name)
      ensures r.Ok? && Agree(tok, old(db)) && id in old(db).t.tags ==>
                forall n, w :: n in SearchHits(db, w) <==> HasTermRenamed(tok, old(db).t, id, name, n, w)
    {
      var tx := new Tx(tok, db, faults);
      r := UpdateTagIn(tx, id, name);
      r := End(tx, r);
      if r.Ok? {
        AcceptedKeepsWf(Op.UpdateTag(id, name), old(db).t);
        if Agree(tok, old(db)) {
          CommittedAgrees(tok, Op.UpdateTag(id, name), old(db));
          if id in old(db).t.tags {
            RenameIsFound(tok, old(db).t, db, id, name);
          }
        }
      }
    }

    /** The second selection joins through links the delete has cascaded away and finds nothing. */
    method DeleteTagIn(tx: Tx, id: Id) returns (r: Result<()>)
      requires Wf(tx.db.t) && SplitsAtSpaces(tx.tok)
      modifies tx
      ensures Prepared(tx.tok, Op.DeleteTag(id), old(tx.db), tx.db, r.Ok?, tx.faults)
    {
      var ok := tx.Attempt();
      if !ok {
        return Err;
      }
      ghost var before := tx.db;
      var docs := tx.SelectByTag(id);
      ok := tx.DeleteDocs(docs);
      if !ok {
        return Err;
      }
      var t := tx.db.t;
      ok := tx.Rewrite(t.(tags := t.tags - {id}, notesTags := WithoutDst(t.notesTags, id)));
      if !ok {
        return Err;
      }
      AcceptedKeepsWf(Op.DeleteTag(id), before.t);
      docs := tx.SelectByTag(id);
      ok := tx.InsertDocs(docs);
      if !ok {
        return Err;
      }
      assert Carriers(tx.db.t, id) == {};
      return Ok(());
    }

    method DeleteTag(id: Id, faults: set<nat>) returns (r: Result<()>)
      requires Valid()
      modifies this`db
      ensures Valid()
      ensures Performs(tok, Op.DeleteTag(id), old(db), db, r.Ok?, faults)
      ensures r.Err? ==> db == old(db)
      ensures r.Ok? ==>
                var t, t' := old(db).t, db.t;
                && t'.sections == t.sections && t'.notes == t.notes && t'.refs == t.refs && t'.tags == t.tags - {id}
                && (forall l :: l in t'.notesTags <==> l in t.notesTags && l.dst != id)
      ensures faults == {} ==> r.Ok?
      ensures r.Ok? && Agree(tok, old(db)) ==>
                forall n, w :: n in SearchHits(db, w) <==>
                                 HasTerm(tok, old(db).t, n, w) && Link(n, id) !in old(db).t.notesTags
    {
      var tx := new Tx(tok, db, faults);
      r := DeleteTagIn(tx, id);
      r := End(tx, r);
      if r.Ok? {
        AcceptedKeepsWf(Op.DeleteTag(id), old(db).t);
        if Agree(tok, old(db)) {
          forall n, w {
            DeletedTagLosesCarriers(tok, old(db), id, n, w);
          }
        }
      }
    }

    // ----- Sections -----

    method CreateSection(name: string, faults: set<nat>) returns (r: Result<Id>)
      requires Valid()
      modifies this`db
      ensures Valid()
      ensures Performs(tok, Op.CreateSection(name), old(db), db, r.Ok?, faults)
      ensures r.Err? ==> db == old(db)
      ensures Agree(tok, old(db)) ==> Agree(tok, db)
      ensures db.fts == old(db).fts
      ensures r.Ok? ==>
                && r.value == NextId(old(db).t.sections.Keys)
                && db.t == old(db).t.(sections := old(db).t.sections[r.value := name])
      ensures faults == {} ==> (r.Ok? <==> forall k :: k in old(db).t.sections ==> old(db).t.sections[k] != name)
    {
      var tx := new Tx(tok, db, faults);
      var ok := tx.Attempt();
      if !ok || exists k :: k in db.t.sections && db.t.sections[k] == name {
        return Err;
      }
      var id := NextId(db.t.sections.Keys);
      db := db.(t := db.t.(sections := db.t.sections[id := name]));
      QuietCommit(tok, Op.CreateSection(name), old(db));
      return Ok(id);
    }

    method UpdateSection(id: Id, name: string, faults: set<nat>) returns (r: Result<()>)
      requires Valid()
      modifies this`db
      ensures Valid()
      ensures Performs(tok, Op.UpdateSection(id, name), old(db), db, r.Ok?, faults)
      ensures r.Err? ==> db == old(db)
      ensures Agree(tok, old(db)) ==> Agree(tok, db)
      ensures db.fts == old(db).fts
      ensures r.Ok? && id !in old(db).t.sections ==> db == old(db)
      ensures r.Ok? && id in old(db).t.sections ==> db.t == old(db).t.(sections := old(db).t.sections[id := name])
      ensures faults == {} ==>
                (r.Ok? <==> id in old(db).t.sections ==>
                              forall k :: k in old(db).t.sections && k != id ==> old(db).t.sections[k] != name)
    {
      var tx := new Tx(tok, db, faults);
      var ok := tx.Attempt();
      if !ok || (id in db.t.sections && exists k :: k in db.t.sections && k != id && db.t.sections[k] == name) {
        return Err;
      }
      if id in db.t.sections {
        db := db.(t := db.t.(sections := db.t.sections[id := name]));
      }
      QuietCommit(tok, Op.UpdateSection(id, name), old(db));
      return Ok(());
    }

    /** ON DELETE RESTRICT: a section in use cannot go. */
    method DeleteSection(id: Id, faults: set<nat>) returns (r: Result<()>)
      requires Valid()
      modifies this`db
      ensures Valid()
      ensures Performs(tok, Op.DeleteSection(id), old(db), db, r.Ok?, faults)
      ensures r.Err? ==> db == old(db)
      ensures Agree(tok, old(db)) ==> Agree(tok, db)
      ensures db.fts == old(db).fts
      ensures r.Ok? ==> db.t == old(db).t.(sections := old(db).t.sections - {id})
      ensures faults == {} ==> (r.Ok? <==> forall n :: n in old(db).t.notes ==> old(db).t.notes[n].section != id)
    {
      var tx := new Tx(tok, db, faults);
      var ok := tx.Attempt();
      if !ok || exists n :: n in db.t.notes && db.t.notes[n].section == id {
        return Err;
      }
      db := db.(t := db.t.(sections := db.t.sections - {id}));
      QuietCommit(tok, Op.DeleteSection(id), old(db));
      return Ok(());
    }

    // ----- Runs -----

    /** Any write, by its operation. */
    method Perform(op: Op, faults: set<nat>) returns (ok: bool)
      requires Valid()
      modifies this`db
      ensures Valid()
      ensures Performs(tok, op, old(db), db, ok, faults)
    {
      match op
      case CreateNote(title, content, section, tagIds, refIds) =>
        var r := CreateNote(title, content, section, tagIds, refIds, faults);
        ok := r.Ok?;
      case UpdateNote(id, title, content, section, tagIds, refIds) =>
        var r := UpdateNote(id, title, content, section, tagIds, refIds, faults);
        ok := r.Ok?;
      case DeleteNote(id) => var r := DeleteNote(id, faults); ok := r.Ok?;
      case SetNoteBookmark(id, bookmark) => var r := SetNoteBookmark(id, bookmark, faults); ok := r.Ok?;
      case CreateTag(name) => var r := CreateTag(name, faults); ok := r.Ok?;
      case UpdateTag(id, name) => var r := UpdateTag(id, name, faults); ok := r.Ok?;
      case DeleteTag(id) => var r := DeleteTag(id, faults); ok := r.Ok?;
      case CreateSection(name) => var r := CreateSection(name, faults); ok := r.Ok?;
      case UpdateSection(id, name) => var r := UpdateSection(id, name, faults); ok := r.Ok?;
      case DeleteSection(id) => var r := DeleteSection(id, faults); ok := r.Ok?;
    }

    /** Whatever is called in whatever order, and whatever fails, is a run: the theorems about runs
        are about the methods. */
    method PerformAll(ops: seq<Op>, faultss: seq<set<nat>>) returns (oks: seq<bool>)
      requires Valid() && |faultss| == |ops|
      modifies this`db
      ensures Valid() && |oks| == |ops|
      ensures db == Run(tok, old(db), Events(ops, oks))
      ensures forall i :: 0 <= i < |ops| && faultss[i] == {} ==>
                            (oks[i] <==> Accepts(ops[i], Run(tok, old(db), Events(ops[..i], oks[..i])).t))
    {
      oks := [];
      for i := 0 to |ops|
        invariant Valid() && |oks| == i
        invariant db == Run(tok, old(db), Events(ops[..i], oks))
        invariant forall k :: 0 <= k < i && faultss[k] == {} ==>
                                (oks[k] <==> Accepts(ops[k], Run(tok, old(db), Events(ops[..k], oks[..k])).t))
      {
        ghost var before := db;
        var ok := Perform(ops[i], faultss[i]);
        PerformedIsAStep(tok, ops[i], before, db, ok, faultss[i]);
        RunAppend(tok, old(db), Events(ops[..i], oks), Event(ops[i], !ok));
        assert Events(ops[..i + 1], oks + [ok]) == Events(ops[..i], oks) + [Event(ops[i], !ok)];
        assert (oks + [ok])[..i] == oks;
        assert forall k :: 0 <= k < i ==> (oks + [ok])[..k] == oks[..k];
        oks := oks + [ok];
      }
      assert ops[..|ops|] == ops;
    }
  }

  /** The events of some calls: a call that reports an error has changed nothing. */
  function Events(ops: seq<Op>, oks: seq<bool>): seq<Event>
    requires |oks| == |ops|
  {
    seq(|ops|, i requires 0 <= i < |ops| => Event(ops[i], !oks[i]))
  }

  /** Rows for a note that has just been cleared of links: they need the note itself to exist. */
  lemma LinkableIffPresent(links: set<Link>, src: Id, ids: seq<Id>, rows: seq<Link>, srcs: set<Id>, dsts: set<Id>)
    requires |rows| == |ids| && forall i :: 0 <= i < |ids| ==> rows[i] == Link(src, ids[i])
    requires forall l :: l in links ==> l.src != src
    requires |ids| > 0
    ensures InsertableRows(links, rows, srcs, dsts) <==> src in srcs && Linkable(ids, dsts)
    ensures Elems(rows) == LinksFrom(src, ids)
  {
    RowsAreLinkable(links, src, ids, rows, srcs + {src}, dsts);
    assert rows[0] in rows;
    if src in srcs {
      assert srcs + {src} == srcs;
    }
  }
}
