/** What each write of the notes store does to the tables and to the index when it commits, and
    exactly when it can. The methods of NotesStore, statement by statement, are proved against this. */
module NotesOps {
  import opened Collections
  import opened NotesTables
  import opened NotesIndex

  datatype Op =
    | CreateNote(title: string, content: string, section: Id, tagIds: seq<Id>, refIds: seq<Id>)
    | UpdateNote(id: Id, title: string, content: string, section: Id, tagIds: seq<Id>, refIds: seq<Id>)
    | DeleteNote(id: Id)
    | SetNoteBookmark(id: Id, bookmark: bool)
    | CreateTag(name: string)
    | UpdateTag(id: Id, name: string)
    | DeleteTag(id: Id)
    | CreateSection(name: string)
    | UpdateSection(id: Id, name: string)
    | DeleteSection(id: Id)

  datatype Db = Db(t: Tables, fts: set<Entry>)

  /** name can be given to row k without breaking the UNIQUE constraint. */
  ghost predicate Free(names: map<Id, string>, k: Id, name: string) {
    forall other :: other in names && other != k ==> names[other] != name
  }

  ghost predicate Linkable(ids: seq<Id>, into: set<Id>) {
    NoDup(ids) && forall x :: x in ids ==> x in into
  }

  function LinksFrom(src: Id, ids: seq<Id>): set<Link> {
    set x | x in ids :: Link(src, x)
  }

  function Without(links: set<Link>, n: Id): set<Link> {
    set l | l in links && l.src != n && l.dst != n
  }

  function WithoutSrc(links: set<Link>, n: Id): set<Link> {
    set l | l in links && l.src != n
  }

  function WithoutDst(links: set<Link>, n: Id): set<Link> {
    set l | l in links && l.dst != n
  }

  /** The constraints of the schema let the operation through. */
  ghost predicate Accepts(op: Op, t: Tables) {
    match op
    case CreateNote(title, _, section, tagIds, refIds) =>
      var nid := NextId(t.notes.Keys);
      && Free(Titles(t.notes), nid, title) && section in t.sections
      && Linkable(tagIds, t.tags.Keys) && Linkable(refIds, t.notes.Keys + {nid})
    case UpdateNote(id, title, _, section, tagIds, refIds) =>
      if id in t.notes then
        && Free(Titles(t.notes), id, title) && section in t.sections
        && Linkable(tagIds, t.tags.Keys) && Linkable(refIds, t.notes.Keys)
      else tagIds == [] && refIds == []
    case CreateTag(name) => Free(t.tags, NextId(t.tags.Keys), name)
    case UpdateTag(id, name) => id in t.tags ==> Free(t.tags, id, name)
    case CreateSection(name) => Free(t.sections, NextId(t.sections.Keys), name)
    case UpdateSection(id, name) => id in t.sections ==> Free(t.sections, id, name)
    case DeleteSection(id) => forall n :: n in t.notes ==> t.notes[n].section != id
    case _ => true
  }

  function Effect(op: Op, t: Tables): Tables {
    match op
    case CreateNote(title, content, section, tagIds, refIds) =>
      var nid := NextId(t.notes.Keys);
      t.(notes := t.notes[nid := NoteRow(title, content, section, false)],
      notesTags := t.notesTags + LinksFrom(nid, tagIds),
      refs := t.refs + LinksFrom(nid, refIds))
    case UpdateNote(id, title, content, section, tagIds, refIds) =>
      if id in t.notes then
        t.(notes := t.notes[id := NoteRow(title, content, section, t.notes[id].bookmark)],
        notesTags := WithoutSrc(t.notesTags, id) + LinksFrom(id, tagIds),
        refs := WithoutSrc(t.refs, id) + LinksFrom(id, refIds))
      else t
    case DeleteNote(id) =>
      t.(notes := t.notes - {id}, notesTags := WithoutSrc(t.notesTags, id), refs := Without(t.refs, id))
    case SetNoteBookmark(id, bookmark) =>
      if id in t.notes then t.(notes := t.notes[id := t.notes[id].(bookmark := bookmark)]) else t
    case CreateTag(name) => t.(tags := t.tags[NextId(t.tags.Keys) := name])
    case UpdateTag(id, name) => if id in t.tags then t.(tags := t.tags[id := name]) else t
    case DeleteTag(id) => t.(tags := t.tags - {id}, notesTags := WithoutDst(t.notesTags, id))
    case CreateSection(name) => t.(sections := t.sections[NextId(t.sections.Keys) := name])
    case UpdateSection(id, name) => if id in t.sections then t.(sections := t.sections[id := name]) else t
    case DeleteSection(id) => t.(sections := t.sections - {id})
  }

  /** The notes whose old text an operation takes out of the index. */
  function Dropped(op: Op, t: Tables): set<Id> {
    match op
    case UpdateNote(id, _, _, _, _, _) => if id in t.notes then {id} else {}
    case DeleteNote(id) => {id}
    case UpdateTag(id, _) => Carriers(t, id)
    case DeleteTag(id) => Carriers(t, id)
    case _ => {}
  }

  /** The notes whose new text it puts in: for DeleteTag none, the links it would find them by
      being gone. */
  function Inserted(op: Op, t: Tables): set<Id> {
    match op
    case CreateNote(_, _, _, _, _) => {NextId(t.notes.Keys)}
    case UpdateNote(id, _, _, _, _, _) => if id in t.notes then {id} else {}
    case UpdateTag(id, _) => Carriers(t, id)
    case _ => {}
  }

  function Reindexed(tok: Tokenizer, op: Op, db: Db): set<Entry> {
    db.fts - IndexOf(tok, db.t, Dropped(op, db.t)) + IndexOf(tok, Effect(op, db.t), Inserted(op, db.t))
  }

  function Committed(tok: Tokenizer, op: Op, db: Db): Db {
    Db(Effect(op, db.t), Reindexed(tok, op, db))
  }

  /** One call: failed says that some statement, or the commit, failed for a reason outside the
      tables (a timeout, an I/O error); the transaction is then rolled back. */
  datatype Event = Event(op: Op, failed: bool)

  ghost function Step(tok: Tokenizer, db: Db, ev: Event): Db {
    if ev.failed || !Accepts(ev.op, db.t) then db else Committed(tok, ev.op, db)
  }

  ghost function Run(tok: Tokenizer, db: Db, evs: seq<Event>): Db
    decreases |evs|
  {
    if evs == [] then db else Run(tok, Step(tok, db, evs[0]), evs[1..])
  }

  lemma {:induction false} RunAppend(tok: Tokenizer, db: Db, evs: seq<Event>, ev: Event)
    ensures Run(tok, db, evs + [ev]) == Step(tok, Run(tok, db, evs), ev)
    decreases |evs|
  {
    if evs == [] {
      assert [] + [ev] == [ev];
    } else {
      assert (evs + [ev])[1..] == evs[1..] + [ev];
      RunAppend(tok, Step(tok, db, evs[0]), evs[1..], ev);
    }
  }

  /** A freshly migrated database: the inbox section of migration 0001 and an empty index. */
  const BOOTSTRAPPED: Db := Db(Tables(map[1 := "01 Inbox"], map[], map[], {}, {}), {})

  // ----- Keys and foreign keys -----

  lemma FreeKeepsUnique(names: map<Id, string>, k: Id, name: string)
    requires Unique(names) && Free(names, k, name)
    ensures Unique(names[k := name])
  {
  }

  lemma TitlesUpdated(notes: map<Id, NoteRow>, id: Id, row: NoteRow)
    ensures Titles(notes[id := row]) == Titles(notes)[id := row.title]
  {
  }

  lemma NewLinksInto(links: set<Link>, links': set<Link>, id: Id, ids: seq<Id>, srcs: set<Id>, dsts: set<Id>)
    requires LinksInto(links, srcs, dsts) && Linkable(ids, dsts)
    requires links' <= links + LinksFrom(id, ids)
    ensures LinksInto(links', srcs + {id}, dsts)
  {
  }

  /** Writing a row for note id, together with its links, keeps the schema's rules. */
  lemma SavedRowKeepsWf(t: Tables, t': Tables, id: Id, row: NoteRow, tagIds: seq<Id>, refIds: seq<Id>)
    requires Wf(t)
    requires Free(Titles(t.notes), id, row.title) && row.section in t.sections
    requires Linkable(tagIds, t.tags.Keys) && Linkable(refIds, t.notes.Keys + {id})
    requires t'.sections == t.sections && t'.tags == t.tags && t'.notes == t.notes[id := row]
    requires t'.notesTags <= t.notesTags + LinksFrom(id, tagIds)
    requires t'.refs <= t.refs + LinksFrom(id, refIds)
    ensures Wf(t')
  {
    FreeKeepsUnique(Titles(t.notes), id, row.title);
    TitlesUpdated(t.notes, id, row);
    var ids := t.notes.Keys + {id};
    assert t'.notes.Keys == ids;
    NewLinksInto(t.notesTags, t'.notesTags, id, tagIds, t.notes.Keys, t.tags.Keys);
    NewLinksInto(t.refs, t'.refs, id, refIds, t.notes.Keys, ids);
  }

  lemma SavedNoteKeepsWf(op: Op, t: Tables)
    requires op.CreateNote? || op.UpdateNote?
    requires Wf(t) && Accepts(op, t)
    ensures Wf(Effect(op, t))
  {
    var id := if op.CreateNote? then NextId(t.notes.Keys) else op.id;
    var t' := Effect(op, t);
    if op.CreateNote? || id in t.notes {
      assert op.UpdateNote? ==> t.notes.Keys + {id} == t.notes.Keys;
      SavedRowKeepsWf(t, t', id, t'.notes[id], op.tagIds, op.refIds);
    }
  }

  lemma DeletedNoteKeepsWf(id: Id, t: Tables)
    requires Wf(t)
    ensures Wf(Effect(DeleteNote(id), t))
  {
    var t' := Effect(DeleteNote(id), t);
    assert Titles(t'.notes) == Titles(t.notes) - {id};
  }

  lemma BookmarkKeepsWf(id: Id, bookmark: bool, t: Tables)
    requires Wf(t)
    ensures Wf(Effect(SetNoteBookmark(id, bookmark), t))
  {
    var t' := Effect(SetNoteBookmark(id, bookmark), t);
    assert Titles(t'.notes) == Titles(t.notes);
  }

  lemma ChangedTagKeepsWf(op: Op, t: Tables)
    requires op.CreateTag? || op.UpdateTag? || op.DeleteTag?
    requires Wf(t) && Accepts(op, t)
    ensures Wf(Effect(op, t))
  {
  }

  lemma ChangedSectionKeepsWf(op: Op, t: Tables)
    requires op.CreateSection? || op.UpdateSection? || op.DeleteSection?
    requires Wf(t) && Accepts(op, t)
    ensures Wf(Effect(op, t))
  {
  }

  /** No committed write breaks a key, a uniqueness rule or a foreign key. */
  lemma AcceptedKeepsWf(op: Op, t: Tables)
    requires Wf(t) && Accepts(op, t)
    ensures Wf(Effect(op, t))
  {
    if op.CreateNote? || op.UpdateNote? {
      SavedNoteKeepsWf(op, t);
    } else if op.DeleteNote? {
      DeletedNoteKeepsWf(op.id, t);
    } else if op.SetNoteBookmark? {
      BookmarkKeepsWf(op.id, op.bookmark, t);
    } else if op.CreateTag? || op.UpdateTag? || op.DeleteTag? {
      ChangedTagKeepsWf(op, t);
    } else {
      ChangedSectionKeepsWf(op, t);
    }
  }

  lemma {:induction false} RunKeepsWf(tok: Tokenizer, db: Db, evs: seq<Event>)
    requires Wf(db.t)
    ensures Wf(Run(tok, db, evs).t)
    decreases |evs|
  {
    if evs == [] {
    } else {
      if !evs[0].failed && Accepts(evs[0].op, db.t) {
        AcceptedKeepsWf(evs[0].op, db.t);
      }
      RunKeepsWf(tok, Step(tok, db, evs[0]), evs[1..]);
    }
  }
}
