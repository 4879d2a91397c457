/** The tables of a notes database with their keys, uniqueness rules and foreign keys. */
module NotesTables {
  import opened Collections

  type Id = nat

  datatype NoteRow = NoteRow(title: string, content: string, section: Id, bookmark: bool)

  /** A row of notes_tags (note_id, tag_id) or of reference_notes (note_id, ref_note_id). */
  datatype Link = Link(src: Id, dst: Id)

  datatype Tables = Tables(
    sections: map<Id, string>,
    tags: map<Id, string>,
    notes: map<Id, NoteRow>,
    notesTags: set<Link>,
    refs: set<Link>)

  ghost predicate Unique(names: map<Id, string>) {
    forall a, b :: a in names && b in names && names[a] == names[b] ==> a == b
  }

  function Titles(notes: map<Id, NoteRow>): map<Id, string> {
    map n | n in notes :: notes[n].title
  }

  ghost predicate LinksInto(links: set<Link>, srcs: set<Id>, dsts: set<Id>) {
    forall l :: l in links ==> l.src in srcs && l.dst in dsts
  }

  /** What the schema enforces on every committed state, foreign keys being on. */
  ghost predicate Wf(t: Tables) {
    && Unique(t.sections)
    && Unique(t.tags)
    && Unique(Titles(t.notes))
    && (forall n :: n in t.notes ==> t.notes[n].section in t.sections)
    && LinksInto(t.notesTags, t.notes.Keys, t.tags.Keys)
    && LinksInto(t.refs, t.notes.Keys, t.notes.Keys)
  }

  /** The notes that carry a tag. */
  function Carriers(t: Tables, tag: Id): set<Id> {
    set l | l in t.notesTags && l.dst == tag :: l.src
  }

  /** INTEGER PRIMARY KEY without AUTOINCREMENT: one above the largest rowid in use, which
      is the id of a deleted note when that note was the last one. */
  function NextId(ids: set<Id>): (id: Id)
    ensures id >= 1 && id !in ids
    ensures forall x :: x in ids ==> x < id
    ensures id == 1 || id - 1 in ids
  {
    var r := Sorted(ids);
    if r == [] then 1
    else
      assert forall x :: x in ids ==> x in r;
      r[|r| - 1] + 1
  }
}
