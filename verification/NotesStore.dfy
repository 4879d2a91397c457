/** The notes store as the program runs it: statements on the tables and on the index, one by one,
    inside a transaction that is committed or rolled back. */
module NotesStore {
  import opened Collections
  import opened NotesTables
  import opened NotesViews
  import opened NotesIndex
  import opened NotesOps
  import NotesViewEquivalence

  // ----- Rowid scans -----

  function Dsts(links: set<Link>, src: Id): set<Id> {
    set l | l in links && l.src == src :: l.dst
  }

  function Srcs(links: set<Link>): set<Id> {
    set l | l in links :: l.src
  }

  function LinksAt(src: Id, dsts: seq<Id>): (r: seq<Link>)
    requires NoDup(dsts)
    ensures NoDup(r)
    ensures forall l :: l in r <==> l.src == src && l.dst in dsts
  {
    if dsts == [] then []
    else
      NoDupTail(dsts);
      assert dsts == [dsts[0]] + dsts[1..];
      NoDupConcat([Link(src, dsts[0])], LinksAt(src, dsts[1..]));
      [Link(src, dsts[0])] + LinksAt(src, dsts[1..])
  }

  /** The rows of a link table in primary key order. */
  function LinkScan(links: set<Link>, srcs: seq<Id>): (r: seq<Link>)
    requires NoDup(srcs)
    ensures NoDup(r)
    ensures forall l :: l in r <==> l in links && l.src in srcs
  {
    if srcs == [] then []
    else
      NoDupTail(srcs);
      var first := LinksAt(srcs[0], Sorted(Dsts(links, srcs[0])));
      var rest := LinkScan(links, srcs[1..]);
      assert srcs == [srcs[0]] + srcs[1..];
      assert forall l :: l in first <==> l in links && l.src == srcs[0];
      NoDupConcat(first, rest);
      first + rest
  }

  function RowidLinks(links: set<Link>): (r: seq<Link>)
    ensures Enumerates(r, links)
  {
    assert forall l :: l in links ==> l.src in Srcs(links);
    LinkScan(links, Sorted(Srcs(links)))
  }

  function RowidScan(t: Tables): (s: Scan)
    ensures ScanOf(s, t)
  {
    var tagLinks, refs := RowidLinks(t.notesTags), RowidLinks(t.refs);
    Scan(Sorted(t.notes.Keys), tagLinks, tagLinks, refs, refs)
  }

  // ----- Statements -----

  function SavedNote(t: Tables, id: Id, row: NoteRow): Tables {
    t.(notes := t.notes[id := row])
  }

  /** An open transaction. Statement number k fails when k is in faults, whatever the tables say. */
  class Tx {
    const tok: Tokenizer
    const faults: set<nat>
    var db: Db
    var statements: nat

    constructor (tok: Tokenizer, db: Db, faults: set<nat>)
      ensures this.tok == tok && this.db == db && this.faults == faults
    {
      this.tok, this.db, this.faults, this.statements := tok, db, faults, 0;
    }

    /** The outside world's part in a statement. */
    method Attempt() returns (ok: bool)
      modifies this`statements
      ensures faults == {} ==> ok
    {
      ok := statements !in faults;
      statements := statements + 1;
    }

    method InsertNote(title: string, content: string, section: Id) returns (r: Result<Id>)
      modifies this
      ensures r.Err? ==> db == old(db)
      ensures r.Ok? ==>
                var nid := NextId(old(db).t.notes.Keys);
                && r.value == nid && Free(Titles(old(db).t.notes), nid, title) && section in old(db).t.sections
                && db == old(db).(t := SavedNote(old(db).t, nid, NoteRow(title, content, section, false)))
      ensures faults == {} && r.Err? ==>
                !(Free(Titles(old(db).t.notes), NextId(old(db).t.notes.Keys), title) && section in old(db).t.sections)
    {
      var ok := Attempt();
      var nid := NextId(db.t.notes.Keys);
      var taken := exists n :: n in db.t.notes && db.t.notes[n].title == title;
      TitleTaken(db.t.notes, nid, title);
      if !ok || taken || section !in db.t.sections {
        return Err;
      }
      db := db.(t := db.t.(notes := db.t.notes[nid := NoteRow(title, content, section, false)]));
      return Ok(nid);
    }

    method UpdateNoteRow(id: Id, title: string, content: string, section: Id) returns (ok: bool)
      modifies this
      ensures !ok ==> db == old(db)
      ensures ok && id !in old(db).t.notes ==> db == old(db)
      ensures ok && id in old(db).t.notes ==>
                && Free(Titles(old(db).t.notes), id, title) && section in old(db).t.sections
                && db == old(db).(t := SavedNote(old(db).t, id, old(db).t.notes[id].(title := title, content := content,
                                                                                    section := section)))
      ensures faults == {} && !ok ==>
                id in old(db).t.notes && !(Free(Titles(old(db).t.notes), id, title) && section in old(db).t.sections)
    {
      ok := Attempt();
      if !ok || id !in db.t.notes {
        return;
      }
      var taken := exists n :: n in db.t.notes && n != id && db.t.notes[n].title == title;
      TitleTaken(db.t.notes, id, title);
      if taken || section !in db.t.sections {
        return false;
      }
      db := db.(t := db.t.(notes := db.t.notes[id := NoteRow(title, content, section, db.t.notes[id].bookmark)]));
    }

    /** INSERT INTO notes_tags or reference_notes: all rows or none. */
    method InsertLinks(links: set<Link>, rows: seq<Link>, srcs: set<Id>, dsts: set<Id>) returns (r: Result<set<Link>>)
      modifies this`statements
      ensures r.Ok? ==> r.value == links + Elems(rows) && InsertableRows(links, rows, srcs, dsts)
      ensures faults == {} && r.Err? ==> !InsertableRows(links, rows, srcs, dsts)
    {
      var ok := Attempt();
      if !ok {
        return Err;
      }
      var table := links;
      for i := 0 to |rows|
        invariant table == links + Elems(rows[..i])
        invariant InsertableRows(links, rows[..i], srcs, dsts)
      {
        var row := rows[i];
        assert rows[..i + 1] == rows[..i] + [row];
        if row in table || row.src !in srcs || row.dst !in dsts {
          NotInsertable(links, rows, srcs, dsts, i);
          return Err;
        }
        table := table + {row};
      }
      assert rows[..|rows|] == rows;
      return Ok(table);
    }

    method InsertTagLinks(rows: seq<Link>) returns (ok: bool)
      modifies this
      ensures !ok ==> db == old(db)
      ensures ok ==> Insertable(old(db).t.notesTags, rows, old(db).t.tags.Keys, old(db).t)
      ensures ok ==> db == old(db).(t := old(db).t.(notesTags := old(db).t.notesTags + Elems(rows)))
      ensures faults == {} && !ok ==> !Insertable(old(db).t.notesTags, rows, old(db).t.tags.Keys, old(db).t)
    {
      var r := InsertLinks(db.t.notesTags, rows, db.t.notes.Keys, db.t.tags.Keys);
      ok := r.Ok?;
      if r.Ok? {
        db := db.(t := db.t.(notesTags := r.value));
      }
    }

    method InsertRefs(rows: seq<Link>) returns (ok: bool)
      modifies this
      ensures !ok ==> db == old(db)
      ensures ok ==> Insertable(old(db).t.refs, rows, old(db).t.notes.Keys, old(db).t)
      ensures ok ==> db == old(db).(t := old(db).t.(refs := old(db).t.refs + Elems(rows)))
      ensures faults == {} && !ok ==> !Insertable(old(db).t.refs, rows, old(db).t.notes.Keys, old(db).t)
    {
      var r := InsertLinks(db.t.refs, rows, db.t.notes.Keys, db.t.notes.Keys);
      ok := r.Ok?;
      if r.Ok? {
        db := db.(t := db.t.(refs := r.value));
      }
    }

    /** An UPDATE or DELETE that the constraints cannot refuse, cascades included. */
    method Rewrite(t': Tables) returns (ok: bool)
      modifies this
      ensures db == if ok then old(db).(t := t') else old(db)
      ensures faults == {} ==> ok
    {
      ok := Attempt();
      if ok {
        db := db.(t := t');
      }
    }

    /** The two FTS selections: WHERE id = ?, and the join with json_each on the tag id. */
    method SelectById(id: Id) returns (sel: seq<Details>)
      requires SplitsAtSpaces(tok)
      ensures FilledFrom(tok, sel) == IndexOf(tok, db.t, {id})
    {
      var scan := RowidScan(db.t);
      var rows := View6(db.t, scan);
      sel := [];
      assert rows[0..] == rows;
      for i := 0 to |rows|
        invariant sel + WithId(rows[i..], id) == WithId(rows, id)
      {
        assert rows[i..][1..] == rows[i + 1..];
        if rows[i].id == id {
          sel := sel + [rows[i]];
        }
      }
      assert sel == WithId(rows, id);
      View6ShowsNotes(db.t, scan);
      SelectedById(tok, db.t, scan, true, rows, id);
    }

    /** The rows of one note joined with its tags, where the tag is the one sought. */
    method JoinTags(row: Details, tag: Id) returns (joined: seq<Details>)
      ensures joined == NotesViewEquivalence.Repeat(row, TagHits(row.tagsJson, tag))
    {
      var items := row.tagsJson;
      joined := [];
      assert items[0..] == items;
      ghost var hits := 0;
      for j := 0 to |items|
        invariant joined == NotesViewEquivalence.Repeat(row, hits)
        invariant hits + TagHits(items[j..], tag) == TagHits(items, tag)
      {
        assert items[j..][1..] == items[j + 1..];
        if items[j].id == tag {
          RepeatOnce(row, hits);
          joined := joined + [row];
          hits := hits + 1;
        }
      }
    }

    method SelectByTag(tag: Id) returns (sel: seq<Details>)
      requires SplitsAtSpaces(tok) && Wf(db.t)
      ensures FilledFrom(tok, sel) == IndexOf(tok, db.t, Carriers(db.t, tag))
    {
      var scan := RowidScan(db.t);
      var rows := View6(db.t, scan);
      sel := [];
      assert rows[0..] == rows;
      for i := 0 to |rows|
        invariant sel + JoinedWith(rows[i..], tag) == JoinedWith(rows, tag)
      {
        var joined := JoinTags(rows[i], tag);
        JoinedNext(sel, joined, rows, i, tag);
        sel := sel + joined;
      }
      assert sel == JoinedWith(rows, tag);
      View6ShowsNotes(db.t, scan);
      SelectedByTag(tok, db.t, scan, true, rows, tag);
    }

    method InsertDocs(rows: seq<Details>) returns (ok: bool)
      modifies this
      ensures !ok ==> db == old(db)
      ensures ok ==> db == old(db).(fts := old(db).fts + FilledFrom(tok, rows))
      ensures faults == {} ==> ok
    {
      ok := Attempt();
      if !ok {
        return;
      }
      var fts := db.fts;
      for i := 0 to |rows|
        invariant db == old(db)
        invariant fts == db.fts + FilledFrom(tok, rows[..i])
      {
        FilledFromNext(tok, rows, i);
        fts := fts + RowEntries(tok, rows[i]);
      }
      assert rows[..|rows|] == rows;
      db := db.(fts := fts);
    }

    method DeleteDocs(rows: seq<Details>) returns (ok: bool)
      modifies this
      ensures !ok ==> db == old(db)
      ensures ok ==> db == old(db).(fts := old(db).fts - FilledFrom(tok, rows))
      ensures faults == {} ==> ok
    {
      ok := Attempt();
      if !ok {
        return;
      }
      var fts := db.fts;
      for i := 0 to |rows|
        invariant db == old(db)
        invariant fts == db.fts - FilledFrom(tok, rows[..i])
      {
        FilledFromNext(tok, rows, i);
        fts := fts - RowEntries(tok, rows[i]);
      }
      assert rows[..|rows|] == rows;
      db := db.(fts := fts);
    }
  }

  lemma TitleTaken(notes: map<Id, NoteRow>, id: Id, title: string)
    ensures Free(Titles(notes), id, title) <==> !exists n :: n in notes && n != id && notes[n].title == title
  {
    if n :| n in notes && n != id && notes[n].title == title {
      assert n in Titles(notes);
    }
  }

  ghost predicate InsertableRows(links: set<Link>, rows: seq<Link>, srcs: set<Id>, dsts: set<Id>) {
    NoDup(rows) && forall row :: row in rows ==> row !in links && row.src in srcs && row.dst in dsts
  }

  ghost predicate Insertable(links: set<Link>, rows: seq<Link>, dsts: set<Id>, t: Tables) {
    InsertableRows(links, rows, t.notes.Keys, dsts)
  }

  lemma NotInsertable(links: set<Link>, rows: seq<Link>, srcs: set<Id>, dsts: set<Id>, i: nat)
    requires i < |rows|
    requires rows[i] in links || rows[i] in rows[..i] || rows[i].src !in srcs || rows[i].dst !in dsts
    ensures !InsertableRows(links, rows, srcs, dsts)
  {
  }

  lemma FilledFromNext(tok: Tokenizer, rows: seq<Details>, i: nat)
    requires i < |rows|
    ensures FilledFrom(tok, rows[..i + 1]) == FilledFrom(tok, rows[..i]) + RowEntries(tok, rows[i])
  {
  }

  /** A view of one row per note, apart from repetitions; bm says whether it shows the bookmark. */
  ghost predicate ShowsNotes(rows: seq<Details>, t: Tables, s: Scan, bm: bool) {
    forall row :: row in rows <==> row.id in t.notes && row == CorrelatedRow(t, s, row.id, bm)
  }

  lemma View6ShowsNotes(t: Tables, s: Scan)
    requires ScanOf(s, t)
    ensures ShowsNotes(View6(t, s), t, s, true)
  {
    forall row: Details
      ensures row in View6(t, s) <==> row.id in t.notes && row == CorrelatedRow(t, s, row.id, true)
    {
      NotesViewEquivalence.View6OneRowPerNote(t, s, row);
      assert row in View6(t, s) <==> multiset(View6(t, s))[row] > 0;
    }
  }

  /** Selecting the rows of some notes selects their documents. */
  lemma SelectedDocs(tok: Tokenizer, t: Tables, s: Scan, bm: bool, sel: seq<Details>, ids: set<Id>)
    requires SplitsAtSpaces(tok) && ScanOf(s, t)
    requires forall row :: row in sel <==> row.id in ids && row.id in t.notes && row == CorrelatedRow(t, s, row.id, bm)
    ensures FilledFrom(tok, sel) == IndexOf(tok, t, ids)
  {
    forall e: Entry
      ensures e in FilledFrom(tok, sel) <==> e in IndexOf(tok, t, ids)
    {
      if e in FilledFrom(tok, sel) {
        var row :| row in sel && e in RowEntries(tok, row);
        RowEntriesAreNoteEntries(tok, t, s, row.id, bm);
      }
      if e in IndexOf(tok, t, ids) {
        var n :| n in ids && e in NoteEntries(tok, t, n);
        RowEntriesAreNoteEntries(tok, t, s, n, bm);
        assert CorrelatedRow(t, s, n, bm) in sel;
      }
    }
  }

  /** Rows of the view WHERE id = ?. */
  function WithId(rows: seq<Details>, id: Id): seq<Details> {
    if rows == [] then []
    else if rows[0].id == id then [rows[0]] + WithId(rows[1..], id)
    else WithId(rows[1..], id)
  }

  /** How often json_each of the tags meets a tag. */
  function TagHits(items: seq<Item>, tag: Id): nat {
    if items == [] then 0 else (if items[0].id == tag then 1 else 0) + TagHits(items[1..], tag)
  }

  /** Rows of the view joined with json_each of their tags, WHERE the tag id = ?. */
  function JoinedWith(rows: seq<Details>, tag: Id): seq<Details> {
    if rows == [] then []
    else NotesViewEquivalence.Repeat(rows[0], TagHits(rows[0].tagsJson, tag)) + JoinedWith(rows[1..], tag)
  }

  lemma JoinedNext(sel: seq<Details>, joined: seq<Details>, rows: seq<Details>, i: nat, tag: Id)
    requires i < |rows| && joined == NotesViewEquivalence.Repeat(rows[i], TagHits(rows[i].tagsJson, tag))
    ensures sel + JoinedWith(rows[i..], tag) == sel + joined + JoinedWith(rows[i + 1..], tag)
  {
    assert rows[i..][1..] == rows[i + 1..];
    var rest := JoinedWith(rows[i + 1..], tag);
    assert sel + (joined + rest) == sel + joined + rest;
  }

  lemma {:induction false} RepeatOnce<T>(row: T, k: nat)
    ensures NotesViewEquivalence.Repeat(row, k) + [row] == NotesViewEquivalence.Repeat(row, k + 1)
  {
    if k == 0 {
      assert [] + [row] == [row] + [];
    } else {
      RepeatOnce(row, k - 1);
      var less := NotesViewEquivalence.Repeat(row, k - 1);
      assert [row] + less + [row] == [row] + (less + [row]);
    }
  }

  lemma {:induction false} WithIdMember(rows: seq<Details>, id: Id, row: Details)
    ensures row in WithId(rows, id) <==> row in rows && row.id == id
  {
    if rows != [] {
      WithIdMember(rows[1..], id, row);
      assert rows == [rows[0]] + rows[1..];
    }
  }

  lemma {:induction false} TagHitsMean(items: seq<Item>, tag: Id)
    ensures TagHits(items, tag) > 0 <==> exists item :: item in items && item.id == tag
  {
    if items != [] {
      TagHitsMean(items[1..], tag);
      assert items == [items[0]] + items[1..];
      if items[0].id == tag {
        assert items[0] in items;
      }
    }
  }

  lemma {:induction false} JoinedWithMember(rows: seq<Details>, tag: Id, row: Details)
    ensures row in JoinedWith(rows, tag) <==> row in rows && TagHits(row.tagsJson, tag) > 0
  {
    if rows != [] {
      JoinedWithMember(rows[1..], tag, row);
      assert rows == [rows[0]] + rows[1..];
      var hits := TagHits(rows[0].tagsJson, tag);
      if hits > 0 {
        RepeatMember(rows[0], hits, row);
      }
    }
  }

  lemma SelectedById(tok: Tokenizer, t: Tables, s: Scan, bm: bool, rows: seq<Details>, id: Id)
    requires SplitsAtSpaces(tok) && ScanOf(s, t) && ShowsNotes(rows, t, s, bm)
    ensures FilledFrom(tok, WithId(rows, id)) == IndexOf(tok, t, {id})
  {
    forall row: Details
      ensures row in WithId(rows, id) <==> row in rows && row.id in {id}
    {
      WithIdMember(rows, id, row);
    }
    SelectedDocs(tok, t, s, bm, WithId(rows, id), {id});
  }

  /** The tags a row lists contain the tag exactly for its carriers. */
  lemma TagListedIffCarrier(t: Tables, s: Scan, n: Id, tag: Id)
    requires Wf(t) && ScanOf(s, t)
    ensures TagHits(Tagged(t, s, n), tag) > 0 <==> n in Carriers(t, tag)
  {
    TagHitsMean(Tagged(t, s, n), tag);
    if item :| item in Tagged(t, s, n) && item.id == tag {
      JoinNamesMember(s.notesTags, t.tags, n, item);
      assert Link(n, tag) in t.notesTags;
    }
    if n in Carriers(t, tag) {
      var l :| l in t.notesTags && l.dst == tag && l.src == n;
      assert l == Link(n, tag);
      JoinNamesMember(s.notesTags, t.tags, n, Item(tag, t.tags[tag]));
    }
  }

  lemma SelectedByTag(tok: Tokenizer, t: Tables, s: Scan, bm: bool, rows: seq<Details>, tag: Id)
    requires SplitsAtSpaces(tok) && Wf(t) && ScanOf(s, t) && ShowsNotes(rows, t, s, bm)
    ensures FilledFrom(tok, JoinedWith(rows, tag)) == IndexOf(tok, t, Carriers(t, tag))
  {
    forall row: Details
      ensures row in JoinedWith(rows, tag) <==> row in rows && row.id in Carriers(t, tag)
    {
      JoinedWithMember(rows, tag, row);
      TagListedIffCarrier(t, s, row.id, tag);
    }
    SelectedDocs(tok, t, s, bm, JoinedWith(rows, tag), Carriers(t, tag));
  }
}
