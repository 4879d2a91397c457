/** Reading notes back: the scan order of a query changes nothing but the order of JSON arrays,
    a saved note is found as it was given, and references are listed from both ends. */
module NotesReading {
  import opened Collections
  import opened NotesTables
  import opened NotesViews
  import opened NotesIndex
  import opened NotesOps
  import opened NotesSearch
  import NotesStore
  import NotesViewEquivalence

  // ----- What the JSON columns hold, straight from the tables -----

  function TagItems(t: Tables, n: Id): set<Item> {
    set l | l in t.notesTags && l.src == n && l.dst in t.tags :: Item(l.dst, t.tags[l.dst])
  }

  function RefItems(t: Tables, n: Id): set<Item> {
    set l | l in t.refs && l.src == n && l.dst in t.notes :: Item(l.dst, t.notes[l.dst].title)
  }

  function RefByItems(t: Tables, n: Id): set<Item> {
    set l | l in t.refs && l.dst == n && l.src in t.notes :: Item(l.src, t.notes[l.src].title)
  }

  /** The text is the names of the tags, each once, in some order. */
  ghost predicate NamesOf(t: Tables, n: Id, text: string) {
    exists items :: Enumerates(items, TagItems(t, n)) && text == Concat(items)
  }

  /** A row shows a note: its own columns, and each JSON array lists its set once each. */
  ghost predicate Shows(row: Details, t: Tables, n: Id) {
    && n in t.notes
    && row.id == n && row.title == t.notes[n].title && row.content == t.notes[n].content
    && row.sectionId == t.notes[n].section && row.sectionName == Lookup(t.sections, row.sectionId)
    && row.bookmark == Some(t.notes[n].bookmark)
    && Enumerates(row.tagsJson, TagItems(t, n))
    && NamesOf(t, n, row.tagsTxt)
    && Enumerates(row.refsJson, RefItems(t, n))
    && Enumerates(row.refByJson, RefByItems(t, n))
  }

  lemma {:induction false} SelectedOnce(links: seq<Link>, names: map<Id, string>, n: Id)
    requires NoDup(links)
    ensures NoDup(Select(JoinNames(links, names), n))
  {
    if links == [] {
    } else {
      var l, rest := links[0], links[1..];
      NoDupTail(links);
      SelectedOnce(rest, names, n);
      var restItems := Select(JoinNames(rest, names), n);
      if l.dst in names {
        var item := Item(l.dst, names[l.dst]);
        assert JoinNames(links, names) == [Keyed(l.src, item)] + JoinNames(rest, names);
        if l.src == n {
          JoinNamesMember(rest, names, n, item);
          assert l == Link(n, item.id);
          NoDupConcat([item], restItems);
        }
      }
    }
  }

  lemma ReversedEnumerates(links: seq<Link>)
    requires NoDup(links)
    ensures NoDup(Reversed(links))
    ensures forall a, b :: Link(a, b) in Reversed(links) <==> Link(b, a) in links
  {
    var rev := Reversed(links);
    forall i, j | 0 <= i < j < |rev|
      ensures rev[i] != rev[j]
    {
      assert links[i] != links[j];
    }
    forall a, b
      ensures Link(a, b) in rev <==> Link(b, a) in links
    {
      if Link(b, a) in links {
        var i :| 0 <= i < |links| && links[i] == Link(b, a);
        assert rev[i] == Link(a, b);
      }
    }
  }

  lemma TagsListed(t: Tables, links: seq<Link>, n: Id)
    requires Enumerates(links, t.notesTags)
    ensures Enumerates(Select(JoinNames(links, t.tags), n), TagItems(t, n))
  {
    var items := Select(JoinNames(links, t.tags), n);
    SelectedOnce(links, t.tags, n);
    forall item: Item
      ensures item in items <==> item in TagItems(t, n)
    {
      JoinNamesMember(links, t.tags, n, item);
      if item in items {
        assert Link(n, item.id) in t.notesTags;
      }
    }
  }

  lemma RefsListed(t: Tables, s: Scan, n: Id)
    requires ScanOf(s, t)
    ensures Enumerates(Referenced(t, s, n), RefItems(t, n))
  {
    SelectedOnce(s.refs, Titles(t.notes), n);
    forall item: Item
      ensures item in Referenced(t, s, n) <==> item in RefItems(t, n)
    {
      JoinNamesMember(s.refs, Titles(t.notes), n, item);
      if item in Referenced(t, s, n) {
        assert Link(n, item.id) in t.refs;
      }
    }
  }

  lemma RefBysListed(t: Tables, s: Scan, n: Id)
    requires ScanOf(s, t)
    ensures Enumerates(ReferencedBy(t, s, n), RefByItems(t, n))
  {
    ReversedEnumerates(s.refBys);
    SelectedOnce(Reversed(s.refBys), Titles(t.notes), n);
    forall item: Item
      ensures item in ReferencedBy(t, s, n) <==> item in RefByItems(t, n)
    {
      JoinNamesMember(Reversed(s.refBys), Titles(t.notes), n, item);
      if item in ReferencedBy(t, s, n) {
        assert Link(item.id, n) in t.refs;
      }
    }
  }

  lemma CorrelatedRowShows(t: Tables, s: Scan, n: Id)
    requires ScanOf(s, t) && n in t.notes
    ensures Shows(CorrelatedRow(t, s, n, true), t, n)
  {
    TagsListed(t, s.notesTags, n);
    TagsListed(t, s.tagTexts, n);
    RefsListed(t, s, n);
    RefBysListed(t, s, n);
  }

  /** Whatever the scan orders, the rows of 0005 and of 0006 show the same notes: every row of
      either shows its note, every note is shown by one row of 0006 and by max(1, tags) of 0005. */
  lemma ViewsShowTheSameNotes(t: Tables, s5: Scan, s6: Scan)
    requires ScanOf(s5, t) && ScanOf(s6, t)
    ensures forall row :: row in View5(t, s5) ==> Shows(row, t, row.id)
    ensures forall row :: row in View6(t, s6) ==> Shows(row, t, row.id)
    ensures |View6(t, s6)| == |t.notes|
    ensures forall n :: n in t.notes ==>
                          multiset(View6(t, s6))[CorrelatedRow(t, s6, n, true)] == 1
                          && multiset(View5(t, s5))[CorrelatedRow(t, OneTagScan(s5), n, true)] ==
                             NotesViewEquivalence.Copies(t, n)
  {
    forall row, s | s in {OneTagScan(s5), s6} && row in View6(t, s)
      ensures Shows(row, t, row.id)
    {
      NotesViewEquivalence.View6OneRowPerNote(t, s, row);
      assert multiset(View6(t, s))[row] > 0;
      CorrelatedRowShows(t, s, row.id);
    }
    forall row | row in View5(t, s5)
      ensures Shows(row, t, row.id)
    {
      NotesViewEquivalence.View5HasTheRowsOfView6(t, s5, row);
    }
    forall n | n in t.notes
      ensures multiset(View6(t, s6))[CorrelatedRow(t, s6, n, true)] == 1
              && multiset(View5(t, s5))[CorrelatedRow(t, OneTagScan(s5), n, true)] == NotesViewEquivalence.Copies(t, n)
    {
      NotesViewEquivalence.View6OneRowPerNote(t, s6, CorrelatedRow(t, s6, n, true));
      var one := OneTagScan(s5);
      NotesViewEquivalence.View6OneRowPerNote(t, one, CorrelatedRow(t, one, n, true));
      NotesViewEquivalence.View5IsView6Repeated(t, s5, CorrelatedRow(t, one, n, true));
      assert CorrelatedRow(t, one, n, true) in multiset(View6(t, one));
    }
    NotesViewEquivalence.View6Size(t, s6);
  }

  // ----- The read methods -----

  lemma ViewHasNote(t: Tables, s: Scan, n: Id)
    requires ScanOf(s, t)
    ensures n in t.notes ==> exists k :: 0 <= k < |View6(t, s)| && View6(t, s)[k].id == n
  {
    if n in t.notes {
      var row := CorrelatedRow(t, s, n, true);
      NotesViewEquivalence.View6OneRowPerNote(t, s, row);
      assert row in multiset(View6(t, s));
      var k :| 0 <= k < |View6(t, s)| && View6(t, s)[k] == row;
    }
  }

  lemma RowShows(t: Tables, s: Scan, i: nat)
    requires ScanOf(s, t) && i < |View6(t, s)|
    ensures Shows(View6(t, s)[i], t, View6(t, s)[i].id)
  {
    var row := View6(t, s)[i];
    NotesViewEquivalence.View6OneRowPerNote(t, s, row);
    assert multiset(View6(t, s))[row] > 0;
    CorrelatedRowShows(t, s, row.id);
  }

  /** WHERE id = ?, the first row; -1 if there is none. */
  method FirstWithId(rows: seq<Details>, id: Id) returns (i: int)
    ensures -1 <= i < |rows| && (i >= 0 ==> rows[i].id == id)
    ensures i == -1 ==> forall k :: 0 <= k < |rows| ==> rows[k].id != id
  {
    for k := 0 to |rows|
      invariant forall j :: 0 <= j < k ==> rows[j].id != id
    {
      if rows[k].id == id {
        return k;
      }
    }
    return -1;
  }

  /** The row of the view with the id asked for; None stands for sql.ErrNoRows. */
  method FindNoteByID(t: Tables, id: Id) returns (r: Option<Details>)
    ensures r.Some? <==> id in t.notes
    ensures r.Some? ==> Shows(r.value, t, id)
  {
    var s := NotesStore.RowidScan(t);
    var rows := View6(t, s);
    ViewHasNote(t, s, id);
    var i := FirstWithId(rows, id);
    if i == -1 {
      return None;
    }
    RowShows(t, s, i);
    return Some(rows[i]);
  }

  /** Some entry of the note holds the term. */
  predicate Hit(db: Db, w: string, n: Id) {
    exists e :: e in db.fts && e.term == w && e.rowid == n
  }

  /** The notes of a scan that are hits, in scan order. */
  function HitsIn(db: Db, w: string, ids: seq<Id>): seq<Id> {
    if ids == [] then []
    else if Hit(db, w, ids[0]) then [ids[0]] + HitsIn(db, w, ids[1..])
    else HitsIn(db, w, ids[1..])
  }

  lemma HitsNext(db: Db, w: string, hits: seq<Id>, ids: seq<Id>, i: nat)
    requires i < |ids|
    ensures hits + HitsIn(db, w, ids[i..]) ==
            (if Hit(db, w, ids[i]) then hits + [ids[i]] else hits) + HitsIn(db, w, ids[i + 1..])
  {
    assert ids[i..][1..] == ids[i + 1..];
    var rest := HitsIn(db, w, ids[i + 1..]);
    assert hits + ([ids[i]] + rest) == hits + [ids[i]] + rest;
  }

  method SelectHits(db: Db, w: string, ids: seq<Id>) returns (hits: seq<Id>)
    ensures hits == HitsIn(db, w, ids)
  {
    hits := [];
    assert ids[0..] == ids;
    for i := 0 to |ids|
      invariant hits + HitsIn(db, w, ids[i..]) == HitsIn(db, w, ids)
    {
      HitsNext(db, w, hits, ids, i);
      var hit := Hit(db, w, ids[i]);
      if hit {
        hits := hits + [ids[i]];
      }
    }
  }

  /** Index hits joined with the view, DISTINCT. */
  method SearchNotes(db: Db, w: string) returns (hits: seq<Id>)
    ensures Enumerates(hits, SearchHits(db, w))
    ensures forall n :: n in hits <==> n in db.t.notes && exists e :: e in db.fts && e.term == w && e.rowid == n
  {
    var ids := Sorted(db.t.notes.Keys);
    hits := SelectHits(db, w, ids);
    HitsAreSearchHits(db, w, ids);
  }

  lemma {:induction false} HitsInMember(db: Db, w: string, ids: seq<Id>)
    requires NoDup(ids)
    ensures NoDup(HitsIn(db, w, ids))
    ensures forall n :: n in HitsIn(db, w, ids) <==> n in ids && Hit(db, w, n)
  {
    if ids != [] {
      NoDupTail(ids);
      HitsInMember(db, w, ids[1..]);
      assert ids == [ids[0]] + ids[1..];
      NoDupConcat([ids[0]], HitsIn(db, w, ids[1..]));
    }
  }

  lemma HitsAreSearchHits(db: Db, w: string, ids: seq<Id>)
    requires Enumerates(ids, db.t.notes.Keys)
    ensures Enumerates(HitsIn(db, w, ids), SearchHits(db, w))
  {
    HitsInMember(db, w, ids);
  }

  // ----- Round trips -----

  /** A note just created or updated is read back, in any scan order, with exactly the title,
      content, section, tag ids and reference ids it was given. */
  lemma SavedNoteReadsBack(op: Op, t: Tables, row: Details, id: Id)
    requires Wf(t) && Accepts(op, t)
    requires (op.CreateNote? && id == NextId(t.notes.Keys)) || (op.UpdateNote? && id == op.id && id in t.notes)
    requires Shows(row, Effect(op, t), id)
    ensures row.title == op.title && row.content == op.content && row.sectionId == op.section
    ensures row.sectionName == Some(t.sections[op.section])
    ensures forall x :: x in op.tagIds <==> x in t.tags && Item(x, t.tags[x]) in row.tagsJson
    ensures forall x :: x in op.refIds <==> exists item :: item in row.refsJson && item.id == x
    ensures |row.tagsJson| == |op.tagIds| && |row.refsJson| == |op.refIds|
  {
    var t' := Effect(op, t);
    LinksOfSavedNote(op, t, id);
    forall x
      ensures x in op.tagIds <==> x in t.tags && Item(x, t.tags[x]) in TagItems(t', id)
    {
      assert x in op.tagIds ==> Link(id, x) in t'.notesTags;
    }
    forall x
      ensures x in op.refIds <==> exists item :: item in RefItems(t', id) && item.id == x
    {
      if x in op.refIds {
        assert Link(id, x) in t'.refs;
        assert Item(x, t'.notes[x].title) in RefItems(t', id);
      }
    }
    SameSizeByIds(op.tagIds, row.tagsJson);
    SameSizeByIds(op.refIds, row.refsJson);
  }

  lemma LinksOfSavedNote(op: Op, t: Tables, id: Id)
    requires Wf(t) && Accepts(op, t)
    requires (op.CreateNote? && id == NextId(t.notes.Keys)) || (op.UpdateNote? && id == op.id && id in t.notes)
    ensures var t' := Effect(op, t);
            && t'.tags == t.tags && id in t'.notes
            && (forall x :: x in op.tagIds ==> x in t.tags)
            && (forall x :: x in op.refIds ==> x in t'.notes)
            && (forall l: Link :: l.src == id ==> (l in t'.notesTags <==> l.dst in op.tagIds))
            && (forall l: Link :: l.src == id ==> (l in t'.refs <==> l.dst in op.refIds))
  {
  }

  /** Two duplicate-free lists with the same ids are equally long, names being determined by ids. */
  lemma SameSizeByIds(ids: seq<Id>, items: seq<Item>)
    requires NoDup(ids) && NoDup(items)
    requires forall x :: x in ids <==> exists item :: item in items && item.id == x
    requires forall a, b :: a in items && b in items && a.id == b.id ==> a == b
    ensures |items| == |ids|
  {
    var itemIds := seq(|items|, i requires 0 <= i < |items| => items[i].id);
    forall i, j | 0 <= i < j < |items|
      ensures itemIds[i] != itemIds[j]
    {
      assert items[i] in items && items[j] in items && items[i] != items[j];
    }
    forall x
      ensures x in itemIds <==> x in ids
    {
      if x in ids {
        var item :| item in items && item.id == x;
        var i :| 0 <= i < |items| && items[i] == item;
        assert itemIds[i] == x;
      }
      if x in itemIds {
        var i :| 0 <= i < |itemIds| && itemIds[i] == x;
        assert items[i] in items;
      }
    }
    ElemsSize(ids);
    ElemsSize(itemIds);
    assert Elems(ids) == Elems(itemIds);
  }

  /** In every state a run can reach, whatever the scan orders, a lists b as a reference exactly
      when b lists a as referenced-by; what is listed exists, and no link row is lost in a join. */
  lemma ReferencesAreMutual(tok: Tokenizer, evs: seq<Event>, sA: Scan, sB: Scan, rowA: Details, rowB: Details)
    requires var t := Run(tok, BOOTSTRAPPED, evs).t;
             ScanOf(sA, t) && ScanOf(sB, t) && rowA in View6(t, sA) && rowB in View6(t, sB)
    ensures Item(rowB.id, rowB.title) in rowA.refsJson <==> Item(rowA.id, rowA.title) in rowB.refByJson
    ensures var t := Run(tok, BOOTSTRAPPED, evs).t;
            && (forall item :: item in rowA.refsJson + rowA.refByJson ==> item.id in t.notes)
            && (forall item :: item in rowA.tagsJson ==> item.id in t.tags)
            && (forall l :: l in t.refs && l.src == rowA.id ==>
                              exists item :: item in rowA.refsJson && item.id == l.dst)
            && (forall l :: l in t.notesTags && l.src == rowA.id ==>
                              exists item :: item in rowA.tagsJson && item.id == l.dst)
  {
    var t := Run(tok, BOOTSTRAPPED, evs).t;
    RunKeepsWf(tok, BOOTSTRAPPED, evs);
    RowInViewShows(t, sA, rowA);
    RowInViewShows(t, sB, rowB);
    ShownReferencesAreMutual(t, rowA, rowB);
    ShowsWhatExists(t, rowA);
  }

  lemma ShownReferencesAreMutual(t: Tables, rowA: Details, rowB: Details)
    requires Shows(rowA, t, rowA.id) && Shows(rowB, t, rowB.id)
    ensures Item(rowB.id, rowB.title) in rowA.refsJson <==> Item(rowA.id, rowA.title) in rowB.refByJson
  {
    assert Item(rowB.id, rowB.title) in RefItems(t, rowA.id) <==> Link(rowA.id, rowB.id) in t.refs;
    assert Item(rowA.id, rowA.title) in RefByItems(t, rowB.id) <==> Link(rowA.id, rowB.id) in t.refs;
  }

  lemma ShowsWhatExists(t: Tables, row: Details)
    requires Wf(t) && Shows(row, t, row.id)
    ensures forall item :: item in row.refsJson + row.refByJson ==> item.id in t.notes
    ensures forall item :: item in row.tagsJson ==> item.id in t.tags
    ensures forall l :: l in t.refs && l.src == row.id ==> exists item :: item in row.refsJson && item.id == l.dst
    ensures forall l :: l in t.notesTags && l.src == row.id ==> exists item :: item in row.tagsJson && item.id == l.dst
  {
    forall l | l in t.refs && l.src == row.id
      ensures exists item :: item in row.refsJson && item.id == l.dst
    {
      assert Item(l.dst, t.notes[l.dst].title) in RefItems(t, row.id);
    }
    forall l | l in t.notesTags && l.src == row.id
      ensures exists item :: item in row.tagsJson && item.id == l.dst
    {
      assert Item(l.dst, t.tags[l.dst]) in TagItems(t, row.id);
    }
  }

  lemma RowInViewShows(t: Tables, s: Scan, row: Details)
    requires ScanOf(s, t) && row in View6(t, s)
    ensures Shows(row, t, row.id)
  {
    var i :| 0 <= i < |View6(t, s)| && View6(t, s)[i] == row;
    RowShows(t, s, i);
  }
}
