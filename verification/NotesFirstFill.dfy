/** The index is filled once, by migration 0003 from the view of 0002, and never rebuilt when the
    view is replaced: every generation of the view indexes the same terms. */
module NotesFirstFill {
  import opened Collections
  import opened NotesTables
  import opened NotesViews
  import opened NotesIndex
  import NotesViewEquivalence

  function TagVals(t: Tables, links: seq<Option<Link>>): seq<Option<Item>> {
    if links == [] then [] else [TagOfLink(t, links[0])] + TagVals(t, links[1..])
  }

  function GroupOfNote(t: Tables, s: Scan, n: Id): Group<Option<Item>> {
    Group(n, TagVals(t, Left(LinksOf(s.notesTags, n))))
  }

  lemma {:induction false} SelectFromLoop(t: Tables, n: Id, links: seq<Option<Link>>,
                                          rest: seq<Keyed<Option<Item>>>, k: Id)
    ensures Select(LoopLinks(t, n, links) + rest, k) ==
            (if k == n then TagVals(t, links) else []) + Select(rest, k)
  {
    if links == [] {
      assert LoopLinks(t, n, links) + rest == rest;
      assert [] + Select(rest, k) == Select(rest, k);
    } else {
      var first, more := Keyed(n, TagOfLink(t, links[0])), LoopLinks(t, n, links[1..]);
      SelectFromLoop(t, n, links[1..], rest, k);
      assert [first] + more + rest == [first] + (more + rest);
      var vals := TagVals(t, links[1..]);
      assert [first.val] + (vals + Select(rest, k)) == [first.val] + vals + Select(rest, k);
    }
  }

  lemma {:induction false} SelectFromLeftJoined(t: Tables, s: Scan, ids: seq<Id>, k: Id)
    requires NoDup(ids)
    ensures Select(LeftJoined(t, s, ids), k) == if k in ids then GroupOfNote(t, s, k).vals else []
  {
    if ids == [] {
    } else {
      var n, rest := ids[0], ids[1..];
      NoDupTail(ids);
      assert ids == [n] + rest;
      SelectFromLoop(t, n, Left(LinksOf(s.notesTags, n)), LeftJoined(t, s, rest), k);
      SelectFromLeftJoined(t, s, rest, k);
    }
  }

  lemma {:induction false} GroupMember<V>(groups: seq<Group<V>>, g: Group<V>)
    ensures g in groups <==> g.vals in Matches(groups, g.key)
  {
    if groups == [] {
    } else {
      GroupMember(groups[1..], g);
      assert groups == [groups[0]] + groups[1..];
      assert g == groups[0] <==> g.key == groups[0].key && g.vals == groups[0].vals;
    }
  }

  lemma {:induction false} Rows2Member(t: Tables, groups: seq<Group<Option<Item>>>, row: Details2)
    ensures row in Rows2(t, groups) <==>
            row.id in t.notes && Group(row.id, row.tagsJson) in groups && row == Row2(t, Group(row.id, row.tagsJson))
  {
    if groups == [] {
    } else {
      var g, rest := groups[0], groups[1..];
      Rows2Member(t, rest, row);
      assert groups == [g] + rest;
      if g.key in t.notes {
        assert row == Row2(t, g) ==> g == Group(row.id, row.tagsJson);
      }
    }
  }

  /** The view of 0002 has one row per note, its group. */
  lemma View2Member(t: Tables, s: Scan, row: Details2)
    requires ScanOf(s, t)
    ensures row in View2(t, s) <==> row.id in t.notes && row == Row2(t, GroupOfNote(t, s, row.id))
  {
    var joined := LeftJoined(t, s, s.notes);
    var g := Group(row.id, row.tagsJson);
    Rows2Member(t, GroupBy(joined), row);
    GroupMember(GroupBy(joined), g);
    NotesViewEquivalence.GroupedIsCorrelated(joined, row.id);
    SelectFromLeftJoined(t, s, s.notes, row.id);
    assert GroupOfNote(t, s, row.id).vals != [];
    if row.id in t.notes {
      assert Matches(GroupBy(joined), row.id) == [GroupOfNote(t, s, row.id).vals];
      assert g in GroupBy(joined) <==> g == GroupOfNote(t, s, row.id);
    }
  }

  /** Skipping the NULL of an untagged note leaves the tags the later views list. */
  lemma {:induction false} NonNullTags(t: Tables, links: seq<Link>, n: Id)
    ensures NonNull(TagVals(t, Left(LinksOf(links, n)))) == Select(JoinNames(links, t.tags), n)
  {
    if links == [] {
      assert Left(LinksOf(links, n)) == [None];
      assert TagVals(t, [None]) == [None];
      assert NonNull([None]) == [];
    } else {
      var l, rest := links[0], links[1..];
      NonNullTags(t, rest, n);
      var restLeft := Left(LinksOf(rest, n));
      if l.src == n {
        if LinksOf(rest, n) == [] {
          assert Left(LinksOf(links, n)) == [Some(l)];
        } else {
          assert Left(LinksOf(links, n)) == [Some(l)] + restLeft;
        }
      }
      if l.dst in t.tags {
        assert JoinNames(links, t.tags)[1..] == JoinNames(rest, t.tags);
      }
    }
  }

  lemma RowEntries2AreNoteEntries(tok: Tokenizer, t: Tables, s: Scan, n: Id)
    requires SplitsAtSpaces(tok) && ScanOf(s, t) && n in t.notes
    ensures RowEntries2(tok, Row2(t, GroupOfNote(t, s, n))) == NoteEntries(tok, t, n)
  {
    var row := Row2(t, GroupOfNote(t, s, n));
    NonNullTags(t, s.notesTags, n);
    forall e: Entry
      ensures e in RowEntries2(tok, row) <==> e in NoteEntries(tok, t, n)
    {
      TagTextTerms(tok, t, s.notesTags, n, e.term);
      NoteEntriesMean(tok, t, n, e);
    }
  }

  lemma FilledFromView2(tok: Tokenizer, t: Tables, s: Scan)
    requires SplitsAtSpaces(tok) && ScanOf(s, t)
    ensures FilledFrom2(tok, View2(t, s)) == Rebuilt(tok, t)
  {
    var rows := View2(t, s);
    forall e: Entry
      ensures e in FilledFrom2(tok, rows) <==> e in Rebuilt(tok, t)
    {
      if e in FilledFrom2(tok, rows) {
        var row :| row in rows && e in RowEntries2(tok, row);
        View2Member(t, s, row);
        RowEntries2AreNoteEntries(tok, t, s, row.id);
      }
      if e in Rebuilt(tok, t) {
        var n :| n in t.notes.Keys && e in NoteEntries(tok, t, n);
        View2Member(t, s, Row2(t, GroupOfNote(t, s, n)));
        RowEntries2AreNoteEntries(tok, t, s, n);
      }
    }
  }

  /** All four views put the same entries into the index, each under its own scan order, so the
      index filled at 0003 is still the rebuilt index after 0004, 0005 and 0006. */
  lemma EveryViewIndexesTheSame(tok: Tokenizer, t: Tables, s2: Scan, s4: Scan, s5: Scan, s6: Scan)
    requires SplitsAtSpaces(tok)
    requires ScanOf(s2, t) && ScanOf(s4, t) && ScanOf(s5, t) && ScanOf(s6, t)
    ensures FilledFrom2(tok, View2(t, s2)) == FilledFrom(tok, View4(t, s4)) == FilledFrom(tok, View5(t, s5))
            == FilledFrom(tok, View6(t, s6)) == Rebuilt(tok, t)
  {
    FilledFromView2(tok, t, s2);
    FilledFromJoined(tok, t, s4, false);
    FilledFromJoined(tok, t, s5, true);
    FilledFromView6(tok, t, s6);
  }

  /** Migration 0003 fills the index row by row. */
  method FillIndex(tok: Tokenizer, t: Tables, s: Scan) returns (fts: set<Entry>)
    requires SplitsAtSpaces(tok) && ScanOf(s, t)
    ensures fts == Rebuilt(tok, t)
  {
    var rows := View2(t, s);
    fts := {};
    for i := 0 to |rows|
      invariant fts == FilledFrom2(tok, rows[..i])
    {
      assert rows[..i + 1] == rows[..i] + [rows[i]];
      forall e: Entry
        ensures e in fts + RowEntries2(tok, rows[i]) <==> e in FilledFrom2(tok, rows[..i + 1])
      {
        if e in FilledFrom2(tok, rows[..i + 1]) {
          var row :| row in rows[..i + 1] && e in RowEntries2(tok, row);
        }
        if e in RowEntries2(tok, rows[i]) {
          assert rows[i] in rows[..i + 1];
        }
      }
      fts := fts + RowEntries2(tok, rows[i]);
    }
    assert rows[..|rows|] == rows;
    FilledFromView2(tok, t, s);
  }
}
