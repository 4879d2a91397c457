/** Migration 0006 against the views it replaces: same rows, one per note, whatever the scan order. */
module NotesViewEquivalence {
  import opened Collections
  import opened NotesTables
  import opened NotesViews

  // ----- Grouping and joining -----

  lemma {:induction false} MatchesAddToGroup<V>(groups: seq<Group<V>>, row: Keyed<V>, k: Id)
    ensures k != row.key ==> Matches(AddToGroup(groups, row), k) == Matches(groups, k)
    ensures k == row.key ==>
              Matches(AddToGroup(groups, row), k) ==
              if Matches(groups, k) == [] then [[row.val]]
              else [[row.val] + Matches(groups, k)[0]] + Matches(groups, k)[1..]
  {
    if groups == [] {
    } else if groups[0].key == row.key {
      assert AddToGroup(groups, row)[1..] == groups[1..];
    } else {
      MatchesAddToGroup(groups[1..], row, k);
      assert AddToGroup(groups, row)[1..] == AddToGroup(groups[1..], row);
    }
  }

  /** A key meets at most one group, and that group is what the correlated subquery selects. */
  lemma {:induction false} GroupedIsCorrelated<V>(rows: seq<Keyed<V>>, k: Id)
    ensures Matches(GroupBy(rows), k) == if Select(rows, k) == [] then [] else [Select(rows, k)]
  {
    if rows == [] {
    } else {
      var row, groups := rows[0], GroupBy(rows[1..]);
      GroupedIsCorrelated(rows[1..], k);
      MatchesAddToGroup(groups, row, k);
      if k == row.key {
        assert [row.val] + [] == [row.val];
        assert Matches(GroupBy(rows), k) == [[row.val] + Select(rows[1..], k)];
      }
    }
  }

  function Coalesced(items: seq<Item>): Option<seq<Item>> {
    if items == [] then None else Some(items)
  }

  function Repeat<T>(row: T, k: nat): seq<T> {
    if k == 0 then [] else [row] + Repeat(row, k - 1)
  }

  /** How often the joined views list a note: once per notes_tags row, and once without any. */
  function Copies(t: Tables, n: Id): nat {
    var k := |set l | l in t.notesTags && l.src == n|;
    if k == 0 then 1 else k
  }

  lemma {:induction false} LinksOfEnumerates(links: seq<Link>, n: Id)
    requires NoDup(links)
    ensures Enumerates(LinksOf(links, n), set l | l in links && l.src == n)
  {
    if links == [] {
    } else {
      var rest := links[1..];
      NoDupTail(links);
      LinksOfEnumerates(rest, n);
      assert links == [links[0]] + rest;
      assert links[0] !in LinksOf(rest, n);
    }
  }

  lemma LinkCount(t: Tables, s: Scan, n: Id)
    requires ScanOf(s, t)
    ensures |Left(LinksOf(s.notesTags, n))| == Copies(t, n)
  {
    var links := LinksOf(s.notesTags, n);
    LinksOfEnumerates(s.notesTags, n);
    ElemsSize(links);
    var those := set l | l in t.notesTags && l.src == n;
    assert Elems(links) == those;
  }

  lemma {:induction false} LoopRepeats(t: Tables, n: Id, bm: bool, links: seq<Option<Link>>,
                                       tags: Option<seq<Item>>, refs: Option<seq<Item>>, refBy: Option<seq<Item>>)
    requires n in t.notes
    ensures LoopTagLinks(t, n, bm, links, [tags], [refs], [refBy]) ==
            Repeat(DetailsRow(t, n, bm, tags, refs, refBy), |links|)
  {
    if links == [] {
    } else {
      var row := DetailsRow(t, n, bm, tags, refs, refBy);
      assert LoopRefBy(t, n, bm, tags, refs, [refBy]) == [row];
      assert LoopRefs(t, n, bm, tags, [refs], [refBy]) == [row];
      assert LoopTags(t, n, bm, [tags], [refs], [refBy]) == [row];
      LoopRepeats(t, n, bm, links[1..], tags, refs, refBy);
    }
  }

  /** For one note, the joined view is the correlated row, repeated. */
  lemma JoinedRowsOfNote(t: Tables, s: Scan, n: Id, bm: bool)
    requires ScanOf(s, t) && n in t.notes
    ensures JoinedRowsOf(t, s, n, bm) == Repeat(CorrelatedRow(t, OneTagScan(s), n, bm), Copies(t, n))
  {
    GroupedIsCorrelated(JoinNames(s.notesTags, t.tags), n);
    GroupedIsCorrelated(JoinNames(s.refs, Titles(t.notes)), n);
    GroupedIsCorrelated(JoinNames(Reversed(s.refBys), Titles(t.notes)), n);
    var tags, refs := Coalesced(Tagged(t, s, n)), Coalesced(Referenced(t, s, n));
    var refBy := Coalesced(ReferencedBy(t, s, n));
    LoopRepeats(t, n, bm, Left(LinksOf(s.notesTags, n)), tags, refs, refBy);
    LinkCount(t, s, n);
    assert Left(Matches(GroupBy(JoinNames(s.notesTags, t.tags)), n)) == [tags];
    assert Left(Matches(GroupBy(JoinNames(s.refs, Titles(t.notes))), n)) == [refs];
    assert Left(Matches(GroupBy(JoinNames(Reversed(s.refBys), Titles(t.notes))), n)) == [refBy];
    assert DetailsRow(t, n, bm, tags, refs, refBy) == CorrelatedRow(t, OneTagScan(s), n, bm);
  }

  // ----- 0005 against 0006 -----

  lemma {:induction false} RepeatCounts<T>(row: T, k: nat, other: T)
    ensures multiset(Repeat(row, k))[other] == if other == row then k else 0
  {
    if k == 0 {
    } else {
      RepeatCounts(row, k - 1, other);
    }
  }

  lemma {:induction false} JoinedCounts(t: Tables, s: Scan, ids: seq<Id>, bm: bool, row: Details)
    requires ScanOf(s, t) && NoDup(ids)
    requires forall n :: n in ids ==> n in t.notes
    ensures multiset(JoinedRows(t, s, ids, bm))[row] ==
            if row.id in ids && row == CorrelatedRow(t, OneTagScan(s), row.id, bm) then Copies(t, row.id) else 0
  {
    if ids == [] {
    } else {
      var n, rest := ids[0], ids[1..];
      assert ids == [n] + rest;
      NoDupTail(ids);
      JoinedCounts(t, s, rest, bm, row);
      JoinedRowsOfNote(t, s, n, bm);
      RepeatCounts(CorrelatedRow(t, OneTagScan(s), n, bm), Copies(t, n), row);
      assert multiset(JoinedRows(t, s, ids, bm)) ==
             multiset(JoinedRowsOf(t, s, n, bm)) + multiset(JoinedRows(t, s, rest, bm));
    }
  }

  lemma {:induction false} CorrelatedCounts(t: Tables, s: Scan, ids: seq<Id>, row: Details)
    requires NoDup(ids)
    requires forall n :: n in ids ==> n in t.notes
    ensures |CorrelatedRows(t, s, ids)| == |ids|
    ensures multiset(CorrelatedRows(t, s, ids))[row] ==
            if row.id in ids && row == CorrelatedRow(t, s, row.id, true) then 1 else 0
  {
    if ids == [] {
    } else {
      var n, rest := ids[0], ids[1..];
      assert ids == [n] + rest;
      NoDupTail(ids);
      CorrelatedCounts(t, s, rest, row);
      assert CorrelatedRows(t, s, ids) == [CorrelatedRow(t, s, n, true)] + CorrelatedRows(t, s, rest);
    }
  }

  /** 0006 gives exactly one row per note, the correlated one. */
  lemma View6OneRowPerNote(t: Tables, s: Scan, row: Details)
    requires ScanOf(s, t)
    ensures |View6(t, s)| == |t.notes|
    ensures multiset(View6(t, s))[row] == if row.id in t.notes && row == CorrelatedRow(t, s, row.id, true) then 1 else 0
  {
    ElemsSize(s.notes);
    assert Elems(s.notes) == t.notes.Keys;
    CorrelatedCounts(t, s, s.notes, row);
  }

  lemma View6Size(t: Tables, s: Scan)
    requires ScanOf(s, t)
    ensures |View6(t, s)| == |t.notes|
  {
    if s.notes != [] {
      View6OneRowPerNote(t, s, CorrelatedRow(t, s, s.notes[0], true));
    } else {
      assert t.notes.Keys == {} by {
        assert forall n :: n in t.notes.Keys ==> n in s.notes;
      }
    }
  }

  /** The rewrite of migration 0006: 0005 repeats each row of 0006 max(1, number of its tags)
      times and has no other row, both columns of the tags being read in one order as 0005 does;
      in another order 0006 has the same names in its text. */
  lemma View5IsView6Repeated(t: Tables, s: Scan, row: Details)
    requires ScanOf(s, t)
    ensures multiset(View5(t, s))[row] == if row in View6(t, OneTagScan(s)) then Copies(t, row.id) else 0
  {
    JoinedCounts(t, s, s.notes, true, row);
    View6OneRowPerNote(t, OneTagScan(s), row);
    assert row in multiset(View6(t, OneTagScan(s))) <==> row in View6(t, OneTagScan(s));
  }

  lemma View5HasTheRowsOfView6(t: Tables, s: Scan, row: Details)
    requires ScanOf(s, t)
    ensures row in View5(t, s) <==> row in View6(t, OneTagScan(s))
  {
    View5IsView6Repeated(t, s, row);
    assert row in multiset(View5(t, s)) <==> row in View5(t, s);
  }
}
