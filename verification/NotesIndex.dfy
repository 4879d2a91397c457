/** The full-text index over notes_details: a set of (rowid, column, term) that the program keeps
    in step by hand, and what each generation of the view would put into it. */
module NotesIndex {
  import opened Collections
  import opened NotesTables
  import opened NotesViews
  import opened NotesViewEquivalence

  datatype Column = TitleCol | ContentCol | TagsCol

  datatype Entry = Entry(rowid: Id, column: Column, term: string)

  type Tokenizer = string -> set<string>

  /** What the index asks of a tokenizer: a space separates terms. */
  ghost predicate SplitsAtSpaces(tok: Tokenizer) {
    && tok("") == {}
    && forall a: string, b: string :: tok(a + " " + b) == tok(a) + tok(b)
  }

  function ColumnEntries(id: Id, column: Column, terms: set<string>): set<Entry> {
    set w | w in terms :: Entry(id, column, w)
  }

  /** The entries one INSERT adds and one 'delete' takes away. */
  function DocEntries(tok: Tokenizer, id: Id, title: string, content: string, tagsTxt: string): set<Entry> {
    ColumnEntries(id, TitleCol, tok(title)) + ColumnEntries(id, ContentCol, tok(content)) +
    ColumnEntries(id, TagsCol, tok(tagsTxt))
  }

  function RowEntries(tok: Tokenizer, row: Details): set<Entry> {
    DocEntries(tok, row.id, row.title, row.content, row.tagsTxt)
  }

  /** A NULL column holds no terms. */
  function RowEntries2(tok: Tokenizer, row: Details2): set<Entry> {
    ColumnEntries(row.id, TitleCol, tok(row.title)) + ColumnEntries(row.id, ContentCol, tok(row.content)) +
    match row.tagsTxt
    case None => {}
    case Some(txt) => ColumnEntries(row.id, TagsCol, tok(txt))
  }

  // ----- What a note should be found by, straight from the tables -----

  ghost predicate HasTagTerm(tok: Tokenizer, t: Tables, n: Id, w: string) {
    exists l :: l in t.notesTags && l.src == n && l.dst in t.tags && w in tok(t.tags[l.dst])
  }

  ghost predicate Mentions(tok: Tokenizer, t: Tables, n: Id, column: Column, w: string) {
    n in t.notes &&
    match column
    case TitleCol => w in tok(t.notes[n].title)
    case ContentCol => w in tok(t.notes[n].content)
    case TagsCol => HasTagTerm(tok, t, n, w)
  }

  function NoteEntries(tok: Tokenizer, t: Tables, n: Id): set<Entry> {
    if n !in t.notes then {}
    else
      var tagTerms := set l, w | l in t.notesTags && l.src == n && l.dst in t.tags && w in tok(t.tags[l.dst]) :: w;
      ColumnEntries(n, TitleCol, tok(t.notes[n].title)) + ColumnEntries(n, ContentCol, tok(t.notes[n].content)) +
      ColumnEntries(n, TagsCol, tagTerms)
  }

  lemma NoteEntriesMean(tok: Tokenizer, t: Tables, n: Id, e: Entry)
    ensures e in NoteEntries(tok, t, n) <==> e.rowid == n && Mentions(tok, t, n, e.column, e.term)
  {
  }

  /** The index that holds exactly the documents of the given notes. */
  function IndexOf(tok: Tokenizer, t: Tables, ids: set<Id>): set<Entry> {
    set n, e | n in ids && e in NoteEntries(tok, t, n) :: e
  }

  /** The index rebuilt from scratch. */
  function Rebuilt(tok: Tokenizer, t: Tables): set<Entry> {
    IndexOf(tok, t, t.notes.Keys)
  }

  lemma IndexOfMeans(tok: Tokenizer, t: Tables, ids: set<Id>, e: Entry)
    ensures e in IndexOf(tok, t, ids) <==> e.rowid in ids && Mentions(tok, t, e.rowid, e.column, e.term)
  {
    if e in IndexOf(tok, t, ids) {
      var n :| n in ids && e in NoteEntries(tok, t, n);
      NoteEntriesMean(tok, t, n, e);
    }
    NoteEntriesMean(tok, t, e.rowid, e);
  }

  lemma SingleIndex(tok: Tokenizer, t: Tables, n: Id)
    ensures IndexOf(tok, t, {n}) == NoteEntries(tok, t, n)
    ensures IndexOf(tok, t, {}) == {}
  {
  }

  // ----- The text of the view against the tables -----

  lemma {:induction false} JoinNamesMember(links: seq<Link>, names: map<Id, string>, n: Id, item: Item)
    ensures item in Select(JoinNames(links, names), n) <==>
            Link(n, item.id) in links && item.id in names && names[item.id] == item.name
  {
    if links == [] {
    } else {
      var l, rest := links[0], links[1..];
      JoinNamesMember(rest, names, n, item);
      assert links == [l] + rest;
      if l.dst in names && l.src == n {
        assert JoinNames(links, names)[1..] == JoinNames(rest, names);
        assert Select(JoinNames(links, names), n) == [Item(l.dst, names[l.dst])] + Select(JoinNames(rest, names), n);
      } else if l.dst in names {
        assert JoinNames(links, names)[1..] == JoinNames(rest, names);
      }
    }
  }

  lemma {:induction false} ConcatTerms(tok: Tokenizer, items: seq<Item>, w: string)
    requires SplitsAtSpaces(tok)
    ensures w in tok(Concat(items)) <==> exists item :: item in items && w in tok(item.name)
  {
    if items == [] {
    } else if |items| == 1 {
      assert items[0] in items;
    } else {
      var first, rest := items[0], items[1..];
      ConcatTerms(tok, rest, w);
      assert items == [first] + rest;
      assert first in items;
      assert tok(first.name + " " + Concat(rest)) == tok(first.name) + tok(Concat(rest));
    }
  }

  /** The concatenated tag names of a note hold the terms of its tags, in whatever order they
      were scanned. */
  lemma TagTextTerms(tok: Tokenizer, t: Tables, links: seq<Link>, n: Id, w: string)
    requires SplitsAtSpaces(tok) && Enumerates(links, t.notesTags)
    ensures w in tok(Concat(Select(JoinNames(links, t.tags), n))) <==> HasTagTerm(tok, t, n, w)
  {
    var items := Select(JoinNames(links, t.tags), n);
    ConcatTerms(tok, items, w);
    if w in tok(Concat(items)) {
      var item :| item in items && w in tok(item.name);
      JoinNamesMember(links, t.tags, n, item);
      assert Link(n, item.id) in t.notesTags;
    }
    if HasTagTerm(tok, t, n, w) {
      var l :| l in t.notesTags && l.src == n && l.dst in t.tags && w in tok(t.tags[l.dst]);
      var item := Item(l.dst, t.tags[l.dst]);
      assert l == Link(n, item.id);
      JoinNamesMember(links, t.tags, n, item);
    }
  }

  lemma RowEntriesAreNoteEntries(tok: Tokenizer, t: Tables, s: Scan, n: Id, bm: bool)
    requires SplitsAtSpaces(tok) && ScanOf(s, t) && n in t.notes
    ensures RowEntries(tok, CorrelatedRow(t, s, n, bm)) == NoteEntries(tok, t, n)
  {
    var row := CorrelatedRow(t, s, n, bm);
    forall e: Entry
      ensures e in RowEntries(tok, row) <==> e in NoteEntries(tok, t, n)
    {
      TagTextTerms(tok, t, s.tagTexts, n, e.term);
      NoteEntriesMean(tok, t, n, e);
    }
  }

  // ----- Filling the index from each generation of the view -----

  function FilledFrom(tok: Tokenizer, rows: seq<Details>): set<Entry> {
    set row, e | row in rows && e in RowEntries(tok, row) :: e
  }

  function FilledFrom2(tok: Tokenizer, rows: seq<Details2>): set<Entry> {
    set row, e | row in rows && e in RowEntries2(tok, row) :: e
  }

  lemma FilledFromView6(tok: Tokenizer, t: Tables, s: Scan)
    requires SplitsAtSpaces(tok) && ScanOf(s, t)
    ensures FilledFrom(tok, View6(t, s)) == Rebuilt(tok, t)
  {
    var rows := View6(t, s);
    forall e: Entry
      ensures e in FilledFrom(tok, rows) <==> e in Rebuilt(tok, t)
    {
      if e in FilledFrom(tok, rows) {
        var row :| row in rows && e in RowEntries(tok, row);
        View6OneRowPerNote(t, s, row);
        assert multiset(rows)[row] > 0;
        RowEntriesAreNoteEntries(tok, t, s, row.id, true);
      }
      if e in Rebuilt(tok, t) {
        var n :| n in t.notes.Keys && e in NoteEntries(tok, t, n);
        var row := CorrelatedRow(t, s, n, true);
        View6OneRowPerNote(t, s, row);
        assert multiset(rows)[row] > 0;
        RowEntriesAreNoteEntries(tok, t, s, n, true);
      }
    }
  }

  lemma {:induction false} RepeatMember<T>(row: T, k: nat, other: T)
    requires k > 0
    ensures other in Repeat(row, k) <==> other == row
  {
    if k > 1 { RepeatMember(row, k - 1, other); }
  }

  lemma {:induction false} JoinedRowsMember(t: Tables, s: Scan, ids: seq<Id>, bm: bool, row: Details)
    requires ScanOf(s, t)
    requires forall n :: n in ids ==> n in t.notes
    ensures row in JoinedRows(t, s, ids, bm) <==>
            row.id in ids && row == CorrelatedRow(t, OneTagScan(s), row.id, bm)
  {
    if ids == [] {
    } else {
      var n, rest := ids[0], ids[1..];
      assert ids == [n] + rest;
      JoinedRowsMember(t, s, rest, bm, row);
      JoinedRowsOfNote(t, s, n, bm);
      RepeatMember(CorrelatedRow(t, OneTagScan(s), n, bm), Copies(t, n), row);
    }
  }

  lemma FilledFromJoined(tok: Tokenizer, t: Tables, s: Scan, bm: bool)
    requires SplitsAtSpaces(tok) && ScanOf(s, t)
    ensures FilledFrom(tok, JoinedRows(t, s, s.notes, bm)) == Rebuilt(tok, t)
  {
    var rows := JoinedRows(t, s, s.notes, bm);
    forall e: Entry
      ensures e in FilledFrom(tok, rows) <==> e in Rebuilt(tok, t)
    {
      if e in FilledFrom(tok, rows) {
        var row :| row in rows && e in RowEntries(tok, row);
        JoinedRowsMember(t, s, s.notes, bm, row);
        RowEntriesAreNoteEntries(tok, t, OneTagScan(s), row.id, bm);
      }
      if e in Rebuilt(tok, t) {
        var n :| n in t.notes.Keys && e in NoteEntries(tok, t, n);
        JoinedRowsMember(t, s, s.notes, bm, CorrelatedRow(t, OneTagScan(s), n, bm));
        RowEntriesAreNoteEntries(tok, t, OneTagScan(s), n, bm);
      }
    }
  }

  // ----- A tokenizer of the kind assumed -----

  function FirstSpace(s: string): (i: nat)
    ensures i <= |s| && ' ' !in s[..i]
    ensures i < |s| ==> s[i] == ' '
  {
    if s == "" || s[0] == ' ' then 0
    else
      assert s[..1 + FirstSpace(s[1..])] == [s[0]] + s[1..][..FirstSpace(s[1..])];
      1 + FirstSpace(s[1..])
  }

  lemma {:induction false} FirstSpaceIs(s: string, i: nat)
    requires i <= |s| && ' ' !in s[..i]
    requires i < |s| ==> s[i] == ' '
    ensures FirstSpace(s) == i
  {
    if i > 0 {
      assert s[0] in s[..i];
      assert forall c :: c in s[1..][..i - 1] ==> c in s[..i];
      FirstSpaceIs(s[1..], i - 1);
    }
  }

  /** The words between spaces. */
  function Words(s: string): set<string>
    decreases |s|
  {
    var i := FirstSpace(s);
    (if i == 0 then {} else {s[..i]}) + (if i < |s| then Words(s[i + 1..]) else {})
  }

  lemma {:induction false} WordsSplit(a: string, b: string)
    ensures Words(a + " " + b) == Words(a) + Words(b)
    decreases |a|
  {
    var s := a + " " + b;
    var i, j := FirstSpace(a), FirstSpace(s);
    assert s[|a|] == ' ';
    assert i < |a| ==> s[i] == ' ';
    assert s[..i] == a[..i];
    FirstSpaceIs(s, i);
    assert s[..j] == a[..i];
    if i < |a| {
      assert s[j + 1..] == a[i + 1..] + " " + b;
      WordsSplit(a[i + 1..], b);
    } else {
      assert s[j + 1..] == b;
    }
  }

  lemma WordsIsATokenizer()
    ensures SplitsAtSpaces(Words)
  {
    assert FirstSpace("") == 0;
    forall a: string, b: string
      ensures Words(a + " " + b) == Words(a) + Words(b)
    {
      WordsSplit(a, b);
    }
  }
}
