/** The four generations of the notes_details view as relational expressions over table scans.
    A scan fixes the order in which a query meets the rows of a table; nothing else about the
    query plan is assumed. */
module NotesViews {
  import opened Collections
  import opened NotesTables

  /** The text and the JSON array of the tags, and the two directions of the references, come from
      subqueries of their own, each with an order of its own. */
  datatype Scan = Scan(notes: seq<Id>, notesTags: seq<Link>, tagTexts: seq<Link>, refs: seq<Link>, refBys: seq<Link>)

  ghost predicate ScanOf(s: Scan, t: Tables) {
    && Enumerates(s.notes, t.notes.Keys)
    && Enumerates(s.notesTags, t.notesTags)
    && Enumerates(s.tagTexts, t.notesTags)
    && Enumerates(s.refs, t.refs)
    && Enumerates(s.refBys, t.refs)
  }

  /** The joined views take text and JSON array of the tags from one subquery. */
  function OneTagScan(s: Scan): Scan {
    s.(tagTexts := s.notesTags)
  }

  // ----- Relational building blocks -----

  /** An element of a JSON array: JSON_OBJECT('id', ..., 'name' or 'title', ...). */
  datatype Item = Item(id: Id, name: string)

  datatype Keyed<V> = Keyed(key: Id, val: V)

  datatype Group<V> = Group(key: Id, vals: seq<V>)

  /** links JOIN names ON names.id = links.dst, keyed by links.src. */
  function JoinNames(links: seq<Link>, names: map<Id, string>): seq<Keyed<Item>> {
    if links == [] then []
    else
      var rest := JoinNames(links[1..], names);
      var l := links[0];
      if l.dst in names then [Keyed(l.src, Item(l.dst, names[l.dst]))] + rest else rest
  }

  /** WHERE key = k. */
  function Select<V>(rows: seq<Keyed<V>>, k: Id): seq<V> {
    if rows == [] then []
    else if rows[0].key == k then [rows[0].val] + Select(rows[1..], k)
    else Select(rows[1..], k)
  }

  function AddToGroup<V>(groups: seq<Group<V>>, row: Keyed<V>): seq<Group<V>> {
    if groups == [] then [Group(row.key, [row.val])]
    else if groups[0].key == row.key then [Group(row.key, [row.val] + groups[0].vals)] + groups[1..]
    else [groups[0]] + AddToGroup(groups[1..], row)
  }

  /** GROUP BY key: one group per key that occurs, its rows in scan order. */
  function GroupBy<V>(rows: seq<Keyed<V>>): seq<Group<V>> {
    if rows == [] then [] else AddToGroup(GroupBy(rows[1..]), rows[0])
  }

  /** The groups an outer row with key k joins with. */
  function Matches<V>(groups: seq<Group<V>>, k: Id): seq<seq<V>> {
    if groups == [] then []
    else if groups[0].key == k then [groups[0].vals] + Matches(groups[1..], k)
    else Matches(groups[1..], k)
  }

  /** LEFT JOIN: an outer row without a match is kept once, joined with NULL. */
  function Left<V>(matches: seq<V>): seq<Option<V>> {
    if matches == [] then [None] else seq(|matches|, i requires 0 <= i < |matches| => Some(matches[i]))
  }

  /** The rows of a link table with note_id = n. */
  function LinksOf(links: seq<Link>, n: Id): seq<Link> {
    if links == [] then []
    else if links[0].src == n then [links[0]] + LinksOf(links[1..], n)
    else LinksOf(links[1..], n)
  }

  function Reversed(links: seq<Link>): seq<Link> {
    seq(|links|, i requires 0 <= i < |links| => Link(links[i].dst, links[i].src))
  }

  /** GROUP_CONCAT(name, ' ') over a non-empty group. */
  function Concat(items: seq<Item>): string {
    if items == [] then ""
    else if |items| == 1 then items[0].name
    else items[0].name + " " + Concat(items[1..])
  }

  function Lookup(names: map<Id, string>, k: Id): Option<string> {
    if k in names then Some(names[k]) else None
  }

  // ----- The views -----

  datatype Details = Details(
    id: Id,
    sectionId: Id,
    sectionName: Option<string>,
    title: string,
    content: string,
    bookmark: Option<bool>,
    tagsJson: seq<Item>,
    tagsTxt: string,
    refsJson: seq<Item>,
    refByJson: seq<Item>)

  /** One output row, COALESCE turning the NULL of an unmatched LEFT JOIN into '[]' or ''. */
  function DetailsRow(t: Tables, n: Id, withBookmark: bool,
                      tags: Option<seq<Item>>, refs: Option<seq<Item>>, refBy: Option<seq<Item>>): Details
    requires n in t.notes
  {
    var note := t.notes[n];
    Details(n, note.section, Lookup(t.sections, note.section), note.title, note.content,
            if withBookmark then Some(note.bookmark) else None,
            tags.GetOr([]), Concat(tags.GetOr([])), refs.GetOr([]), refBy.GetOr([]))
  }

  /** The correlated subqueries of migration 0006 for one note. */
  function Tagged(t: Tables, s: Scan, n: Id): seq<Item> {
    Select(JoinNames(s.notesTags, t.tags), n)
  }

  function Referenced(t: Tables, s: Scan, n: Id): seq<Item> {
    Select(JoinNames(s.refs, Titles(t.notes)), n)
  }

  function ReferencedBy(t: Tables, s: Scan, n: Id): seq<Item> {
    Select(JoinNames(Reversed(s.refBys), Titles(t.notes)), n)
  }

  function TagText(t: Tables, s: Scan, n: Id): string {
    Concat(Select(JoinNames(s.tagTexts, t.tags), n))
  }

  function CorrelatedRow(t: Tables, s: Scan, n: Id, withBookmark: bool): Details
    requires n in t.notes
  {
    DetailsRow(t, n, withBookmark, Some(Tagged(t, s, n)), Some(Referenced(t, s, n)), Some(ReferencedBy(t, s, n)))
      .(tagsTxt := TagText(t, s, n))
  }

  function CorrelatedRows(t: Tables, s: Scan, ids: seq<Id>): seq<Details>
    requires forall n :: n in ids ==> n in t.notes
  {
    if ids == [] then []
    else
      assert ids[0] in ids;
      [CorrelatedRow(t, s, ids[0], true)] + CorrelatedRows(t, s, ids[1..])
  }

  /** Migration 0006. */
  function View6(t: Tables, s: Scan): seq<Details>
    requires forall n :: n in s.notes ==> n in t.notes
  {
    CorrelatedRows(t, s, s.notes)
  }

  // The join view of migrations 0004 and 0005: a loop per joined table, innermost last.

  function LoopRefBy(t: Tables, n: Id, bm: bool, tags: Option<seq<Item>>, refs: Option<seq<Item>>,
                     refBys: seq<Option<seq<Item>>>): seq<Details>
    requires n in t.notes
  {
    if refBys == [] then []
    else [DetailsRow(t, n, bm, tags, refs, refBys[0])] + LoopRefBy(t, n, bm, tags, refs, refBys[1..])
  }

  function LoopRefs(t: Tables, n: Id, bm: bool, tags: Option<seq<Item>>, refss: seq<Option<seq<Item>>>,
                    refBys: seq<Option<seq<Item>>>): seq<Details>
    requires n in t.notes
  {
    if refss == [] then []
    else LoopRefBy(t, n, bm, tags, refss[0], refBys) + LoopRefs(t, n, bm, tags, refss[1..], refBys)
  }

  function LoopTags(t: Tables, n: Id, bm: bool, tagss: seq<Option<seq<Item>>>, refss: seq<Option<seq<Item>>>,
                    refBys: seq<Option<seq<Item>>>): seq<Details>
    requires n in t.notes
  {
    if tagss == [] then []
    else LoopRefs(t, n, bm, tagss[0], refss, refBys) + LoopTags(t, n, bm, tagss[1..], refss, refBys)
  }

  /** The join with notes_tags, none of whose columns is selected. */
  function LoopTagLinks(t: Tables, n: Id, bm: bool, links: seq<Option<Link>>, tagss: seq<Option<seq<Item>>>,
                        refss: seq<Option<seq<Item>>>, refBys: seq<Option<seq<Item>>>): seq<Details>
    requires n in t.notes
  {
    if links == [] then []
    else LoopTags(t, n, bm, tagss, refss, refBys) + LoopTagLinks(t, n, bm, links[1..], tagss, refss, refBys)
  }

  function JoinedRowsOf(t: Tables, s: Scan, n: Id, bm: bool): seq<Details>
    requires n in t.notes
  {
    LoopTagLinks(t, n, bm,
                 Left(LinksOf(s.notesTags, n)),
                 Left(Matches(GroupBy(JoinNames(s.notesTags, t.tags)), n)),
                 Left(Matches(GroupBy(JoinNames(s.refs, Titles(t.notes))), n)),
                 Left(Matches(GroupBy(JoinNames(Reversed(s.refBys), Titles(t.notes))), n)))
  }

  function JoinedRows(t: Tables, s: Scan, ids: seq<Id>, bm: bool): seq<Details>
    requires forall n :: n in ids ==> n in t.notes
  {
    if ids == [] then []
    else
      assert ids[0] in ids;
      JoinedRowsOf(t, s, ids[0], bm) + JoinedRows(t, s, ids[1..], bm)
  }

  /** Migration 0004. */
  function View4(t: Tables, s: Scan): seq<Details>
    requires forall n :: n in s.notes ==> n in t.notes
  {
    JoinedRows(t, s, s.notes, false)
  }

  /** Migration 0005. */
  function View5(t: Tables, s: Scan): seq<Details>
    requires forall n :: n in s.notes ==> n in t.notes
  {
    JoinedRows(t, s, s.notes, true)
  }

  // The grouped view of migration 0002: an untagged note contributes one NULL tag.

  datatype Details2 = Details2(
    id: Id,
    sectionId: Id,
    sectionName: Option<string>,
    title: string,
    content: string,
    tagsJson: seq<Option<Item>>,
    tagsTxt: Option<string>)

  function TagOfLink(t: Tables, l: Option<Link>): Option<Item> {
    if l.Some? && l.value.dst in t.tags then Some(Item(l.value.dst, t.tags[l.value.dst])) else None
  }

  function LoopLinks(t: Tables, n: Id, links: seq<Option<Link>>): seq<Keyed<Option<Item>>> {
    if links == [] then [] else [Keyed(n, TagOfLink(t, links[0]))] + LoopLinks(t, n, links[1..])
  }

  function LeftJoined(t: Tables, s: Scan, ids: seq<Id>): seq<Keyed<Option<Item>>> {
    if ids == [] then []
    else LoopLinks(t, ids[0], Left(LinksOf(s.notesTags, ids[0]))) + LeftJoined(t, s, ids[1..])
  }

  function NonNull(items: seq<Option<Item>>): seq<Item> {
    if items == [] then []
    else if items[0].Some? then [items[0].value] + NonNull(items[1..])
    else NonNull(items[1..])
  }

  /** GROUP_CONCAT skips NULLs and is NULL when nothing is left. */
  function ConcatNullable(items: seq<Option<Item>>): Option<string> {
    if NonNull(items) == [] then None else Some(Concat(NonNull(items)))
  }

  /** The other columns of a group are those of the one note it stands for. */
  function Row2(t: Tables, g: Group<Option<Item>>): Details2
    requires g.key in t.notes
  {
    var note := t.notes[g.key];
    Details2(g.key, note.section, Lookup(t.sections, note.section), note.title, note.content,
             g.vals, ConcatNullable(g.vals))
  }

  function Rows2(t: Tables, groups: seq<Group<Option<Item>>>): seq<Details2> {
    if groups == [] then []
    else if groups[0].key in t.notes then [Row2(t, groups[0])] + Rows2(t, groups[1..])
    else Rows2(t, groups[1..])
  }

  /** Migration 0002. */
  function View2(t: Tables, s: Scan): seq<Details2> {
    Rows2(t, GroupBy(LeftJoined(t, s, s.notes)))
  }
}
