/** ListNotes and ListTags: pages by LIMIT limit+1 OFFSET offset over the rows in id order. */
module Pagination {
  import opened Collections

  datatype Page<T> = Page(rows: seq<T>, limit: nat, offset: nat, hasMore: bool, nextOffset: Option<nat>)

  /** LIMIT k OFFSET o. */
  function Window<T>(rows: seq<T>, k: nat, o: nat): seq<T> {
    if |rows| <= o then [] else if |rows| <= o + k then rows[o..] else rows[o..o + k]
  }

  lemma WindowMeans<T>(rows: seq<T>, k: nat, o: nat)
    ensures |Window(rows, k, o)| == if |rows| <= o then 0 else if |rows| - o < k then |rows| - o else k
    ensures forall i :: 0 <= i < |Window(rows, k, o)| ==> Window(rows, k, o)[i] == rows[o + i]
  {
  }

  /** Asking for one row more than a page tells whether there are more. */
  lemma OneMoreThanAPage<T>(table: seq<T>, lim: nat, o: nat)
    ensures var found := Window(table, lim + 1, o);
            && (|found| > lim <==> o + lim < |table|)
            && Window(table, lim, o) == if |found| > lim then found[..lim] else found
  {
  }

  /** One page of the table. default is 5 for notes and 10 for tags. */
  method ListPage<T>(table: seq<T>, limit: int, offset: int, default: nat) returns (page: Page<T>)
    requires default > 0
    ensures limit > 0 ==> page.limit == limit
    ensures limit <= 0 ==> page.limit == default
    ensures offset >= 0 ==> page.offset == offset
    ensures offset < 0 ==> page.offset == 0
    ensures page.rows == Window(table, page.limit, page.offset)
    ensures |page.rows| == (if |table| <= page.offset then 0
                            else if |table| - page.offset < page.limit then |table| - page.offset else page.limit)
    ensures forall i :: 0 <= i < |page.rows| ==> page.rows[i] == table[page.offset + i]
    ensures page.hasMore <==> page.offset + |page.rows| < |table|
    ensures page.nextOffset == if page.hasMore then Some(page.offset + |page.rows|) else None
  {
    var lim := if limit <= 0 then default else limit;
    var off := if offset < 0 then 0 else offset;
    var found := Window(table, lim + 1, off);
    var rows := [];
    for i := 0 to |found|
      invariant rows == found[..i]
    {
      rows := rows + [found[i]];
    }
    assert rows == found;
    OneMoreThanAPage(table, lim, off);
    WindowMeans(table, lim, off);
    var hasMore := |rows| > lim;
    var next: Option<nat> := None;
    if hasMore {
      rows := rows[..lim];
      next := Some(off + lim);
    }
    page := Page(rows, lim, off, hasMore, next);
  }

  /** Following NextOffset from the first page until there is none: the pages are the whole table
      in order, all but the last one full, and the last one empty only if the table is. */
  method FollowPages<T>(table: seq<T>, limit: int, default: nat) returns (pages: seq<Page<T>>)
    requires default > 0
    ensures Concatenated(pages) == table
    ensures |pages| > 0 && (table != [] ==> pages[|pages| - 1].rows != [])
    ensures forall i :: 0 <= i < |pages| - 1 ==> |pages[i].rows| == if limit > 0 then limit else default
  {
    ghost var lim: nat := if limit > 0 then limit else default;
    var page := ListPage(table, limit, 0, default);
    assert IsPage(table, lim, page);
    pages := [page];
    FirstPage(table, lim, page);
    while page.nextOffset.Some?
      invariant |pages| > 0 && pages[|pages| - 1] == page
      invariant Followed(table, lim, pages)
      decreases |table| - page.offset
    {
      page := ListPage(table, limit, page.nextOffset.value, default);
      assert IsPage(table, lim, page);
      NextPage(table, lim, pages, page);
      pages := pages + [page];
    }
    assert table[..|table|] == table;
  }

  ghost predicate IsPage<T>(table: seq<T>, lim: nat, page: Page<T>) {
    && page.rows == Window(table, lim, page.offset)
    && page.nextOffset == (if page.offset + |page.rows| < |table| then Some(page.offset + |page.rows|) else None)
  }

  /** The pages so far are the table up to the end of the last one. */
  ghost predicate Followed<T>(table: seq<T>, lim: nat, pages: seq<Page<T>>) {
    && |pages| > 0
    && (forall i :: 0 <= i < |pages| - 1 ==> |pages[i].rows| == lim)
    && var last := pages[|pages| - 1];
    && IsPage(table, lim, last)
    && (table != [] ==> last.rows != [])
    && last.offset + |last.rows| <= |table|
    && Concatenated(pages) == table[..last.offset + |last.rows|]
  }

  lemma FirstPage<T>(table: seq<T>, lim: nat, page: Page<T>)
    requires lim > 0 && page.offset == 0 && IsPage(table, lim, page)
    ensures Followed(table, lim, [page])
  {
    WindowExtends(table, lim, 0);
    Singleton(page);
  }

  lemma NextPage<T>(table: seq<T>, lim: nat, pages: seq<Page<T>>, page: Page<T>)
    requires lim > 0 && Followed(table, lim, pages) && pages[|pages| - 1].nextOffset == Some(page.offset)
    requires IsPage(table, lim, page)
    ensures Followed(table, lim, pages + [page])
    ensures page.offset > pages[|pages| - 1].offset
  {
    var last := pages[|pages| - 1];
    WindowExtends(table, lim, last.offset);
    WindowExtends(table, lim, page.offset);
    AppendPage(pages, page);
  }

  /** A window that starts where the rows so far end carries on with the next rows. */
  lemma WindowExtends<T>(table: seq<T>, lim: nat, o: nat)
    requires o <= |table|
    ensures o + |Window(table, lim, o)| <= |table|
    ensures |Window(table, lim, o)| == if |table| - o <= lim then |table| - o else lim
    ensures table[..o] + Window(table, lim, o) == table[..o + |Window(table, lim, o)|]
  {
  }

  function Concatenated<T>(pages: seq<Page<T>>): seq<T> {
    if pages == [] then [] else Concatenated(pages[..|pages| - 1]) + pages[|pages| - 1].rows
  }

  lemma Singleton<T>(page: Page<T>)
    ensures Concatenated([page]) == page.rows
  {
    assert [page][..0] == [];
  }

  lemma AppendPage<T>(pages: seq<Page<T>>, page: Page<T>)
    ensures Concatenated(pages + [page]) == Concatenated(pages) + page.rows
  {
    assert (pages + [page])[..|pages|] == pages;
  }
}
