/** The tag check of the note form: a count comparison first, a search per id only if it fails. */
module NoteForm {
  import opened Collections
  import opened NotesTables

  datatype Tag = Tag(id: Id, name: string)

  /** The ids of a scan that are IN the list. */
  function AskedFor(scan: seq<Id>, ids: seq<Id>): (hits: seq<Id>)
    ensures forall id :: id in hits <==> id in scan && id in ids
    ensures NoDup(scan) ==> NoDup(hits)
  {
    if scan == [] then []
    else
      var rest := AskedFor(scan[1..], ids);
      assert scan == [scan[0]] + scan[1..];
      if scan[0] in ids then
        assert NoDup(scan) ==> NoDup([scan[0]] + rest) by {
          if NoDup(scan) {
            NoDupTail(scan);
            NoDupConcat([scan[0]], rest);
          }
        }
        [scan[0]] + rest
      else
        assert NoDup(scan) ==> NoDup(rest) by {
          if NoDup(scan) {
            NoDupTail(scan);
          }
        }
        rest
  }

  /** SELECT id, name FROM tags WHERE id IN (...): each stored tag asked for, once. */
  method QueryTags(tags: map<Id, string>, ids: seq<Id>) returns (rows: seq<Tag>)
    ensures forall tag :: tag in rows <==> tag.id in ids && tag.id in tags && tags[tag.id] == tag.name
    ensures |rows| == |tags.Keys * Elems(ids)|
  {
    var hits := AskedFor(Sorted(tags.Keys), ids);
    rows := [];
    for i := 0 to |hits|
      invariant |rows| == i
      invariant forall k :: 0 <= k < i ==> hits[k] in tags && rows[k] == Tag(hits[k], tags[hits[k]])
    {
      assert hits[i] in tags.Keys;
      rows := rows + [Tag(hits[i], tags[hits[i]])];
    }
    RowsOfHits(tags, ids, hits, rows);
  }

  lemma RowsOfHits(tags: map<Id, string>, ids: seq<Id>, hits: seq<Id>, rows: seq<Tag>)
    requires NoDup(hits) && |rows| == |hits|
    requires forall id :: id in hits <==> id in tags && id in ids
    requires forall k :: 0 <= k < |rows| ==> hits[k] in tags && rows[k] == Tag(hits[k], tags[hits[k]])
    ensures forall tag :: tag in rows <==> tag.id in ids && tag.id in tags && tags[tag.id] == tag.name
    ensures |rows| == |tags.Keys * Elems(ids)|
  {
    ElemsSize(hits);
    assert Elems(hits) == tags.Keys * Elems(ids);
    forall tag: Tag | tag.id in ids && tag.id in tags && tags[tag.id] == tag.name
      ensures tag in rows
    {
      var k :| 0 <= k < |hits| && hits[k] == tag.id;
      assert rows[k] == tag;
    }
  }

  /** slices.ContainsFunc on the rows found. */
  predicate Listed(rows: seq<Tag>, id: Id) {
    exists tag :: tag in rows && tag.id == id
  }

  /** By pigeonhole, as many rows as submitted ids means that every id is stored. */
  lemma SameCountMeansAllStored(stored: set<Id>, ids: seq<Id>)
    requires |stored * Elems(ids)| == |ids|
    ensures forall id :: id in ids ==> id in stored
  {
    ElemsSize(ids);
    SubsetOfSameSize(stored * Elems(ids), Elems(ids));
    forall id | id in ids
      ensures id in stored
    {
      assert id in Elems(ids);
    }
  }

  lemma {:induction false} SubsetOfSameSize(a: set<Id>, b: set<Id>)
    requires a <= b && |a| >= |b|
    ensures a == b
    decreases |a|
  {
    if |a| > 0 {
      var x :| x in a;
      SubsetOfSameSize(a - {x}, b - {x});
      assert a == (a - {x}) + {x} && b == (b - {x}) + {x};
    }
  }

  /** The field error "tags", naming the last submitted id that is not stored. */
  method ValidateTags(tags: map<Id, string>, tagIds: seq<Id>) returns (error: Option<Id>)
    ensures error.Some? <==> exists id :: id in tagIds && id !in tags
    ensures error.Some? ==> exists i :: 0 <= i < |tagIds| && tagIds[i] == error.value && tagIds[i] !in tags
                                        && forall k :: i < k < |tagIds| ==> tagIds[k] in tags
  {
    error := None;
    if |tagIds| > 0 {
      var rows := QueryTags(tags, tagIds);
      if |rows| != |tagIds| {
        ghost var last := -1;
        for i := 0 to |tagIds|
          invariant -1 <= last < i
          invariant error == if last >= 0 then Some(tagIds[last]) else None
          invariant last >= 0 ==> tagIds[last] !in tags
          invariant forall k :: last < k < i ==> tagIds[k] in tags
        {
          assert tagIds[i] in tagIds;
          assert Listed(rows, tagIds[i]) <==> tagIds[i] in tags by {
            if tagIds[i] in tags {
              assert Tag(tagIds[i], tags[tagIds[i]]) in rows;
            }
          }
          if !Listed(rows, tagIds[i]) {
            error := Some(tagIds[i]);
            last := i;
          }
        }
        if last >= 0 {
          assert tagIds[last] in tagIds;
        }
      } else {
        SameCountMeansAllStored(tags.Keys, tagIds);
      }
    }
  }
}
