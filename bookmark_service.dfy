/**
 * `BookmarkService`: the bookmarks placed on pages, kept in memory in a map from
 * bookmark id to bookmark. Queries filter the map's values and sort them stably.
 */
module Bookmarks {
  import opened Wrappers
  import opened Records
  import opened Stores
  import opened Ranking

  /** The title a bookmark gets when none is given. */
  const DEFAULT_TITLE := "Bookmark"

  /** Every bookmark is filed under its own id, as `createBookmark` files it. */
  ghost predicate FiledById(m: map<string, Bookmark>) {
    forall k :: k in m ==> m[k].id == k
  }

  /** The filter of `getBookmarksForDocument` and `getBookmarkCount`. */
  function OfDocument(documentId: string): Bookmark -> bool {
    (b: Bookmark) => b.documentId == documentId
  }

  /** The filter of `getBookmarksForPage`. */
  function OnPage(documentId: string, pageNumber: int): Bookmark -> bool {
    (b: Bookmark) => b.documentId == documentId && b.pageNumber == pageNumber
  }

  /** Order within a document: page, then y, then x. */
  function DocumentOrder(b: Bookmark): Key {
    Key(b.pageNumber as real, b.y, b.x)
  }

  /** Order within a page: y, then x. */
  function PageOrder(b: Bookmark): Key {
    Key(b.y, b.x, 0.0)
  }

  /** The entries `clearBookmarksForDocument` leaves: those of every other document. */
  function WithoutDocument(m: map<string, Bookmark>, documentId: string): map<string, Bookmark> {
    map k | k in m && m[k].documentId != documentId :: m[k]
  }

  /** Clearing a document leaves none of its bookmarks. */
  lemma ClearRemovesDocument(m: map<string, Bookmark>, documentId: string)
    ensures CountWhere(WithoutDocument(m, documentId), OfDocument(documentId)) == 0
  {
    assert Matching(WithoutDocument(m, documentId), OfDocument(documentId)) == {};
  }

  /** Clearing a document leaves the bookmarks of every other document as they were. */
  lemma ClearKeepsOthers(m: map<string, Bookmark>, documentId: string, other: string)
    requires other != documentId
    ensures CountWhere(WithoutDocument(m, documentId), OfDocument(other)) == CountWhere(m, OfDocument(other))
    ensures forall k :: k in m && m[k].documentId == other ==> k in WithoutDocument(m, documentId)
  {
    var r := WithoutDocument(m, documentId);
    forall k ensures k in Matching(r, OfDocument(other)) <==> k in Matching(m, OfDocument(other)) {
      if k in m && m[k].documentId == other {
        assert k in r;
      }
    }
    assert Matching(r, OfDocument(other)) == Matching(m, OfDocument(other));
  }

  /** Clearing a document removes exactly as many entries as it had bookmarks. */
  lemma ClearShrinksByCount(m: map<string, Bookmark>, documentId: string)
    ensures |WithoutDocument(m, documentId)| == |m| - CountWhere(m, OfDocument(documentId))
  {
    var gone := Matching(m, OfDocument(documentId));
    PartSize(m.Keys, gone);
    assert WithoutDocument(m, documentId).Keys == m.Keys - gone;
  }

  /** Sorting the values a visiting list selects keeps exactly the accepted values. */
  lemma SortedSelection(m: map<string, Bookmark>, keep: Bookmark -> bool, keys: seq<string>, keyOf: Bookmark -> Key)
    requires Visits(m, keep, keys)
    requires forall i :: 0 <= i < |keys| ==> keys[i] in m
    ensures forall b :: b in SortBy(ValuesAt(m, keys), keyOf) <==> b in m.Values && keep(b)
    ensures |SortBy(ValuesAt(m, keys), keyOf)| == CountWhere(m, keep)
  {
    var s := ValuesAt(m, keys);
    var r := SortBy(s, keyOf);
    VisitedValues(m, keep, keys);
    VisitCount(m, keep, keys);
    forall b ensures b in r <==> b in s {
      assert b in r <==> b in multiset(r);
      assert b in s <==> b in multiset(s);
    }
    assert |r| == |multiset(r)| == |multiset(s)| == |s|;
  }

  class BookmarkService {
    var bookmarks: map<string, Bookmark>

    ghost predicate Valid()
      reads this
    {
      FiledById(bookmarks)
    }

    constructor ()
      ensures bookmarks == map[] && Valid()
    {
      bookmarks := map[];
    }

    /**
     * `createBookmark`: files a new bookmark under `bookmarkId` (the generated id,
     * given here), replacing any earlier one with that id. Both timestamps are `now`.
     */
    method CreateBookmark(documentId: string, pageNumber: int, x: real, y: real, title: Option<string>,
                          bookmarkId: string, now: int) returns (r: Bookmark)
      requires Valid()
      modifies this
      ensures Valid()
      ensures r == Bookmark(bookmarkId, documentId, pageNumber, x, y, title.GetOr(DEFAULT_TITLE), now, now)
      ensures bookmarks == old(bookmarks)[bookmarkId := r]
      ensures GetBookmark(bookmarkId) == Some(r)
    {
      r := Bookmark(bookmarkId, documentId, pageNumber, x, y, title.GetOr(DEFAULT_TITLE), now, now);
      bookmarks := bookmarks[bookmarkId := r];
    }

    /**
     * `updateBookmark`: "not found", and nothing changes, for an unknown id;
     * otherwise moves the bookmark and retitles it when a title is given, keeping its
     * id, document, page and creation time.
     */
    method UpdateBookmark(bookmarkId: string, x: real, y: real, title: Option<string>, now: int)
      returns (r: Result<Bookmark>)
      requires Valid()
      modifies this
      ensures Valid()
      ensures bookmarkId !in old(bookmarks) <==> r == Err(NotFound)
      ensures r.Err? ==> bookmarks == old(bookmarks)
      ensures r.Ok? ==>
        var e := old(bookmarks)[bookmarkId];
        && r.value == e.(x := x, y := y, title := title.GetOr(e.title), updatedAt := now)
        && SameBookmark(r.value, e)
        && bookmarks == old(bookmarks)[bookmarkId := r.value]
    {
      if bookmarkId !in bookmarks {
        return Err(NotFound);
      }
      var e := bookmarks[bookmarkId];
      var updated := Bookmark(e.id, e.documentId, e.pageNumber, x, y, title.GetOr(e.title), e.createdAt, now);
      bookmarks := bookmarks[bookmarkId := updated];
      return Ok(updated);
    }

    /** `deleteBookmark`: whether the id was present; it is absent afterwards, and nothing else changes. */
    method DeleteBookmark(bookmarkId: string) returns (present: bool)
      requires Valid()
      modifies this
      ensures Valid()
      ensures present <==> bookmarkId in old(bookmarks)
      ensures bookmarks == old(bookmarks) - {bookmarkId}
      ensures GetBookmark(bookmarkId) == None
    {
      present := bookmarkId in bookmarks;
      bookmarks := bookmarks - {bookmarkId};
    }

    /**
     * `getBookmarksForDocument`: exactly the document's bookmarks, sorted stably by
     * page, then y, then x.
     */
    method GetBookmarksForDocument(documentId: string) returns (ghost ids: seq<string>, r: seq<Bookmark>)
      ensures Visits(bookmarks, OfDocument(documentId), ids)
      ensures forall i :: 0 <= i < |ids| ==> ids[i] in bookmarks
      ensures r == SortBy(ValuesAt(bookmarks, ids), DocumentOrder)
      ensures forall b :: b in r <==> b in bookmarks.Values && b.documentId == documentId
      ensures forall i, j :: 0 <= i < j < |r| ==> !KeyLess(DocumentOrder(r[j]), DocumentOrder(r[i]))
      ensures |r| == GetBookmarkCount(documentId)
    {
      var values;
      ids, values := Select(bookmarks, OfDocument(documentId));
      r := SortBy(values, DocumentOrder);
      SortedSelection(bookmarks, OfDocument(documentId), ids, DocumentOrder);
    }

    /** `getBookmarksForPage`: exactly the bookmarks on that page of that document, sorted stably by y, then x. */
    method GetBookmarksForPage(documentId: string, pageNumber: int) returns (ghost ids: seq<string>, r: seq<Bookmark>)
      ensures Visits(bookmarks, OnPage(documentId, pageNumber), ids)
      ensures forall i :: 0 <= i < |ids| ==> ids[i] in bookmarks
      ensures r == SortBy(ValuesAt(bookmarks, ids), PageOrder)
      ensures forall b :: b in r <==> b in bookmarks.Values && b.documentId == documentId && b.pageNumber == pageNumber
      ensures forall i, j :: 0 <= i < j < |r| ==> !KeyLess(PageOrder(r[j]), PageOrder(r[i]))
    {
      var values;
      ids, values := Select(bookmarks, OnPage(documentId, pageNumber));
      r := SortBy(values, PageOrder);
      SortedSelection(bookmarks, OnPage(documentId, pageNumber), ids, PageOrder);
    }

    /** `getBookmark`: the bookmark filed under `bookmarkId`, if any. */
    function GetBookmark(bookmarkId: string): (r: Option<Bookmark>)
      reads this
      ensures r.Some? <==> bookmarkId in bookmarks
      ensures r.Some? ==> r.value == bookmarks[bookmarkId]
    {
      if bookmarkId in bookmarks then Some(bookmarks[bookmarkId]) else None
    }

    /** `getBookmarkCount`: how many stored bookmarks belong to the document. */
    function GetBookmarkCount(documentId: string): (n: nat)
      reads this
      ensures n <= |bookmarks|
      ensures n == 0 <==> forall k :: k in bookmarks ==> bookmarks[k].documentId != documentId
    {
      CountBounds(bookmarks, documentId);
      CountWhere(bookmarks, OfDocument(documentId))
    }

    /**
     * `clearBookmarksForDocument`: removes every bookmark of the document and no
     * other; afterwards it has none.
     */
    method ClearBookmarksForDocument(documentId: string)
      requires Valid()
      modifies this
      ensures Valid()
      ensures bookmarks == WithoutDocument(old(bookmarks), documentId)
      ensures GetBookmarkCount(documentId) == 0
    {
      bookmarks := WithoutDocument(bookmarks, documentId);
      ClearRemovesDocument(old(bookmarks), documentId);
    }
  }

  /** A document's count is at most the store's size, and zero just when it has no bookmark. */
  lemma CountBounds(m: map<string, Bookmark>, documentId: string)
    ensures CountWhere(m, OfDocument(documentId)) <= |m|
    ensures CountWhere(m, OfDocument(documentId)) == 0 <==> forall k :: k in m ==> m[k].documentId != documentId
  {
    var matching := Matching(m, OfDocument(documentId));
    PartSize(m.Keys, matching);
    if !(forall k :: k in m ==> m[k].documentId != documentId) {
      var k :| k in m && m[k].documentId == documentId;
      assert k in matching;
    }
  }
}
