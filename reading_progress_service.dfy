/**
 * `ReadingProgressService`: where the reader left off in each document, over the
 * file-backed progress repository. The clock reading and the random id a save may
 * need are parameters (`now`, `freshId`).
 */
module ReadingProgressServices {
  import opened Wrappers
  import opened Records
  import opened Stores
  import opened ProgressRepositories

  /**
   * The record `updateProgress` starts from when the document has none: a fresh
   * `ReadingProgress()`, every field unset. Its document and reading fields are
   * overwritten before it is saved.
   */
  const BLANK := ReadingProgress(None, "", 0, 0, 0.0, 0, None, None)

  /** The record `createNewProgress` saves, before stamping: page 1, scrolled to the top. */
  function NewProgress(documentId: string, totalPages: int, now: int): ReadingProgress {
    ReadingProgress(None, documentId, 1, totalPages, 0.0, now, None, None)
  }

  /**
   * The store `getOrCreateProgress` leaves as written: `orElse` evaluates
   * `createNewProgress` before looking at the lookup's result, so the document's
   * record is always replaced by a new page-1 record.
   */
  function EagerStore(m: map<string, ReadingProgress>, documentId: string, totalPages: int, now: int, freshId: string): map<string, ReadingProgress> {
    m[documentId := Stamp(NewProgress(documentId, totalPages, now), now, freshId)]
  }

  /**
   * The discrepancy: a document read up to some page other than 1 is reset to page 1,
   * under a new id, by a call meant only to fetch its progress, while the caller is
   * handed the old record, which the store no longer holds.
   */
  lemma EagerCreateResetsProgress(m: map<string, ReadingProgress>, documentId: string, totalPages: int, now: int, freshId: string)
    requires documentId in m && m[documentId].currentPage != 1
    ensures EagerStore(m, documentId, totalPages, now, freshId)[documentId].currentPage == 1
    ensures EagerStore(m, documentId, totalPages, now, freshId)[documentId] != m[documentId]
    ensures EagerStore(m, documentId, totalPages, now, freshId)[documentId].id == Some(freshId)
  {
  }

  /** A concrete instance: progress on page 5 of 10 comes back, but page 1 is what is stored. */
  lemma EagerCreateExample()
    ensures var m := map["doc" := ReadingProgress(Some("p1"), "doc", 5, 10, 0.5, 3, Some(1), Some(3))];
      && EagerStore(m, "doc", 10, 7, "p2")["doc"].currentPage == 1
      && m["doc"].currentPage == 5
  {
    var m := map["doc" := ReadingProgress(Some("p1"), "doc", 5, 10, 0.5, 3, Some(1), Some(3))];
    EagerCreateResetsProgress(m, "doc", 10, 7, "p2");
  }

  class ReadingProgressService {
    const repository: FileReadingProgressRepository

    constructor (repository: FileReadingProgressRepository)
      ensures this.repository == repository
    {
      this.repository := repository;
    }

    /**
     * `updateProgress`: the document's record (or a blank one) with the page raised to
     * at least 1, the page count and scroll position as given and read time `now`,
     * saved. An existing record keeps its id and creation time.
     */
    method UpdateProgress(documentId: string, currentPage: int, totalPages: int, scrollPosition: real, now: int, freshId: string)
      returns (r: ReadingProgress)
      requires repository.Valid()
      modifies repository
      ensures repository.Valid()
      ensures r.documentId == documentId && r.currentPage == Max(1, currentPage) && r.currentPage >= 1
      ensures r.totalPages == totalPages && r.scrollPosition == scrollPosition
      ensures r.lastReadAt == now && r.updatedAt == Some(now)
      ensures documentId in old(repository.progressCache) ==>
        r.id == old(repository.progressCache)[documentId].id && r.createdAt == old(repository.progressCache)[documentId].createdAt
      ensures documentId !in old(repository.progressCache) ==> r.id == Some(freshId) && r.createdAt == Some(now)
      ensures repository.progressCache == old(repository.progressCache)[documentId := r]
      ensures GetProgress(documentId) == Some(r)
    {
      var base := repository.FindByDocumentId(documentId).GetOr(BLANK);
      var progress := base.(documentId := documentId, currentPage := Max(1, currentPage), totalPages := totalPages,
                            scrollPosition := scrollPosition, lastReadAt := now);
      r := repository.Save(progress, now, freshId);
    }

    /** `getProgress`: the document's record, if any. */
    function GetProgress(documentId: string): (r: Option<ReadingProgress>)
      reads repository
      ensures r.Some? <==> documentId in repository.progressCache
      ensures r.Some? ==> r.value == repository.progressCache[documentId]
    {
      repository.FindByDocumentId(documentId)
    }

    /**
     * `getOrCreateProgress` as the code has it: creates and saves a new page-1 record
     * whether or not one exists, and hands back the record found before, if any.
     */
    method GetOrCreateProgressAsWritten(documentId: string, totalPages: int, now: int, freshId: string)
      returns (r: ReadingProgress)
      requires repository.Valid()
      modifies repository
      ensures repository.Valid()
      ensures repository.progressCache == EagerStore(old(repository.progressCache), documentId, totalPages, now, freshId)
      ensures documentId in old(repository.progressCache) ==> r == old(repository.progressCache)[documentId]
      ensures documentId !in old(repository.progressCache) ==> r == repository.progressCache[documentId]
    {
      var found := repository.FindByDocumentId(documentId);
      var created := CreateNewProgress(documentId, totalPages, now, freshId);
      r := found.GetOr(created);
    }

    /**
     * `getOrCreateProgress` as intended: the stored record, leaving the store as it
     * is, and only when there is none a new page-1 record, saved.
     */
    method GetOrCreateProgress(documentId: string, totalPages: int, now: int, freshId: string)
      returns (r: ReadingProgress)
      requires repository.Valid()
      modifies repository
      ensures repository.Valid()
      ensures documentId in old(repository.progressCache) ==>
        r == old(repository.progressCache)[documentId] && repository.progressCache == old(repository.progressCache)
      ensures documentId !in old(repository.progressCache) ==>
        r == Stamp(NewProgress(documentId, totalPages, now), now, freshId)
        && repository.progressCache == old(repository.progressCache)[documentId := r]
      ensures GetProgress(documentId) == Some(r) && r.documentId == documentId
    {
      var found := repository.FindByDocumentId(documentId);
      if found.Some? {
        return found.value;
      }
      r := CreateNewProgress(documentId, totalPages, now, freshId);
    }

    /** `createNewProgress`: saves a page-1 record at the top of the page, replacing any earlier one. */
    method CreateNewProgress(documentId: string, totalPages: int, now: int, freshId: string)
      returns (r: ReadingProgress)
      requires repository.Valid()
      modifies repository
      ensures repository.Valid()
      ensures r == Stamp(NewProgress(documentId, totalPages, now), now, freshId)
      ensures r.documentId == documentId && r.currentPage == 1 && r.scrollPosition == 0.0 && r.totalPages == totalPages
      ensures repository.progressCache == old(repository.progressCache)[documentId := r]
    {
      r := repository.Save(NewProgress(documentId, totalPages, now), now, freshId);
    }

    /** `getRecentlyRead`: the repository's `findRecentlyRead`. */
    method GetRecentlyRead(limit: int) returns (ghost ids: seq<string>, r: Result<seq<ReadingProgress>>)
      ensures Visits(repository.progressCache, Any, ids)
      ensures forall i :: 0 <= i < |ids| ==> ids[i] in repository.progressCache
      ensures r == RecentlyRead(ValuesAt(repository.progressCache, ids), limit)
      ensures r.Ok? ==> |r.value| == Min(limit, |repository.progressCache|)
    {
      ids, r := repository.FindRecentlyRead(limit);
    }

    /** `deleteProgress`: afterwards the document has no progress, and no other record changes. */
    method DeleteProgress(documentId: string)
      requires repository.Valid()
      modifies repository
      ensures repository.Valid()
      ensures repository.progressCache == old(repository.progressCache) - {documentId}
      ensures !HasProgress(documentId)
    {
      repository.DeleteByDocumentId(documentId);
    }

    /** `hasProgress`: whether `getProgress` finds a record. */
    function HasProgress(documentId: string): (r: bool)
      reads repository
      ensures r <==> GetProgress(documentId).Some?
    {
      repository.ExistsByDocumentId(documentId)
    }

    /** `getAllProgress`: every stored record once. */
    method GetAllProgress() returns (ghost ids: seq<string>, r: seq<ReadingProgress>)
      ensures Visits(repository.progressCache, Any, ids)
      ensures forall i :: 0 <= i < |ids| ==> ids[i] in repository.progressCache
      ensures r == ValuesAt(repository.progressCache, ids)
      ensures |r| == |repository.progressCache|
    {
      ids, r := repository.FindAll();
    }
  }
}
