/**
 * The reading-progress stores: the file-backed repository the application runs on and
 * the in-memory one. Both keep one record per document, keyed by document id, and
 * stamp a record's id and timestamps when it is saved. Only the in-memory maps are
 * modelled; reading and writing `reading_progress.json` is not.
 */
module ProgressRepositories {
  import opened Wrappers
  import opened Records
  import opened Stores
  import opened Ranking

  /** Every record is filed under its own document id and carries the stamps `save` gives it. */
  ghost predicate FiledByDocument(m: map<string, ReadingProgress>) {
    forall k :: k in m ==> m[k].documentId == k && m[k].id.Some? && m[k].createdAt.Some? && m[k].updatedAt.Some?
  }

  predicate Any(p: ReadingProgress) {
    true
  }

  /**
   * What `save` does to a record before filing it: an id (`freshId`, a random UUID in
   * the application) only when it has none, a creation time only when it has none,
   * and always the update time `now`. Nothing else changes.
   */
  function Stamp(p: ReadingProgress, now: int, freshId: string): (r: ReadingProgress)
    ensures r.id.Some? && r.createdAt.Some? && r.updatedAt == Some(now)
    ensures p.id.Some? ==> r.id == p.id
    ensures p.id.None? ==> r.id == Some(freshId)
    ensures p.createdAt.Some? ==> r.createdAt == p.createdAt
    ensures p.createdAt.None? ==> r.createdAt == Some(now)
    ensures r.(id := p.id, createdAt := p.createdAt, updatedAt := p.updatedAt) == p
  {
    var withId := if p.id.None? then p.(id := Some(freshId)) else p;
    var withCreated := if p.createdAt.None? then withId.(createdAt := Some(now)) else withId;
    withCreated.(updatedAt := Some(now))
  }

  /** Saving a saved record again keeps its identity and creation time; only the update time moves. */
  lemma StampAgain(p: ReadingProgress, t1: int, t2: int, id1: string, id2: string)
    ensures Stamp(Stamp(p, t1, id1), t2, id2) == Stamp(p, t1, id1).(updatedAt := Some(t2))
  {
  }

  /** When the clock does not run backwards, a stamped record was created no later than it was updated. */
  lemma StampOrdersTimes(p: ReadingProgress, now: int, freshId: string)
    requires p.createdAt.Some? ==> p.createdAt.value <= now
    ensures Stamp(p, now, freshId).createdAt.value <= Stamp(p, now, freshId).updatedAt.value
  {
  }

  /** Most recently read first: `lastReadAt` descending. */
  function Recency(p: ReadingProgress): Key {
    Key(-(p.lastReadAt as real), 0.0, 0.0)
  }

  /**
   * `findRecentlyRead(limit)` over the stored values: sorted by `lastReadAt`, newest
   * first, then cut to `limit`; a negative limit is an IllegalArgumentException.
   */
  function RecentlyRead(values: seq<ReadingProgress>, limit: int): (r: Result<seq<ReadingProgress>>)
    ensures r.Err? <==> limit < 0
    ensures r.Err? ==> r.failure == NegativeLimit
    ensures r.Ok? ==> |r.value| == Min(limit, |values|)
    ensures r.Ok? ==> multiset(r.value) <= multiset(values)
    ensures r.Ok? ==> forall i, j :: 0 <= i < j < |r.value| ==> r.value[i].lastReadAt >= r.value[j].lastReadAt
  {
    var sorted := SortBy(values, Recency);
    NewestFirst(values, Min(Max(limit, 0), |values|));
    Limit(sorted, limit)
  }

  /** Every prefix of the sorted values is a newest-first selection of them. */
  lemma NewestFirst(values: seq<ReadingProgress>, n: nat)
    requires n <= |values|
    ensures multiset(SortBy(values, Recency)[..n]) <= multiset(values)
    ensures forall i, j :: 0 <= i < j < n ==> SortBy(values, Recency)[i].lastReadAt >= SortBy(values, Recency)[j].lastReadAt
  {
    var sorted := SortBy(values, Recency);
    assert sorted == sorted[..n] + sorted[n..];
    forall i, j | 0 <= i < j < n ensures sorted[i].lastReadAt >= sorted[j].lastReadAt {
      assert !KeyLess(Recency(sorted[j]), Recency(sorted[i]));
    }
  }

  /** No record left out of `findRecentlyRead` was read later than one it returns. */
  lemma RecentlyReadKeepsNewest(values: seq<ReadingProgress>, limit: int, i: nat, q: ReadingProgress)
    requires RecentlyRead(values, limit).Ok?
    requires i < |RecentlyRead(values, limit).value|
    requires q in values
    requires q.lastReadAt > RecentlyRead(values, limit).value[i].lastReadAt
    ensures q in RecentlyRead(values, limit).value
  {
    var sorted := SortBy(values, Recency);
    var r := RecentlyRead(values, limit).value;
    assert r == sorted[..|r|];
    assert q in multiset(sorted);
    var j :| 0 <= j < |sorted| && sorted[j] == q;
    if j >= |r| {
      assert false;
    }
    assert r[j] == q;
  }

  /** `FileReadingProgressRepository`: the store the application runs on. */
  class FileReadingProgressRepository {
    var progressCache: map<string, ReadingProgress>

    ghost predicate Valid()
      reads this
    {
      FiledByDocument(progressCache)
    }

    /** Starts from an empty cache; loading `reading_progress.json` is not modelled. */
    constructor ()
      ensures progressCache == map[] && Valid()
    {
      progressCache := map[];
    }

    /** `save`: stamps the record and files it under its document, replacing any earlier one. */
    method Save(p: ReadingProgress, now: int, freshId: string) returns (r: ReadingProgress)
      requires Valid()
      modifies this
      ensures Valid()
      ensures r == Stamp(p, now, freshId)
      ensures progressCache == old(progressCache)[p.documentId := r]
      ensures FindByDocumentId(p.documentId) == Some(r)
    {
      r := Stamp(p, now, freshId);
      progressCache := progressCache[p.documentId := r];
    }

    /** `findByDocumentId`: the last record saved for the document, if any. */
    function FindByDocumentId(documentId: string): (r: Option<ReadingProgress>)
      reads this
      ensures r.Some? <==> documentId in progressCache
      ensures r.Some? ==> r.value == progressCache[documentId]
    {
      if documentId in progressCache then Some(progressCache[documentId]) else None
    }

    /** `findAll`: every stored record once. */
    method FindAll() returns (ghost ids: seq<string>, r: seq<ReadingProgress>)
      ensures Visits(progressCache, Any, ids)
      ensures forall i :: 0 <= i < |ids| ==> ids[i] in progressCache
      ensures r == ValuesAt(progressCache, ids)
      ensures |r| == |progressCache|
    {
      ids, r := Select(progressCache, Any);
      assert Matching(progressCache, Any) == progressCache.Keys;
    }

    /** `findRecentlyRead`: at most `limit` stored records, most recently read first. */
    method FindRecentlyRead(limit: int) returns (ghost ids: seq<string>, r: Result<seq<ReadingProgress>>)
      ensures Visits(progressCache, Any, ids)
      ensures forall i :: 0 <= i < |ids| ==> ids[i] in progressCache
      ensures r == RecentlyRead(ValuesAt(progressCache, ids), limit)
      ensures r.Ok? ==> |r.value| == Min(limit, |progressCache|)
    {
      var values;
      ids, values := Select(progressCache, Any);
      assert Matching(progressCache, Any) == progressCache.Keys;
      r := RecentlyRead(values, limit);
    }

    /** `deleteByDocumentId`: removes the document's record and nothing else. */
    method DeleteByDocumentId(documentId: string)
      requires Valid()
      modifies this
      ensures Valid()
      ensures progressCache == old(progressCache) - {documentId}
      ensures !ExistsByDocumentId(documentId)
    {
      progressCache := progressCache - {documentId};
    }

    /** `existsByDocumentId`: whether `findByDocumentId` finds a record. */
    function ExistsByDocumentId(documentId: string): (r: bool)
      reads this
      ensures r <==> FindByDocumentId(documentId).Some?
    {
      documentId in progressCache
    }
  }

  /** `InMemoryReadingProgressRepository`: the same store without a file behind it. */
  class InMemoryReadingProgressRepository {
    var progressStore: map<string, ReadingProgress>

    ghost predicate Valid()
      reads this
    {
      FiledByDocument(progressStore)
    }

    constructor ()
      ensures progressStore == map[] && Valid()
    {
      progressStore := map[];
    }

    /** `save`: stamps the record and files it under its document, replacing any earlier one. */
    method Save(p: ReadingProgress, now: int, freshId: string) returns (r: ReadingProgress)
      requires Valid()
      modifies this
      ensures Valid()
      ensures r == Stamp(p, now, freshId)
      ensures progressStore == old(progressStore)[p.documentId := r]
      ensures FindByDocumentId(p.documentId) == Some(r)
    {
      r := Stamp(p, now, freshId);
      progressStore := progressStore[p.documentId := r];
    }

    /** `findByDocumentId`: the last record saved for the document, if any. */
    function FindByDocumentId(documentId: string): (r: Option<ReadingProgress>)
      reads this
      ensures r.Some? <==> documentId in progressStore
      ensures r.Some? ==> r.value == progressStore[documentId]
    {
      if documentId in progressStore then Some(progressStore[documentId]) else None
    }

    /** `findAll`: every stored record once. */
    method FindAll() returns (ghost ids: seq<string>, r: seq<ReadingProgress>)
      ensures Visits(progressStore, Any, ids)
      ensures forall i :: 0 <= i < |ids| ==> ids[i] in progressStore
      ensures r == ValuesAt(progressStore, ids)
      ensures |r| == |progressStore|
    {
      ids, r := Select(progressStore, Any);
      assert Matching(progressStore, Any) == progressStore.Keys;
    }

    /** `findRecentlyRead`: at most `limit` stored records, most recently read first. */
    method FindRecentlyRead(limit: int) returns (ghost ids: seq<string>, r: Result<seq<ReadingProgress>>)
      ensures Visits(progressStore, Any, ids)
      ensures forall i :: 0 <= i < |ids| ==> ids[i] in progressStore
      ensures r == RecentlyRead(ValuesAt(progressStore, ids), limit)
      ensures r.Ok? ==> |r.value| == Min(limit, |progressStore|)
    {
      var values;
      ids, values := Select(progressStore, Any);
      assert Matching(progressStore, Any) == progressStore.Keys;
      r := RecentlyRead(values, limit);
    }

    /** `deleteByDocumentId`: removes the document's record and nothing else. */
    method DeleteByDocumentId(documentId: string)
      requires Valid()
      modifies this
      ensures Valid()
      ensures progressStore == old(progressStore) - {documentId}
      ensures !ExistsByDocumentId(documentId)
    {
      progressStore := progressStore - {documentId};
    }

    /** `existsByDocumentId`: whether `findByDocumentId` finds a record. */
    function ExistsByDocumentId(documentId: string): (r: bool)
      reads this
      ensures r <==> FindByDocumentId(documentId).Some?
    {
      documentId in progressStore
    }
  }
}
