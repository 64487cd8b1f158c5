/**
 * The document catalogue: the file-backed repository the application runs on, the
 * in-memory one, and the service that guards lookups and deletions. Only the
 * in-memory maps are modelled; reading and writing `documents.json` is not.
 */
module DocumentRepositories {
  import opened Wrappers
  import opened Records
  import opened Stores

  /** Every document is filed under its own id, as `save` files it. */
  ghost predicate FiledById(m: map<string, PdfDocument>) {
    forall k :: k in m ==> m[k].id == Some(k)
  }

  predicate AtPath(path: string, d: PdfDocument) {
    d.filePath == path
  }

  predicate Named(name: string, d: PdfDocument) {
    d.fileName == name
  }

  predicate Any(d: PdfDocument) {
    true
  }

  /** The first of `docs` with the given path, as `stream().filter(..).findFirst()` returns it. */
  function FirstAtPath(docs: seq<PdfDocument>, path: string): (r: Option<PdfDocument>)
    ensures r.Some? ==> r.value in docs && r.value.filePath == path
    ensures r.None? <==> forall i :: 0 <= i < |docs| ==> docs[i].filePath != path
  {
    if |docs| == 0 then None
    else if docs[0].filePath == path then Some(docs[0])
    else FirstAtPath(docs[1..], path)
  }

  /** `FilePdfDocumentRepository`: the catalogue as the application keeps it. */
  class FilePdfDocumentRepository {
    var documentCache: map<string, PdfDocument>

    ghost predicate Valid()
      reads this
    {
      FiledById(documentCache)
    }

    /** Starts from an empty cache; loading `documents.json` is not modelled. */
    constructor ()
      ensures documentCache == map[] && Valid()
    {
      documentCache := map[];
    }

    /**
     * `save`: files the document under its id, replacing any earlier one, and hands
     * it back. A null id makes `ConcurrentHashMap.put` throw, and nothing is stored.
     */
    method Save(d: PdfDocument) returns (r: Result<PdfDocument>)
      requires Valid()
      modifies this
      ensures Valid()
      ensures d.id.None? ==> r == Err(NullKey) && documentCache == old(documentCache)
      ensures d.id.Some? ==> r == Ok(d) && documentCache == old(documentCache)[d.id.value := d]
      ensures d.id.Some? ==> |documentCache| == |old(documentCache)| + (if d.id.value in old(documentCache) then 0 else 1)
    {
      if d.id.None? {
        return Err(NullKey);
      }
      documentCache := documentCache[d.id.value := d];
      return Ok(d);
    }

    /** `findById`: the document filed under `id`, if any. */
    function FindById(id: string): (r: Option<PdfDocument>)
      reads this
      ensures r.Some? <==> id in documentCache
      ensures r.Some? ==> r.value == documentCache[id]
    {
      if id in documentCache then Some(documentCache[id]) else None
    }

    /** `findAll`: every stored document once, in the map's iteration order. */
    method FindAll() returns (ghost ids: seq<string>, r: seq<PdfDocument>)
      ensures Visits(documentCache, Any, ids)
      ensures forall i :: 0 <= i < |ids| ==> ids[i] in documentCache
      ensures r == ValuesAt(documentCache, ids)
    {
      ids, r := Select(documentCache, Any);
    }

    /** `deleteById`: removes `id` and nothing else. */
    method DeleteById(id: string)
      requires Valid()
      modifies this
      ensures Valid()
      ensures documentCache == old(documentCache) - {id}
      ensures !ExistsById(id)
    {
      documentCache := documentCache - {id};
    }

    /** `existsById`: whether `findById` finds the id. */
    function ExistsById(id: string): (r: bool)
      reads this
      ensures r <==> FindById(id).Some?
    {
      id in documentCache
    }

    /**
     * `findByFilePath`: the first stored document with that path in iteration order;
     * which one, when several share the path, is unspecified.
     */
    method FindByFilePath(path: string) returns (r: Option<PdfDocument>)
      ensures r.Some? ==> exists k :: k in documentCache && documentCache[k] == r.value && r.value.filePath == path
      ensures r.None? <==> forall k :: k in documentCache ==> documentCache[k].filePath != path
    {
      var ids, docs := Select(documentCache, Any);
      r := FirstAtPath(docs, path);
      if r.Some? {
        var i :| 0 <= i < |docs| && docs[i] == r.value;
        assert documentCache[ids[i]] == r.value;
      } else {
        forall k | k in documentCache ensures documentCache[k].filePath != path {
          assert k in ids;
          var i :| 0 <= i < |ids| && ids[i] == k;
          assert docs[i] == documentCache[k];
        }
      }
    }

    /** `findByFileName`: exactly the stored documents with that file name. */
    method FindByFileName(name: string) returns (ghost ids: seq<string>, r: seq<PdfDocument>)
      ensures Visits(documentCache, d => Named(name, d), ids)
      ensures forall i :: 0 <= i < |ids| ==> ids[i] in documentCache
      ensures r == ValuesAt(documentCache, ids)
      ensures forall i :: 0 <= i < |r| ==> r[i].fileName == name
    {
      ids, r := Select(documentCache, d => Named(name, d));
    }

    /** `count` */
    function Count(): (n: nat)
      reads this
      ensures n == |documentCache.Keys|
    {
      |documentCache|
    }
  }

  /** `InMemoryPdfDocumentRepository`: the catalogue kept in memory only. */
  class InMemoryPdfDocumentRepository {
    var documents: map<string, PdfDocument>

    ghost predicate Valid()
      reads this
    {
      FiledById(documents)
    }

    constructor ()
      ensures documents == map[] && Valid()
    {
      documents := map[];
    }

    /** `findById` */
    function FindById(id: string): (r: Option<PdfDocument>)
      reads this
      ensures r.Some? <==> id in documents
      ensures r.Some? ==> r.value == documents[id]
    {
      if id in documents then Some(documents[id]) else None
    }

    /** `findAll`: every stored document once. */
    method FindAll() returns (ghost ids: seq<string>, r: seq<PdfDocument>)
      ensures Visits(documents, Any, ids)
      ensures forall i :: 0 <= i < |ids| ==> ids[i] in documents
      ensures r == ValuesAt(documents, ids)
    {
      ids, r := Select(documents, Any);
    }

    /**
     * `save`: a document without an id is given `freshId` (a random UUID in the
     * application) first; then it is filed under its id, replacing any earlier one.
     */
    method Save(d: PdfDocument, freshId: string) returns (r: PdfDocument)
      requires Valid()
      modifies this
      ensures Valid()
      ensures r == d.(id := Some(d.id.GetOr(freshId)))
      ensures documents == old(documents)[r.id.value := r]
    {
      r := d;
      if d.id.None? {
        r := d.(id := Some(freshId));
      }
      documents := documents[r.id.value := r];
    }

    /** `deleteById`: removes `id` and nothing else. */
    method DeleteById(id: string)
      requires Valid()
      modifies this
      ensures Valid()
      ensures documents == old(documents) - {id}
      ensures !ExistsById(id)
    {
      documents := documents - {id};
    }

    /** `existsById`: whether `findById` finds the id. */
    function ExistsById(id: string): (r: bool)
      reads this
      ensures r <==> FindById(id).Some?
    {
      id in documents
    }
  }

  /** `PdfService`: the domain service over the application's repository. */
  class PdfService {
    const repository: FilePdfDocumentRepository

    constructor (repository: FilePdfDocumentRepository)
      ensures this.repository == repository
    {
      this.repository := repository;
    }

    /** `savePdfDocument`: the repository's `save`, unchanged. */
    method SavePdfDocument(d: PdfDocument) returns (r: Result<PdfDocument>)
      requires repository.Valid()
      modifies repository
      ensures repository.Valid()
      ensures d.id.None? ==> r == Err(NullKey) && repository.documentCache == old(repository.documentCache)
      ensures d.id.Some? ==> r == Ok(d) && repository.documentCache == old(repository.documentCache)[d.id.value := d]
    {
      r := repository.Save(d);
    }

    /** `getAllPdfDocuments`: the repository's `findAll`. */
    method GetAllPdfDocuments() returns (ghost ids: seq<string>, r: seq<PdfDocument>)
      ensures Visits(repository.documentCache, Any, ids)
      ensures forall i :: 0 <= i < |ids| ==> ids[i] in repository.documentCache
      ensures r == ValuesAt(repository.documentCache, ids)
    {
      ids, r := repository.FindAll();
    }

    /** `getPdfDocumentById`: the stored document, or "not found" when there is none. */
    function GetPdfDocumentById(id: string): (r: Result<PdfDocument>)
      reads repository
      ensures r.Err? <==> id !in repository.documentCache
      ensures r.Err? ==> r.failure == NotFound
      ensures r.Ok? ==> r.value == repository.documentCache[id]
    {
      match repository.FindById(id)
      case None => Err(NotFound)
      case Some(d) => Ok(d)
    }

    /** `deletePdfDocument`: "not found" and no change for an unknown id; otherwise removes it. */
    method DeletePdfDocument(id: string) returns (o: Outcome)
      requires repository.Valid()
      modifies repository
      ensures repository.Valid()
      ensures id !in old(repository.documentCache) ==> o == Failed(NotFound) && repository.documentCache == old(repository.documentCache)
      ensures id in old(repository.documentCache) ==> o == Done && repository.documentCache == old(repository.documentCache) - {id}
    {
      if !repository.ExistsById(id) {
        return Failed(NotFound);
      }
      repository.DeleteById(id);
      return Done;
    }
  }
}
