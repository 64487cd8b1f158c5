/**
 * The record shapes the reader passes between its services and stores.
 * Instants (`LocalDateTime`) are integers ordered like the instants they stand for;
 * `double` coordinates and scroll positions are reals.
 */
module Records {
  import opened Wrappers

  /** A catalogued PDF file. A null id or optional metadata field is `None`. */
  datatype PdfDocument = PdfDocument(
    id: Option<string>,
    fileName: string,
    filePath: string,
    fileSize: int,
    pageCount: int,
    title: Option<string>,
    author: Option<string>,
    subject: Option<string>,
    keywords: Option<string>,
    createdAt: int,
    modifiedAt: int)

  /** The information dictionary and page count PDFBox reads from a file. */
  datatype Metadata = Metadata(
    title: Option<string>,
    author: Option<string>,
    subject: Option<string>,
    keywords: Option<string>,
    pageCount: int)

  /** A marker placed on a page; two bookmarks are equal when their ids are. */
  datatype Bookmark = Bookmark(
    id: string,
    documentId: string,
    pageNumber: int,
    x: real,
    y: real,
    title: string,
    createdAt: int,
    updatedAt: int)

  /** `Bookmark.equals`: identity is the id alone. */
  predicate SameBookmark(a: Bookmark, b: Bookmark) {
    a.id == b.id
  }

  /** One hit of a text search. */
  datatype SearchResult = SearchResult(
    documentId: Option<string>,
    documentTitle: string,
    documentPath: string,
    pageNumber: int,
    matchedText: string,
    contextBefore: string,
    contextAfter: string,
    startIndex: int,
    endIndex: int,
    relevanceScore: real)

  /** Where a reader left off in one document. */
  datatype ReadingProgress = ReadingProgress(
    id: Option<string>,
    documentId: string,
    currentPage: int,
    totalPages: int,
    scrollPosition: real,
    lastReadAt: int,
    createdAt: Option<int>,
    updatedAt: Option<int>)

  /**
   * The page-text extractor: `pageText(path, page)` is the text of one page of the
   * file at `path`, or `None` where extraction throws an IOException.
   */
  type PageText = (string, int) -> Option<string>

  /** The title shown for a document in search results: its title, else its file name. */
  function DisplayTitle(d: PdfDocument): (r: string)
    ensures d.title.Some? ==> r == d.title.value
    ensures d.title.None? ==> r == d.fileName
  {
    d.title.GetOr(d.fileName)
  }
}
