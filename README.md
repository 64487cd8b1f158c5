# PDF reader core, modelled in Dafny

This project models the core of a desktop PDF reader: the folder scanner that
catalogues PDF files, the document catalogue and its service, the scan-state
store, the bookmark service, the reading-progress service and its two
repositories, and the two search services (one searches the pages of one
document, the other searches the whole library).

Records (`PdfDocument`, `Bookmark`, `ReadingProgress`, `SearchResult`) are
datatypes. Instants are integers, and a null reference or an empty `Optional` is
`None`. Stores whose maps the source updates in place are classes with `map`
fields. Their methods state the new map outright. Their functions read it.

The search and parsing logic is made of pure functions, with lemmas about them.
Loops that the source runs become methods. Each such method is proved equal to
its specification function.

The following become parameters:
- the clock reading (`now`);
- random UUIDs and generated ids (`freshId`, `bookmarkId`);
- `String.hashCode` (`hashCode`);
- page-text extraction (`PageText`);
- what the file system and PDFBox report about a file (`FileProbe`, `FolderProbe`, `Walk`, `StateFile`);
- the string form of `Paths.get(folderPath)`, absent when it throws (`parsePath`);
- the floating-point score of a document-search hit, and whether `String.split` accepts the lowercased query as a regular expression (`Scorer`).

Hash-map iteration order is chosen freely and recorded as the list of keys
visited (`Stores.Select`). Exceptions that escape a service are `Err`/`Failed`
values.

Where the code and its design description differ, the model follows the code:

- `setMasterFolder` assigns the watched folder before it validates it, so a
  path that parses but is missing or not a directory stays recorded as the
  watched folder. A path `Paths.get` rejects is never assigned, so the previous
  folder stays recorded.
- A folder walk that fails inside the tree throws an unchecked exception that the
  scan's `catch (IOException)` does not catch, so `setMasterFolder` fails before
  monitoring starts.
- `isHiddenPath` calls `getFileName()` on every path the walk yields, the folder
  itself first. A file-system root has no file name, so with hidden files ignored
  a scan of a root throws `NullPointerException`, which the `catch (IOException)`
  does not catch: the scan saves nothing and `setMasterFolder` fails.
- `getOrCreateProgress` evaluates `orElse(createNewProgress(..))` eagerly, so it
  always overwrites the stored record (see "Findings").
- The watch loop checks only the file extension before it processes a changed
  file. It does not apply the hidden-file or size filters.

All source paths below are under `src/main/java/com/pdfreader/`. The table cites them in full.

## Model

| member | source | states |
|---|---|---|
| Records.DisplayTitle | src/main/java/com/pdfreader/application/DocumentSearchService.java:106 | a hit shows the document's title when it has one, and its file name otherwise |
| JavaText.Lower | src/main/java/com/pdfreader/application/PdfFolderScannerService.java:353 | `toLowerCase` keeps the length and maps each character on its own |
| JavaText.Trim | src/main/java/com/pdfreader/application/PdfFolderScannerService.java:351 | the trimmed string is no longer than the input, and its first and last characters lie above U+0020 |
| JavaText.TrimEmptyIff | src/main/java/com/pdfreader/domain/model/LibrarySearchCriteria.java:78-80 | a string trims to empty exactly when none of its characters lies above U+0020 (both directions) |
| JavaText.TrimNoop | src/main/java/com/pdfreader/application/PdfFolderScannerService.java:351 | trimming leaves alone a string that starts and ends above U+0020 |
| JavaText.LowerCaseFixed | src/main/java/com/pdfreader/application/PdfFolderScannerService.java:353 | lowercasing yields a lowercase string and is the identity on one (idempotence) |
| JavaText.IndexOfFirst | src/main/java/com/pdfreader/application/LibrarySearchService.java:241 | `indexOf(q, from)` finds an occurrence at or after `from` and none before it |
| JavaText.FirstIndexOfFirst | src/main/java/com/pdfreader/application/DocumentSearchService.java:126-137 | `indexOf(' ')` reports the first space, and -1 only when there is none |
| JavaText.LastIndexOfLast | src/main/java/com/pdfreader/application/DocumentSearchService.java:142-153 | `lastIndexOf(' ')` reports the last space, and -1 only when there is none |
| JavaText.SplitJoin | src/main/java/com/pdfreader/application/PdfFolderScannerService.java:347-356 | splitting a comma-join of comma-free pieces gives back the pieces (round trip) |
| JavaText.RemoveAllKeeps | src/main/java/com/pdfreader/application/PdfFolderScannerService.java:362-365 | `replace(unit, "")` only keeps characters of its input |
| JavaText.RemoveUnit | src/main/java/com/pdfreader/application/PdfFolderScannerService.java:362-365 | removing the unit from digits followed by that unit leaves the digits |
| JavaText.DecimalValue | src/main/java/com/pdfreader/application/PdfFolderScannerService.java:358-371 | reading back the decimal rendering of a number gives the number (round trip) |
| JavaText.DigitsParse | src/main/java/com/pdfreader/application/PdfFolderScannerService.java:366 | a plain run of digits parses to its value |
| JavaText.ParseLong | src/main/java/com/pdfreader/application/PdfFolderScannerService.java:366 | `Long.parseLong` accepts only an optional sign followed by one or more digits (ASCII digits only; see Left out), with a value in the 64-bit range, negative only after a minus sign |
| JavaText.ParseLongDecimal | src/main/java/com/pdfreader/application/PdfFolderScannerService.java:366 | a decimal rendering in the 64-bit range parses back to its number, with or without a minus sign, and one past the range fails (round trip) |
| JavaText.NoDigitNoNumber | src/main/java/com/pdfreader/application/PdfFolderScannerService.java:358-371 | a string without a digit never parses as a number |
| JavaText.HexRoundTrip | src/main/java/com/pdfreader/application/PdfFolderScannerService.java:272-280 | reading back the hexadecimal rendering of a number gives the number (round trip) |
| JavaText.ToHexString | src/main/java/com/pdfreader/application/PdfFolderScannerService.java:276 | `Integer.toHexString` gives 1 to 8 digits |
| JavaText.ToHexStringInjective | src/main/java/com/pdfreader/application/PdfFolderScannerService.java:272-280 | distinct 32-bit hash values never share a file id |
| TextMatching.FoldSlice | src/main/java/com/pdfreader/application/LibrarySearchService.java:237-242 | case folding commutes with slicing, so the match found in the folded text is the folded original |
| TextMatching.QueryNonEmpty | src/main/java/com/pdfreader/application/DocumentSearchService.java:33-35 | a query that is not blank after trimming is not empty, so the search loops terminate |
| TextMatching.OccurrencesSound | src/main/java/com/pdfreader/application/DocumentSearchService.java:92-118 | every reported match is a real occurrence at or after the start, and the matches are increasing and disjoint |
| TextMatching.OccurrencesCover | src/main/java/com/pdfreader/application/DocumentSearchService.java:92-118 | no occurrence is missed: each one is reported or lies inside a reported match |
| TextMatching.OccurrencesStep | src/main/java/com/pdfreader/application/LibrarySearchService.java:241-265 | one turn of the loop: the next `indexOf` hit, then the search resumed after the match |
| TextMatching.NoRoomNoOccurrence | src/main/java/com/pdfreader/application/DocumentSearchService.java:83-85 | text too short for the query (in particular, empty text) has no match |
| TextMatching.MatchedUpToCase | src/main/java/com/pdfreader/application/DocumentSearchService.java:88-95 | a match found in folded text equals the query up to ASCII case |
| TextMatching.HitsOfOccurrences | src/main/java/com/pdfreader/application/DocumentSearchService.java:92-118 | the hits collected are built one for one, in order, at the occurrences |
| TextMatching.HitsOfStep | src/main/java/com/pdfreader/application/LibrarySearchService.java:241-265 | the loop invariant: the hits so far plus the hits still to come are all the hits |
| TextMatching.CollectMatches | src/main/java/com/pdfreader/application/LibrarySearchService.java:240-265 | the search loop returns exactly the specified hits, one per leftmost non-overlapping match; when building a hit throws, it fails exactly when there is a match |
| SearchCriteria.HasQuery | src/main/java/com/pdfreader/domain/model/LibrarySearchCriteria.java:78-80 | `hasQuery` holds exactly when there is a query with a character above U+0020 |
| SearchCriteria.LibrarySearchCriteria.constructor | src/main/java/com/pdfreader/domain/model/LibrarySearchCriteria.java:23-31 | a new bean searches title, author and file name, not content, is case-insensitive, has no bounds and allows 100 results |
| SearchCriteria.LibrarySearchCriteria.WithQuery | src/main/java/com/pdfreader/domain/model/LibrarySearchCriteria.java:33-36 | the defaults, plus the query |
| SearchCriteria.LibrarySearchCriteria.HasQueryNow | src/main/java/com/pdfreader/domain/model/LibrarySearchCriteria.java:78-80 | `hasQuery` on the bean's current query |
| SearchCriteria.LibrarySearchCriteria.SetQuery | src/main/java/com/pdfreader/domain/model/LibrarySearchCriteria.java:40 | sets the query and leaves every other setting unchanged |
| SearchCriteria.LibrarySearchCriteria.SetSearchTitle | src/main/java/com/pdfreader/domain/model/LibrarySearchCriteria.java:43 | sets only the title switch |
| SearchCriteria.LibrarySearchCriteria.SetSearchAuthor | src/main/java/com/pdfreader/domain/model/LibrarySearchCriteria.java:46 | sets only the author switch |
| SearchCriteria.LibrarySearchCriteria.SetSearchFilename | src/main/java/com/pdfreader/domain/model/LibrarySearchCriteria.java:49 | sets only the file-name switch |
| SearchCriteria.LibrarySearchCriteria.SetSearchContent | src/main/java/com/pdfreader/domain/model/LibrarySearchCriteria.java:52 | sets only the content switch |
| SearchCriteria.LibrarySearchCriteria.SetCreatedAfter | src/main/java/com/pdfreader/domain/model/LibrarySearchCriteria.java:55 | sets only the lower creation bound |
| SearchCriteria.LibrarySearchCriteria.SetCreatedBefore | src/main/java/com/pdfreader/domain/model/LibrarySearchCriteria.java:58 | sets only the upper creation bound |
| SearchCriteria.LibrarySearchCriteria.SetMinPages | src/main/java/com/pdfreader/domain/model/LibrarySearchCriteria.java:61 | sets only the minimum page count |
| SearchCriteria.LibrarySearchCriteria.SetMaxPages | src/main/java/com/pdfreader/domain/model/LibrarySearchCriteria.java:64 | sets only the maximum page count |
| SearchCriteria.LibrarySearchCriteria.SetMinFileSize | src/main/java/com/pdfreader/domain/model/LibrarySearchCriteria.java:67 | sets only the minimum file size |
| SearchCriteria.LibrarySearchCriteria.SetMaxFileSize | src/main/java/com/pdfreader/domain/model/LibrarySearchCriteria.java:70 | sets only the maximum file size |
| SearchCriteria.LibrarySearchCriteria.SetCaseSensitive | src/main/java/com/pdfreader/domain/model/LibrarySearchCriteria.java:73 | sets only case sensitivity |
| SearchCriteria.LibrarySearchCriteria.SetMaxResults | src/main/java/com/pdfreader/domain/model/LibrarySearchCriteria.java:76 | sets only the result limit |
| Ranking.StableSort | src/main/java/com/pdfreader/application/LibrarySearchService.java:53-57 | the positions come out in stable order: by key, and by original position among equal keys |
| Ranking.StableOrderUnique | src/main/java/com/pdfreader/application/LibrarySearchService.java:53-57 | there is only one stable order of a key sequence, so a stable sort's result is determined |
| Ranking.ArrangePermutes | src/main/java/com/pdfreader/application/LibrarySearchService.java:53-57 | rearranging by a permutation of positions keeps the same elements |
| Ranking.SortBy | src/main/java/com/pdfreader/application/LibrarySearchService.java:53-57 | `List.sort`: a permutation of the input, ordered by key, and the unique stable arrangement |
| Ranking.EqualKeysKeepOrder | src/main/java/com/pdfreader/application/LibrarySearchService.java:101 | sorting elements with all-equal keys changes nothing |
| Ranking.Take | src/main/java/com/pdfreader/application/LibrarySearchService.java:60-62 | the first `min(n, length)` elements |
| Ranking.Limit | src/main/java/com/pdfreader/application/LibrarySearchService.java:103-105 | `Stream.limit`: an error exactly for a negative limit, otherwise the first `min(n, length)` elements |
| Stores.Select | src/main/java/com/pdfreader/infrastructure/repository/FilePdfDocumentRepository.java:131-135 | a filtered `values()` stream: each accepted entry exactly once, and as many values as accepted entries |
| Stores.VisitedValues | src/main/java/com/pdfreader/infrastructure/repository/FilePdfDocumentRepository.java:131-135 | the values found are exactly the accepted values of the map (both directions) |
| Stores.VisitCount | src/main/java/com/pdfreader/application/BookmarkService.java:114-118 | a list that visits each accepted key once is as long as the stream's `count()` |
| DocumentSearch.FirstSpaceFirst | src/main/java/com/pdfreader/application/DocumentSearchService.java:126-137 | the space the context cut uses is the first in the window |
| DocumentSearch.LastSpaceLast | src/main/java/com/pdfreader/application/DocumentSearchService.java:142-153 | the space the context cut uses is the last in the window |
| DocumentSearch.ContextBeforeSpec | src/main/java/com/pdfreader/application/DocumentSearchService.java:126-137 | the context before a match is a suffix of the preceding text, at most 50 characters, cut after the window's first space exactly when the window is trimmed |
| DocumentSearch.ContextAfterSpec | src/main/java/com/pdfreader/application/DocumentSearchService.java:142-153 | the context after a match is a prefix of the following text, at most 50 characters, cut before the window's last space exactly when the window is cut |
| DocumentSearch.TrimsAtSpace | src/main/java/com/pdfreader/application/DocumentSearchService.java:126-137 | the window before a match is trimmed exactly when it does not start the text and its first space lies after its first character |
| DocumentSearch.CutsAtSpace | src/main/java/com/pdfreader/application/DocumentSearchService.java:142-153 | the window after a match is cut exactly when it does not reach the end of the text and its last space lies after its first character |
| DocumentSearch.DocumentHitOfPage | src/main/java/com/pdfreader/application/DocumentSearchService.java:93-115 | the hit built at a match records that match, its page, its contexts and its score |
| DocumentSearch.HitsShape | src/main/java/com/pdfreader/application/DocumentSearchService.java:92-118 | the hits built at the matches are hits of the page, in increasing order and disjoint |
| DocumentSearch.PageHitsShape | src/main/java/com/pdfreader/application/DocumentSearchService.java:80-121 | empty text gives no hits; each hit equals the query up to case and carries its contexts and score; the hits are disjoint and increasing |
| DocumentSearch.HitsComplete | src/main/java/com/pdfreader/application/DocumentSearchService.java:92-118 | every match lies inside one of the hits built |
| DocumentSearch.PageHitsComplete | src/main/java/com/pdfreader/application/DocumentSearchService.java:80-121 | every occurrence of the query on the page is reported or lies inside a reported hit |
| DocumentSearch.SearchInText | src/main/java/com/pdfreader/application/DocumentSearchService.java:80-121 | the `find()` loop returns exactly the page's specified hits, or the pattern failure its first score throws when `split` rejects the query |
| DocumentSearch.PageResultsFails | src/main/java/com/pdfreader/application/DocumentSearchService.java:80-121 | a page search fails exactly when the query has a match on the page and `split` rejects the lowercased query (the `split` at line 169); otherwise it gives the page's hits |
| DocumentSearch.UnsplittableQueryExample | src/main/java/com/pdfreader/application/DocumentSearchService.java:158-173 | the query `"("` on the text `"f(x) = 1"`: the page search throws the pattern failure while the page's match count is 1 |
| DocumentSearch.MatchCountAgrees | src/main/java/com/pdfreader/application/DocumentSearchService.java:195-210 | a page's match count equals the number of hits the search reports on it |
| DocumentSearch.CountMatchesInText | src/main/java/com/pdfreader/application/DocumentSearchService.java:195-210 | the counting loop returns the specified count |
| DocumentSearch.RangeResultsPages | src/main/java/com/pdfreader/application/DocumentSearchService.java:57-61 | every hit of a page range lies on a page of that range, and the pages come in ascending order |
| DocumentSearch.JoinPages | src/main/java/com/pdfreader/application/DocumentSearchService.java:60 | appending one page's hits before those of later pages keeps the pages within range and ascending |
| DocumentSearch.EmptyRangeFindsNothing | src/main/java/com/pdfreader/application/DocumentSearchService.java:57 | an empty page range reads nothing and finds nothing |
| DocumentSearch.PrependTwice | src/main/java/com/pdfreader/application/DocumentSearchService.java:41 | the `addAll` steps compose: adding two batches is adding their concatenation |
| DocumentSearch.SearchPages | src/main/java/com/pdfreader/application/DocumentSearchService.java:57-61 | the page loop returns the hits of the range, or the failure of the first page that cannot be read or whose search throws |
| DocumentSearch.SearchInDocument | src/main/java/com/pdfreader/application/DocumentSearchService.java:30-45 | a blank query finds nothing; otherwise the hits of pages 1 to `pageCount`, failing at the first unreadable page or the first page where the query matches but `split` rejects it |
| DocumentSearch.SearchInDocumentRange | src/main/java/com/pdfreader/application/DocumentSearchService.java:50-64 | a blank query finds nothing; otherwise the hits of pages `startPage` to `min(endPage, pageCount)`, with the same read and pattern failures |
| DocumentSearch.SearchInCurrentPage | src/main/java/com/pdfreader/application/DocumentSearchService.java:69-75 | no hits for a blank query or a missing text; otherwise that page's search, which throws the pattern failure when the query matches and `split` rejects it |
| DocumentSearch.AddToTwice | src/main/java/com/pdfreader/application/DocumentSearchService.java:186 | the running total composes across pages, and a failure stays a failure |
| DocumentSearch.RangeCountAgrees | src/main/java/com/pdfreader/application/DocumentSearchService.java:178-190 | when `split` accepts the query, a page range's count equals the number of hits the search reports there, and it fails exactly when the search fails; when `split` rejects it, the search succeeds exactly when the count is 0, and then finds nothing |
| DocumentSearch.CountStep | src/main/java/com/pdfreader/application/DocumentSearchService.java:184-187 | counting one more readable page keeps the running total on track |
| DocumentSearch.CountFails | src/main/java/com/pdfreader/application/DocumentSearchService.java:185 | an unreadable page makes the whole count fail |
| DocumentSearch.CountMatchesInDocument | src/main/java/com/pdfreader/application/DocumentSearchService.java:178-190 | 0 for a blank query; otherwise the match count of pages 1 to `pageCount` |
| DocumentSearch.CountPages | src/main/java/com/pdfreader/application/DocumentSearchService.java:183-189 | the page loop returns the specified count or the read error |
| LibrarySearch.DocumentMatches | src/main/java/com/pdfreader/application/LibrarySearchService.java:111-151 | a document matches exactly when an enabled field (file name, title, author, or the readable first page when content search is on) contains the query |
| LibrarySearch.PassesFilters | src/main/java/com/pdfreader/application/LibrarySearchService.java:156-186 | a document passes exactly when it lies within every bound that is set |
| LibrarySearch.ApplyFilters | src/main/java/com/pdfreader/application/LibrarySearchService.java:156-186 | the filter keeps each passing document as often as it occurs and drops the rest |
| LibrarySearch.ApplyFiltersAppend | src/main/java/com/pdfreader/application/LibrarySearchService.java:156-186 | filtering distributes over concatenation, so catalog order is kept |
| LibrarySearch.ApplyFiltersSnoc | src/main/java/com/pdfreader/application/LibrarySearchService.java:156-186 | filtering one more document appends it exactly when it passes the filters |
| LibrarySearch.Matching | src/main/java/com/pdfreader/application/LibrarySearchService.java:43-47 | the query loop keeps at most the catalog's documents |
| LibrarySearch.MatchingMembers | src/main/java/com/pdfreader/application/LibrarySearchService.java:43-47 | the query loop keeps exactly the catalog documents that match (both directions) |
| LibrarySearch.MatchingStep | src/main/java/com/pdfreader/application/LibrarySearchService.java:43-47 | one turn of the query loop appends the document exactly when it matches |
| LibrarySearch.FieldPoints | src/main/java/com/pdfreader/application/LibrarySearchService.java:191-225 | a field scores nothing unless it matches; a matching field scores its points, plus the bonus when it starts with the query |
| LibrarySearch.RelevanceScore | src/main/java/com/pdfreader/application/LibrarySearchService.java:191-225 | the score lies in 0..330; it is positive exactly when some enabled field matches, 330 exactly when all three match as prefixes, and at least 100 exactly when the file name matches |
| LibrarySearch.SearchLibrary | src/main/java/com/pdfreader/application/LibrarySearchService.java:33-63 | without a query, the filtered catalog; with one, an error exactly for a negative limit, and otherwise the matching, filtered documents, stably sorted by descending score and cut to the limit |
| LibrarySearch.CollectMatching | src/main/java/com/pdfreader/application/LibrarySearchService.java:43-47 | the query loop returns the specified matching documents |
| LibrarySearch.QueryResultsSound | src/main/java/com/pdfreader/application/LibrarySearchService.java:33-63 | every result comes from the catalog, matches and passes the filters; scores never increase; there are at most `maxResults` |
| LibrarySearch.QueryResultsStable | src/main/java/com/pdfreader/application/LibrarySearchService.java:53-57 | documents of equal score keep their catalog order |
| LibrarySearch.ContentHitOfItsPage | src/main/java/com/pdfreader/application/LibrarySearchService.java:242-261 | the hit built at a match records it, with up to 50 characters on each side and score 1.0 |
| LibrarySearch.ContentHitsShape | src/main/java/com/pdfreader/application/LibrarySearchService.java:241-265 | the hits built at the matches are content hits of the page, in increasing order and disjoint |
| LibrarySearch.TextResults | src/main/java/com/pdfreader/application/LibrarySearchService.java:230-268 | empty text gives no hits |
| LibrarySearch.TextResultsShape | src/main/java/com/pdfreader/application/LibrarySearchService.java:230-268 | each hit equals the query up to case, carries its two 50-character windows and lies wholly before the next |
| LibrarySearch.ContentHitsComplete | src/main/java/com/pdfreader/application/LibrarySearchService.java:241-265 | every match lies inside one of the hits built |
| LibrarySearch.TextResultsComplete | src/main/java/com/pdfreader/application/LibrarySearchService.java:230-268 | every occurrence of the query on the page is reported or lies inside a reported hit |
| LibrarySearch.SearchInText | src/main/java/com/pdfreader/application/LibrarySearchService.java:230-268 | the `indexOf` loop returns exactly the page's specified hits |
| LibrarySearch.SearchContentInLibrary | src/main/java/com/pdfreader/application/LibrarySearchService.java:68-106 | a blank query finds nothing; otherwise the hits of the first five pages of each document, collected until `maxResults` are in, ranked and cut to `maxResults` |
| LibrarySearch.ReadFirstPages | src/main/java/com/pdfreader/application/LibrarySearchService.java:77-93 | the inner page loop, with the per-document catch and the early break, returns the specified hits |
| LibrarySearch.ScanPagesExtends | src/main/java/com/pdfreader/application/LibrarySearchService.java:80-89 | reading a document's pages only appends to the hits collected before |
| LibrarySearch.ScanDocumentsExtends | src/main/java/com/pdfreader/application/LibrarySearchService.java:76-98 | scanning further documents only appends to the hits collected so far |
| LibrarySearch.TextResultsOnPage | src/main/java/com/pdfreader/application/LibrarySearchService.java:230-268 | every hit of a page is a match of the query on that page |
| LibrarySearch.HitsOnPagesAppend | src/main/java/com/pdfreader/application/LibrarySearchService.java:83 | hits appended behind others stay hits of their pages |
| LibrarySearch.ScanPagesSound | src/main/java/com/pdfreader/application/LibrarySearchService.java:79-89 | the hits a document adds are matches of the query on the pages read |
| LibrarySearch.ScanDocumentsSound | src/main/java/com/pdfreader/application/LibrarySearchService.java:76-98 | each collected hit is a real match in a catalog document, on one of its first `min(5, pageCount)` pages |
| LibrarySearch.ContentResultsSound | src/main/java/com/pdfreader/application/LibrarySearchService.java:68-106 | the content search returns at most `maxResults` hits, each a match on the first pages of a catalog document |
| LibrarySearch.ContentScores | src/main/java/com/pdfreader/application/LibrarySearchService.java:101 | all content hits score 1.0, so ranking them keeps their collection order |
| DocumentRepositories.FirstAtPath | src/main/java/com/pdfreader/infrastructure/repository/FilePdfDocumentRepository.java:122-126 | the first document with the path, and none exactly when no document has that path |
| DocumentRepositories.FilePdfDocumentRepository.constructor | src/main/java/com/pdfreader/infrastructure/repository/FilePdfDocumentRepository.java:36-45 | the catalogue starts empty |
| DocumentRepositories.FilePdfDocumentRepository.Save | src/main/java/com/pdfreader/infrastructure/repository/FilePdfDocumentRepository.java:91-95 | a null id throws and stores nothing; otherwise the document is filed under its id, replacing any earlier one, and the size grows only for a new id |
| DocumentRepositories.FilePdfDocumentRepository.FindById | src/main/java/com/pdfreader/infrastructure/repository/FilePdfDocumentRepository.java:98-100 | the document under the id, and none exactly when the id is absent |
| DocumentRepositories.FilePdfDocumentRepository.FindAll | src/main/java/com/pdfreader/infrastructure/repository/FilePdfDocumentRepository.java:103-105 | every stored document exactly once |
| DocumentRepositories.FilePdfDocumentRepository.DeleteById | src/main/java/com/pdfreader/infrastructure/repository/FilePdfDocumentRepository.java:108-111 | removes that id and nothing else |
| DocumentRepositories.FilePdfDocumentRepository.ExistsById | src/main/java/com/pdfreader/infrastructure/repository/FilePdfDocumentRepository.java:113-115 | true exactly when `FindById` finds the id |
| DocumentRepositories.FilePdfDocumentRepository.FindByFilePath | src/main/java/com/pdfreader/infrastructure/repository/FilePdfDocumentRepository.java:122-126 | a stored document with that path, and none exactly when there is none |
| DocumentRepositories.FilePdfDocumentRepository.FindByFileName | src/main/java/com/pdfreader/infrastructure/repository/FilePdfDocumentRepository.java:131-135 | exactly the stored documents with that file name, each once |
| DocumentRepositories.FilePdfDocumentRepository.Count | src/main/java/com/pdfreader/infrastructure/repository/FilePdfDocumentRepository.java:140-142 | the number of stored ids |
| DocumentRepositories.InMemoryPdfDocumentRepository.constructor | src/main/java/com/pdfreader/infrastructure/persistence/InMemoryPdfDocumentRepository.java:13 | the catalogue starts empty |
| DocumentRepositories.InMemoryPdfDocumentRepository.FindById | src/main/java/com/pdfreader/infrastructure/persistence/InMemoryPdfDocumentRepository.java:16-18 | the document under the id, and none exactly when the id is absent |
| DocumentRepositories.InMemoryPdfDocumentRepository.FindAll | src/main/java/com/pdfreader/infrastructure/persistence/InMemoryPdfDocumentRepository.java:21-23 | every stored document exactly once |
| DocumentRepositories.InMemoryPdfDocumentRepository.Save | src/main/java/com/pdfreader/infrastructure/persistence/InMemoryPdfDocumentRepository.java:26-32 | a document without an id gets a fresh one; it is then filed under its id, replacing any earlier one |
| DocumentRepositories.InMemoryPdfDocumentRepository.ExistsById | src/main/java/com/pdfreader/infrastructure/persistence/InMemoryPdfDocumentRepository.java:39-42 | true exactly when `FindById` finds the id |
| DocumentRepositories.InMemoryPdfDocumentRepository.DeleteById | src/main/java/com/pdfreader/infrastructure/persistence/InMemoryPdfDocumentRepository.java:35-37 | removes that id and nothing else |
| DocumentRepositories.PdfService.constructor | src/main/java/com/pdfreader/domain/service/PdfService.java:14-16 | wraps the given repository |
| DocumentRepositories.PdfService.SavePdfDocument | src/main/java/com/pdfreader/domain/service/PdfService.java:18-21 | the repository's `save`, with the same null-id failure |
| DocumentRepositories.PdfService.GetAllPdfDocuments | src/main/java/com/pdfreader/domain/service/PdfService.java:23-25 | every stored document exactly once |
| DocumentRepositories.PdfService.GetPdfDocumentById | src/main/java/com/pdfreader/domain/service/PdfService.java:27-30 | the stored document, or "not found" exactly when the id is absent |
| DocumentRepositories.PdfService.DeletePdfDocument | src/main/java/com/pdfreader/domain/service/PdfService.java:32-37 | "not found" and no change for an unknown id; otherwise removes exactly that id |
| FolderScanner.NormalizeExtension | src/main/java/com/pdfreader/application/PdfFolderScannerService.java:351-354 | a piece is dropped exactly when it is blank after trimming; otherwise it becomes a lowercase extension with a leading dot |
| FolderScanner.Dotted | src/main/java/com/pdfreader/application/PdfFolderScannerService.java:354 | adds the leading dot only when it is missing |
| FolderScanner.NormalizeAll | src/main/java/com/pdfreader/application/PdfFolderScannerService.java:349-355 | the surviving pieces are no more than the pieces |
| FolderScanner.ParseExtensions | src/main/java/com/pdfreader/application/PdfFolderScannerService.java:347-356 | a missing or blank property means [".pdf"]; every extension is well formed |
| FolderScanner.NormalizedWellFormed | src/main/java/com/pdfreader/application/PdfFolderScannerService.java:349-355 | every surviving extension is non-empty, lowercase and dotted |
| FolderScanner.NormalizeListable | src/main/java/com/pdfreader/application/PdfFolderScannerService.java:351-354 | normalising an already normal extension gives it back (idempotence) |
| FolderScanner.ParseExtensionsOfList | src/main/java/com/pdfreader/application/PdfFolderScannerService.java:347-356 | writing normal extensions as "a,b,c" and parsing that gives back the list (round trip) |
| FolderScanner.NormalizeAllListable | src/main/java/com/pdfreader/application/PdfFolderScannerService.java:349-355 | a list of normal extensions normalises to itself |
| FolderScanner.ToLong | src/main/java/com/pdfreader/application/PdfFolderScannerService.java:362-365 | the `(long)` cast saturates at the 64-bit bounds and is exact within them |
| FolderScanner.ParseSizeToBytes | src/main/java/com/pdfreader/application/PdfFolderScannerService.java:358-371 | the result is a 64-bit value, and a missing or blank property is 0 |
| FolderScanner.SizeValue | src/main/java/com/pdfreader/application/PdfFolderScannerService.java:361-370 | a parsed size is a 64-bit value |
| FolderScanner.NotBlankWhenReadable | src/main/java/com/pdfreader/application/PdfFolderScannerService.java:359 | a value that reads as digits is not blank, so it reaches the parser |
| FolderScanner.SizeInUnits | src/main/java/com/pdfreader/application/PdfFolderScannerService.java:358-371 | "nKB", "nMB", "nGB" and "nB" (any case or padding) are n times 1024, 1024², 1024³ or 1 bytes, saturated |
| FolderScanner.SizeValueOfUnits | src/main/java/com/pdfreader/application/PdfFolderScannerService.java:362-365 | each unit branch scales the number by its factor |
| FolderScanner.SizeValueInMB | src/main/java/com/pdfreader/application/PdfFolderScannerService.java:363 | the MB branch is taken for "nMB" |
| FolderScanner.SizeValueInGB | src/main/java/com/pdfreader/application/PdfFolderScannerService.java:364 | the GB branch is taken for "nGB" |
| FolderScanner.SizeValueInB | src/main/java/com/pdfreader/application/PdfFolderScannerService.java:365 | the B branch is taken for "nB", after the KB, MB and GB tests fail |
| FolderScanner.DigitsThenUnit | src/main/java/com/pdfreader/application/PdfFolderScannerService.java:362-365 | digits followed by a unit end with it, and dropping it leaves the scaled value |
| FolderScanner.SizeInBytes | src/main/java/com/pdfreader/application/PdfFolderScannerService.java:366 | a bare number is that many bytes when `parseLong` accepts it, and 0 when it overflows |
| FolderScanner.NoDigitNoLimit | src/main/java/com/pdfreader/application/PdfFolderScannerService.java:367-370 | a value without a digit is malformed, so it gives 0 (no limit) |
| FolderScanner.TrimNoDigit | src/main/java/com/pdfreader/application/PdfFolderScannerService.java:360 | trimming adds no digit |
| FolderScanner.NoDigitSizeValue | src/main/java/com/pdfreader/application/PdfFolderScannerService.java:361-370 | without a digit no branch finds a number |
| FolderScanner.NoDigitScaled | src/main/java/com/pdfreader/application/PdfFolderScannerService.java:362-365 | without a digit no unit branch finds a number |
| FolderScanner.NoLimitAcceptsAll | src/main/java/com/pdfreader/application/PdfFolderScannerService.java:338-341 | a missing or blank size limit lets every file through |
| FolderScanner.HasAllowedExtension | src/main/java/com/pdfreader/application/PdfFolderScannerService.java:330-336 | the loop answers true exactly when the lowercased name ends with a listed extension |
| FolderScanner.AllowedIgnoresCase | src/main/java/com/pdfreader/application/PdfFolderScannerService.java:331 | the extension test ignores the case of the file name |
| FolderScanner.SizeWithinLimit | src/main/java/com/pdfreader/application/PdfFolderScannerService.java:338-341 | no limit at or below 0; otherwise true exactly when the size is readable and not above the limit |
| FolderScanner.IsHiddenPath | src/main/java/com/pdfreader/application/PdfFolderScannerService.java:343-345 | false when `isHidden` throws; true when it reports hidden; otherwise, for a path with a name, whether the name starts with a dot (both directions), and for a path without a name, such as a file-system root, a null-pointer failure |
| FolderScanner.StableFileId | src/main/java/com/pdfreader/application/PdfFolderScannerService.java:272-280 | the id is 1 to 8 hexadecimal digits |
| FolderScanner.StripPdfExtension | src/main/java/com/pdfreader/application/PdfFolderScannerService.java:205 | drops a final lowercase ".pdf"; leaves a name alone that does not end with it or with a line terminator |
| FolderScanner.TitleFor | src/main/java/com/pdfreader/application/PdfFolderScannerService.java:203-206 | the metadata title unless it is missing or blank; otherwise the file name without ".pdf" |
| FolderScanner.AuthorFor | src/main/java/com/pdfreader/application/PdfFolderScannerService.java:208-209 | the metadata author, or "Unknown" |
| FolderScanner.Assemble | src/main/java/com/pdfreader/application/PdfFolderScannerService.java:215-227 | the saved record takes every field from the file, its metadata and the clock |
| FolderScanner.ResolveNew | src/main/java/com/pdfreader/application/PdfFolderScannerService.java:167-197 | a loadable file at a new path adds exactly one entry, under the path's stable id |
| FolderScanner.ResolveUnchanged | src/main/java/com/pdfreader/application/PdfFolderScannerService.java:183-189 | rescanning a catalogued file whose size is unchanged saves nothing |
| FolderScanner.ResolveChangedKeepsKeys | src/main/java/com/pdfreader/application/PdfFolderScannerService.java:183-185 | a size change re-files the entry under its own id, adding and removing no key |
| FolderScanner.ResolveGrows | src/main/java/com/pdfreader/application/PdfFolderScannerService.java:167-197 | processing a file never removes an entry, and keeps every entry filed under its id |
| FolderScanner.ResolveSettled | src/main/java/com/pdfreader/application/PdfFolderScannerService.java:167-197 | a settled file leaves the catalogue as it was, whichever entry the path lookup returns |
| FolderScanner.ResolveAllGrows | src/main/java/com/pdfreader/application/PdfFolderScannerService.java:106-112 | processing a scan's files in turn never removes an entry and keeps every entry filed under its id |
| FolderScanner.ResolveAllSettled | src/main/java/com/pdfreader/application/PdfFolderScannerService.java:106-112 | when every file is settled, processing them all in turn leaves the catalogue as it was |
| FolderScanner.Selected | src/main/java/com/pdfreader/application/PdfFolderScannerService.java:99-104 | the walk keeps exactly the named files that pass the hidden, regular-file, extension and size filters |
| FolderScanner.RootFolderThrows | src/main/java/com/pdfreader/application/PdfFolderScannerService.java:99-104 | a walk that starts at a nameless, unhidden root makes the filters throw when hidden files are ignored; with them not ignored, it throws exactly when the root is a regular file or a later entry throws |
| FolderScanner.PdfFolderScannerService.constructor | src/main/java/com/pdfreader/application/PdfFolderScannerService.java:30-53 | no folder, no scan pool and not scanning, with the given configuration |
| FolderScanner.PdfFolderScannerService.IsScanning | src/main/java/com/pdfreader/application/PdfFolderScannerService.java:325-327 | true exactly when the flag is set and a folder is watched (`GetWatchedFolderPath` is present) |
| FolderScanner.PdfFolderScannerService.ScanFiles | src/main/java/com/pdfreader/application/PdfFolderScannerService.java:96-104 | the named files of a walk that pass the four filters under the configured extensions and size limit, and only those |
| FolderScanner.PdfFolderScannerService.GetWatchedFolderPath | src/main/java/com/pdfreader/application/PdfFolderScannerService.java:318-320 | the watched folder, if any |
| FolderScanner.PdfFolderScannerService.StopScanning | src/main/java/com/pdfreader/application/PdfFolderScannerService.java:299-313 | clears the flag and shuts a running scan pool down |
| FolderScanner.PdfFolderScannerService.ProcessPdfFile | src/main/java/com/pdfreader/application/PdfFolderScannerService.java:167-197 | the catalogue after one file is the resolve step applied to the path lookup's answer |
| FolderScanner.PdfFolderScannerService.SaveNewPdf | src/main/java/com/pdfreader/application/PdfFolderScannerService.java:199-232 | a loadable file is filed under the given id with the assembled record; an unloadable one changes nothing |
| FolderScanner.PdfFolderScannerService.RefreshAndSavePdf | src/main/java/com/pdfreader/application/PdfFolderScannerService.java:234-267 | the record is re-filed under its existing id; a null id or an unloadable file changes nothing |
| FolderScanner.PdfFolderScannerService.ScanFolderForPdfs | src/main/java/com/pdfreader/application/PdfFolderScannerService.java:90-117 | no folder, or a walk that throws its caught `IOException`, changes nothing; an entry the filters throw on (a nameless path such as a file-system root) fails the scan with a null-pointer failure, and a walk that fails inside the tree fails it with a traversal failure, both saving nothing and before any submission; kept files with a null (or shut-down) pool fail the first submission and save nothing; otherwise the new catalogue is every kept file resolved in walk order, each lookup answering on the catalogue as it then stood; no entry is removed; all files settled means no change |
| FolderScanner.PdfFolderScannerService.RootScanFails | src/main/java/com/pdfreader/application/PdfFolderScannerService.java:343-345 | with hidden files ignored, a scan whose walk starts at a nameless, unhidden root fails with a null-pointer failure, whether the walk completes or breaks off later |
| FolderScanner.PdfFolderScannerService.SetMasterFolder | src/main/java/com/pdfreader/application/PdfFolderScannerService.java:58-85 | after `stopScanning` (flag cleared, a running pool shut down): a path `Paths.get` rejects fails and keeps the previous folder; otherwise the parsed folder is recorded even when invalid, and a missing or non-directory folder fails with the catalogue unchanged; otherwise a running pool and the scan of the folder: a walk that fails inside the tree, or one whose entries the filters throw on (a file-system root with hidden files ignored), fails the call with that failure, the flag off and nothing saved; otherwise the catalogue the walk resolves to, and the flag set exactly when the folder can be watched |
| FolderScanner.PdfFolderScannerService.RescanFolder | src/main/java/com/pdfreader/application/PdfFolderScannerService.java:292-294 | rejected, with nothing scanned, once the pool is shut down; without a pool the scan fails with a null-pointer failure as soon as it keeps a file, saving nothing; otherwise the outcome and catalogue of one scan, including its failure when the walk fails inside the tree or the filters throw on an entry such as a nameless root |
| FolderScanner.PdfFolderScannerService.OnFolderEvent | src/main/java/com/pdfreader/application/PdfFolderScannerService.java:139-147 | a changed file with an allowed extension is processed; any other changes nothing |
| FolderScanner.PdfFolderScannerService.GetAllPdfs | src/main/java/com/pdfreader/application/PdfFolderScannerService.java:285-287 | every catalogued document exactly once |
| ScanState.LoadChangesOnlyOnParse | src/main/java/com/pdfreader/infrastructure/persistence/ScanStateStore.java:40-53 | `load` changes the state only when the file holds a map or `null`, and a parsed map becomes the whole state |
| ScanState.LoadIdempotent | src/main/java/com/pdfreader/infrastructure/persistence/ScanStateStore.java:40-53 | loading the same file twice leaves what loading it once leaves |
| ScanState.LoadForgetsEarlierState | src/main/java/com/pdfreader/infrastructure/persistence/ScanStateStore.java:46-47 | after a successful parse, the state does not depend on what it was before |
| ScanState.ScanStateStore.constructor | src/main/java/com/pdfreader/infrastructure/persistence/ScanStateStore.java:23 | the state starts empty |
| ScanState.ScanStateStore.Load | src/main/java/com/pdfreader/infrastructure/persistence/ScanStateStore.java:40-53 | a parsed map replaces the state; a `null` document clears it and fails; any other file changes nothing |
| ScanState.ScanStateStore.Get | src/main/java/com/pdfreader/infrastructure/persistence/ScanStateStore.java:63-65 | the state for the path, and none exactly when it is absent |
| ScanState.ScanStateStore.Put | src/main/java/com/pdfreader/infrastructure/persistence/ScanStateStore.java:67-69 | `get` then returns the new state for that path, and every other path is unchanged |
| ScanState.ScanStateStore.Remove | src/main/java/com/pdfreader/infrastructure/persistence/ScanStateStore.java:71-73 | `get` then returns nothing for that path, and every other path is unchanged |
| ScanState.ScanStateStore.Snapshot | src/main/java/com/pdfreader/infrastructure/persistence/ScanStateStore.java:75-77 | a copy that agrees with `get` on every path |
| Bookmarks.ClearRemovesDocument | src/main/java/com/pdfreader/application/BookmarkService.java:123-126 | after clearing, the document has no bookmark |
| Bookmarks.ClearKeepsOthers | src/main/java/com/pdfreader/application/BookmarkService.java:123-126 | clearing one document keeps every bookmark of every other document, and their counts |
| Bookmarks.ClearShrinksByCount | src/main/java/com/pdfreader/application/BookmarkService.java:114-126 | clearing removes exactly as many entries as `getBookmarkCount` reported |
| Bookmarks.SortedSelection | src/main/java/com/pdfreader/application/BookmarkService.java:71-90 | sorting the selected values keeps exactly the accepted bookmarks, as many as `count()` |
| Bookmarks.CountBounds | src/main/java/com/pdfreader/application/BookmarkService.java:114-118 | a document's count is at most the store's size, and 0 exactly when it has no bookmark |
| Bookmarks.BookmarkService.constructor | src/main/java/com/pdfreader/application/BookmarkService.java:18 | no bookmarks at first |
| Bookmarks.BookmarkService.CreateBookmark | src/main/java/com/pdfreader/application/BookmarkService.java:23-36 | files a new bookmark under its id with title "Bookmark" when none is given, and both timestamps `now`; `getBookmark` then finds it |
| Bookmarks.BookmarkService.UpdateBookmark | src/main/java/com/pdfreader/application/BookmarkService.java:41-59 | "not found" exactly for an unknown id, with nothing changed; otherwise moves the bookmark, retitles it only when a title is given, and keeps its id, document, page and creation time |
| Bookmarks.BookmarkService.DeleteBookmark | src/main/java/com/pdfreader/application/BookmarkService.java:64-66 | true exactly when the id was present; removes that id and nothing else |
| Bookmarks.BookmarkService.GetBookmarksForDocument | src/main/java/com/pdfreader/application/BookmarkService.java:71-78 | exactly the document's bookmarks, sorted stably by page, then y, then x; as many as `getBookmarkCount` |
| Bookmarks.BookmarkService.GetBookmarksForPage | src/main/java/com/pdfreader/application/BookmarkService.java:83-90 | exactly the bookmarks on that page of that document, sorted stably by y, then x |
| Bookmarks.BookmarkService.GetBookmark | src/main/java/com/pdfreader/application/BookmarkService.java:95-97 | the bookmark under the id, and none exactly when the id is absent |
| Bookmarks.BookmarkService.GetBookmarkCount | src/main/java/com/pdfreader/application/BookmarkService.java:114-118 | at most the number of bookmarks, and 0 exactly when the document has none |
| Bookmarks.BookmarkService.ClearBookmarksForDocument | src/main/java/com/pdfreader/application/BookmarkService.java:123-126 | removes exactly the document's bookmarks; its count is then 0 |
| ProgressRepositories.Stamp | src/main/java/com/pdfreader/infrastructure/repository/FileReadingProgressRepository.java:94-104 | an id only when there is none, a creation time only when there is none, the update time always; nothing else changes |
| ProgressRepositories.StampAgain | src/main/java/com/pdfreader/infrastructure/repository/FileReadingProgressRepository.java:94-104 | saving a saved record again keeps its id and creation time; only the update time moves |
| ProgressRepositories.StampOrdersTimes | src/main/java/com/pdfreader/infrastructure/repository/FileReadingProgressRepository.java:99-103 | when the clock does not run backwards, a record is created no later than it is updated |
| ProgressRepositories.RecentlyRead | src/main/java/com/pdfreader/infrastructure/repository/FileReadingProgressRepository.java:121-126 | an error exactly for a negative limit; otherwise `min(limit, n)` of the stored records, newest read first |
| ProgressRepositories.NewestFirst | src/main/java/com/pdfreader/infrastructure/repository/FileReadingProgressRepository.java:123 | every prefix of the sorted records is a newest-first selection of them |
| ProgressRepositories.RecentlyReadKeepsNewest | src/main/java/com/pdfreader/infrastructure/repository/FileReadingProgressRepository.java:121-126 | no record left out was read later than one returned |
| ProgressRepositories.FileReadingProgressRepository.constructor | src/main/java/com/pdfreader/infrastructure/repository/FileReadingProgressRepository.java:39-48 | the cache starts empty |
| ProgressRepositories.FileReadingProgressRepository.Save | src/main/java/com/pdfreader/infrastructure/repository/FileReadingProgressRepository.java:94-108 | stamps the record and files it under its document, replacing any earlier one |
| ProgressRepositories.FileReadingProgressRepository.FindByDocumentId | src/main/java/com/pdfreader/infrastructure/repository/FileReadingProgressRepository.java:111-113 | the document's record, and none exactly when it has none |
| ProgressRepositories.FileReadingProgressRepository.FindAll | src/main/java/com/pdfreader/infrastructure/repository/FileReadingProgressRepository.java:116-118 | every stored record exactly once |
| ProgressRepositories.FileReadingProgressRepository.FindRecentlyRead | src/main/java/com/pdfreader/infrastructure/repository/FileReadingProgressRepository.java:121-126 | the recently-read selection over the stored records, `min(limit, n)` of them |
| ProgressRepositories.FileReadingProgressRepository.ExistsByDocumentId | src/main/java/com/pdfreader/infrastructure/repository/FileReadingProgressRepository.java:134-137 | true exactly when `FindByDocumentId` finds a record |
| ProgressRepositories.FileReadingProgressRepository.DeleteByDocumentId | src/main/java/com/pdfreader/infrastructure/repository/FileReadingProgressRepository.java:129-132 | removes the document's record and nothing else |
| ProgressRepositories.InMemoryReadingProgressRepository.constructor | src/main/java/com/pdfreader/infrastructure/repository/InMemoryReadingProgressRepository.java:19 | the store starts empty |
| ProgressRepositories.InMemoryReadingProgressRepository.Save | src/main/java/com/pdfreader/infrastructure/repository/InMemoryReadingProgressRepository.java:22-35 | stamps the record and files it under its document, replacing any earlier one |
| ProgressRepositories.InMemoryReadingProgressRepository.FindByDocumentId | src/main/java/com/pdfreader/infrastructure/repository/InMemoryReadingProgressRepository.java:38-40 | the document's record, and none exactly when it has none |
| ProgressRepositories.InMemoryReadingProgressRepository.FindAll | src/main/java/com/pdfreader/infrastructure/repository/InMemoryReadingProgressRepository.java:43-45 | every stored record exactly once |
| ProgressRepositories.InMemoryReadingProgressRepository.FindRecentlyRead | src/main/java/com/pdfreader/infrastructure/repository/InMemoryReadingProgressRepository.java:48-53 | the recently-read selection over the stored records, `min(limit, n)` of them |
| ProgressRepositories.InMemoryReadingProgressRepository.ExistsByDocumentId | src/main/java/com/pdfreader/infrastructure/repository/InMemoryReadingProgressRepository.java:60-63 | true exactly when `FindByDocumentId` finds a record |
| ProgressRepositories.InMemoryReadingProgressRepository.DeleteByDocumentId | src/main/java/com/pdfreader/infrastructure/repository/InMemoryReadingProgressRepository.java:56-58 | removes the document's record and nothing else |
| ReadingProgressServices.EagerCreateResetsProgress | src/main/java/com/pdfreader/application/ReadingProgressService.java:52-55 | as written, a stored record on any page other than 1 is replaced by a page-1 record under a new id |
| ReadingProgressServices.EagerCreateExample | src/main/java/com/pdfreader/application/ReadingProgressService.java:52-55 | a record on page 5 is handed back, while page 1 is what gets stored |
| ReadingProgressServices.ReadingProgressService.constructor | src/main/java/com/pdfreader/application/ReadingProgressService.java:22-24 | wraps the given repository |
| ReadingProgressServices.ReadingProgressService.UpdateProgress | src/main/java/com/pdfreader/application/ReadingProgressService.java:29-40 | the page is raised to at least 1; page count, scroll position and read time are as given; an existing record keeps its id and creation time; the result is what `getProgress` then returns |
| ReadingProgressServices.ReadingProgressService.GetProgress | src/main/java/com/pdfreader/application/ReadingProgressService.java:45-47 | the document's record, and none exactly when it has none |
| ReadingProgressServices.ReadingProgressService.GetOrCreateProgressAsWritten | src/main/java/com/pdfreader/application/ReadingProgressService.java:52-55 | as written: the store always ends up with a new page-1 record, and the record found before is returned |
| ReadingProgressServices.ReadingProgressService.GetOrCreateProgress | src/main/java/com/pdfreader/application/ReadingProgressService.java:52-55 | as intended: an existing record is returned with the store unchanged; only a missing one is created and saved |
| ReadingProgressServices.ReadingProgressService.CreateNewProgress | src/main/java/com/pdfreader/application/ReadingProgressService.java:60-69 | saves a page-1 record scrolled to the top, replacing any earlier one |
| ReadingProgressServices.ReadingProgressService.GetRecentlyRead | src/main/java/com/pdfreader/application/ReadingProgressService.java:74-76 | the repository's recently-read selection |
| ReadingProgressServices.ReadingProgressService.DeleteProgress | src/main/java/com/pdfreader/application/ReadingProgressService.java:81-83 | afterwards the document has no progress, and no other record changes |
| ReadingProgressServices.ReadingProgressService.HasProgress | src/main/java/com/pdfreader/application/ReadingProgressService.java:88-90 | true exactly when `GetProgress` finds a record |
| ReadingProgressServices.ReadingProgressService.GetAllProgress | src/main/java/com/pdfreader/application/ReadingProgressService.java:95-97 | every stored record exactly once |

## Left out

- Reading and writing the JSON files (`documents.json`, `reading_progress.json`, the scan-state file) and `ScanStateStore.persist` are not modelled. Stores start empty, and `load` sees only what the file holds.
- Concurrency is not modelled: the thread pools, `CompletableFuture`, the scheduler's two-second delay and the watch-service polling loop. A scan processes its files one after another, and a watch event is handled as one call (`OnFolderEvent`).
- PDFBox and the file system are inputs: `FileProbe`, `FolderProbe` and `PageText`.
- `PdfApplicationService`, `PdfProcessingService`, `PdfPageRenderer`, the REST controller, the CLI and the GUI are not part of this model.
- `findBookmarkAt` is left out. It compares `double` distances against a tolerance, and floating point is not modelled.
- DocumentSearch.ScoreOf: the document search's relevance score is `double` arithmetic, so it is the parameter `Scorer`. Which strings `java.util.regex` accepts is not modelled either: `Scorer.splits` says whether `String.split` accepts the lowercased query, and where it does not, every page search with a match throws `PatternSyntaxException` (`Err(InvalidPattern)`).
- DocumentSearch.SearchInText: `startIndex`, `endIndex` and the 50-character context windows count UTF-16 code units in the source and Unicode scalar values (Dafny's `char`) in the model. They differ on text outside the Basic Multilingual Plane: in `"𝑥 = 1"` the match of `"="` starts at 3 in the source and at 2 here, and a source window that splits a surrogate pair cannot be represented.
- LibrarySearch.SearchInText: the same difference in counting positions and context windows (UTF-16 code units in the source, scalar values here).
- DocumentRepositories.InMemoryPdfDocumentRepository.Save: `save` sets the fresh id on the caller's `PdfDocument` object. The model uses values and returns the stored record, so that aliasing is not captured.
- Records.PdfDocument: `fileName`, `filePath` and `documentId` (of progress records) are plain strings, never null. A document with a null `fileName` makes `documentMatches` throw `NullPointerException` when filename search is on (LibrarySearchService.java:113-114); the model has no such document. Likewise a bookmark's `documentId` is never null: a bookmark created with a null document id makes `getBookmarksForDocument`, `getBookmarksForPage`, `getBookmarkCount` and `clearBookmarksForDocument` throw `NullPointerException` once it is stored (BookmarkService.java:73, 85, 116, 125). The viewer, the one caller of `createBookmark`, passes the id of a catalogued document.
- Ranking.SortBy: `Double.compare` treats NaN and -0.0 in its own way; the model orders reals, so neither occurs.
- FolderScanner.ParseSizeToBytes: only whole numbers are modelled. Fractional, exponent, hexadecimal-float and "Infinity"/"NaN" values that `Double.parseDouble` accepts become `None`, which means 0 (no limit), and so does a number carrying the `d`/`D`/`f`/`F` type suffix: `"10FKB"` is 10240 bytes in the source and 0 (no limit) here. Rounding of `double` products above 2^53 is not modelled.
- JavaText.Lower: case mapping is ASCII-only. Unicode letters whose case mapping changes the string's length are not modelled.
- JavaText.Upper: `toUpperCase` is modelled on ASCII letters only; other letters are left as they are, and mappings that change the length (`ß` to `SS`) are not modelled.
- JavaText.ParseLong: only ASCII digits are accepted. `Long.parseLong` also accepts the other Unicode decimal digits, so `"١٠"` (Arabic-Indic digits) is 10 in the source but a parse failure here, and a size limit written that way means no limit in the model.
- JavaText.Split: the model keeps trailing empty pieces, which Java drops. `parseExtensions` discards empty pieces anyway.
- FolderScanner.StableFileId: `String.hashCode` and `Path.toAbsolutePath().normalize()` are parameters (`hashCode` and the probe's path, taken to be already absolute and normalised).
- Bookmarks.BookmarkService.CreateBookmark: the generated id (`bookmark_<doc>_<page>_<x>_<y>_<millis>`) is the parameter `bookmarkId`.
- Bookmarks.BookmarkService.GetBookmarkCount: the `(int)` narrowing of the `long` count is not modelled, because a store of 2^31 bookmarks cannot arise.
- ReadingProgressServices.ReadingProgressService.UpdateProgress: `ReadingProgress` is mutable in the source, and its setters change the caller's object and the stored one alike. The model uses values, so aliasing between the caller and the store is not captured.
- ProgressRepositories.FileReadingProgressRepository.Save: the service's clock reading and the repository's own clock reading are the same `now`.
- ProgressRepositories.RecentlyRead: a record with a null `lastReadAt` makes the source's comparator throw. The model's records always carry one.
- FolderScanner.PdfFolderScannerService.ProcessPdfFile: the second `Files.size` call in `saveNewPdf`/`refreshAndSavePdf` reads the same size as the first.
- FolderScanner.PdfFolderScannerService.ProcessPdfFile: one clock reading (`now`) serves both timestamps of a saved record.
- ScanState.ScanStateStore.Load: a JSON map holding `null` values is not modelled.
- FolderScanner.PdfFolderScannerService.ScanFolderForPdfs: the kept files are resolved one after another in walk order. The pool runs them concurrently, so when two paths share a stable id the entry left behind may be either one's, not necessarily the later one's.
- FolderScanner.PdfFolderScannerService.RescanFolder: the scan runs on the scan pool and then waits for the file tasks it queued on that same pool. With `pdf.scan.max-threads` at 1 or less the pool has one thread, and that wait does not end. The model assumes the file tasks run.
- DocumentRepositories.InMemoryPdfDocumentRepository: it has no `findByFilePath`, `findByFileName` or `count` in the source, so the model has none either.

## Findings

| source | as written | input that shows it | evidently intended | confidence | as-written member | corrected member |
|---|---|---|---|---|---|---|
| src/main/java/com/pdfreader/application/ReadingProgressService.java:52-55 | `findByDocumentId(id).orElse(createNewProgress(id, totalPages))` evaluates `createNewProgress`, which saves, before it looks at the lookup's result | a document stored at page 5 of 10: the call returns the page-5 record, but the store now holds a page-1 record under a new id | create and save a record only when none exists (`orElseGet`) | not executed | ReadingProgressServices.EagerCreateResetsProgress | ReadingProgressServices.ReadingProgressService.GetOrCreateProgress |
