/**
 * Searching the whole library: by file name, title, author and first-page text with
 * range filters and a relevance ranking, and by page text across the first pages
 * of every document.
 *
 * The page-text extractor is a parameter (`PageText`). The catalog listing is a
 * parameter too, in the order `getAllPdfDocuments` returned it.
 */
module LibrarySearch {
  import opened Wrappers
  import opened JavaText
  import opened Records
  import opened Ranking
  import opened TextMatching
  import opened SearchCriteria

  /** Characters of context kept on each side of a hit. */
  const CONTEXT: nat := 50
  /** Pages read per document by the content search. */
  const MAX_PAGES_PER_DOCUMENT: int := 5
  /** Relevance every content hit is given. */
  const CONTENT_SCORE: real := 1.0

  /** An enabled metadata field is present and, folded, contains the folded query `q`. */
  predicate FieldHas(enabled: bool, field: Option<string>, q: string, caseSensitive: bool) {
    enabled && field.Some? && Contains(Fold(field.value, caseSensitive), q)
  }

  /** Content search is on and the first page, readable, contains `q`. */
  predicate FirstPageHas(d: PdfDocument, q: string, c: Criteria, pageText: PageText) {
    c.searchContent && pageText(d.filePath, 1).Some?
    && Contains(Fold(pageText(d.filePath, 1).value, c.caseSensitive), q)
  }

  /** `documentMatches`: the fields are tried in order and the first hit answers. */
  function DocumentMatches(d: PdfDocument, q: string, c: Criteria, pageText: PageText): (r: bool)
    ensures r <==>
      FieldHas(c.searchFilename, Some(d.fileName), q, c.caseSensitive)
      || FieldHas(c.searchTitle, d.title, q, c.caseSensitive)
      || FieldHas(c.searchAuthor, d.author, q, c.caseSensitive)
      || FirstPageHas(d, q, c, pageText)
  {
    if c.searchFilename && Contains(Fold(d.fileName, c.caseSensitive), q) then true
    else if c.searchTitle && d.title.Some? && Contains(Fold(d.title.value, c.caseSensitive), q) then true
    else if c.searchAuthor && d.author.Some? && Contains(Fold(d.author.value, c.caseSensitive), q) then true
    else if c.searchContent then
      match pageText(d.filePath, 1)
      case None => false
      case Some(text) => Contains(Fold(text, c.caseSensitive), q)
    else false
  }

  /** `value` lies within the inclusive bounds that are set. */
  predicate Within(lo: Option<int>, value: int, hi: Option<int>) {
    (lo.None? || lo.value <= value) && (hi.None? || value <= hi.value)
  }

  /** The filter lambda of `applyFilters`: each set bound, tested in turn, may reject. */
  function PassesFilters(d: PdfDocument, c: Criteria): (r: bool)
    ensures r <==>
      Within(c.createdAfter, d.createdAt, c.createdBefore)
      && Within(c.minPages, d.pageCount, c.maxPages)
      && Within(c.minFileSize, d.fileSize, c.maxFileSize)
  {
    if c.createdAfter.Some? && d.createdAt < c.createdAfter.value then false
    else if c.createdBefore.Some? && d.createdAt > c.createdBefore.value then false
    else if c.minPages.Some? && d.pageCount < c.minPages.value then false
    else if c.maxPages.Some? && d.pageCount > c.maxPages.value then false
    else if c.minFileSize.Some? && d.fileSize < c.minFileSize.value then false
    else if c.maxFileSize.Some? && d.fileSize > c.maxFileSize.value then false
    else true
  }

  /** `applyFilters`: the documents passing every bound, in their original order. */
  function ApplyFilters(docs: seq<PdfDocument>, c: Criteria): (r: seq<PdfDocument>)
    ensures |r| <= |docs|
    ensures forall d :: multiset(r)[d] == if PassesFilters(d, c) then multiset(docs)[d] else 0
  {
    if |docs| == 0 then []
    else
      var rest := ApplyFilters(docs[..|docs| - 1], c);
      var last := docs[|docs| - 1];
      assert docs == docs[..|docs| - 1] + [last];
      if PassesFilters(last, c) then rest + [last] else rest
  }

  /** Filtering keeps catalog order: it distributes over concatenation. */
  lemma {:induction false} ApplyFiltersAppend(a: seq<PdfDocument>, b: seq<PdfDocument>, c: Criteria)
    ensures ApplyFilters(a + b, c) == ApplyFilters(a, c) + ApplyFilters(b, c)
    decreases |b|
  {
    if |b| > 0 {
      var b' := b[..|b| - 1];
      var last := b[|b| - 1];
      assert b == b' + [last];
      assert a + b == (a + b') + [last];
      ApplyFiltersAppend(a, b', c);
      ApplyFiltersSnoc(b', last, c);
      ApplyFiltersSnoc(a + b', last, c);
    } else {
      assert a + b == a;
    }
  }

  /** Filtering a sequence with one more document appends that document when it passes. */
  lemma ApplyFiltersSnoc(s: seq<PdfDocument>, d: PdfDocument, c: Criteria)
    ensures ApplyFilters(s + [d], c) == ApplyFilters(s, c) + (if PassesFilters(d, c) then [d] else [])
  {
    assert (s + [d])[..|s + [d]| - 1] == s;
  }

  /** The documents the query loop keeps, in catalog order. */
  function Matching(docs: seq<PdfDocument>, q: string, c: Criteria, pageText: PageText): (r: seq<PdfDocument>)
    ensures |r| <= |docs|
  {
    if |docs| == 0 then []
    else
      var rest := Matching(docs[..|docs| - 1], q, c, pageText);
      var last := docs[|docs| - 1];
      if DocumentMatches(last, q, c, pageText) then rest + [last] else rest
  }

  /** The query loop keeps exactly the catalog documents that match. */
  lemma {:induction false} MatchingMembers(docs: seq<PdfDocument>, q: string, c: Criteria, pageText: PageText)
    ensures forall d :: d in Matching(docs, q, c, pageText) <==> d in docs && DocumentMatches(d, q, c, pageText)
    decreases |docs|
  {
    if |docs| > 0 {
      var init := docs[..|docs| - 1];
      MatchingMembers(init, q, c, pageText);
      assert docs == init + [docs[|docs| - 1]];
    }
  }

  lemma MatchingStep(all: seq<PdfDocument>, i: nat, q: string, c: Criteria, pageText: PageText)
    requires i < |all|
    ensures Matching(all[..i + 1], q, c, pageText)
      == Matching(all[..i], q, c, pageText)
         + (if DocumentMatches(all[i], q, c, pageText) then [all[i]] else [])
  {
    assert all[..i + 1][..i] == all[..i];
  }

  /** Points for one field: `whole` when it contains the query, `prefix` more when it starts with it. */
  function FieldPoints(enabled: bool, field: Option<string>, q: string, caseSensitive: bool,
                       whole: nat, prefix: nat): (r: nat)
    ensures !FieldHas(enabled, field, q, caseSensitive) ==> r == 0
    ensures FieldHas(enabled, field, q, caseSensitive) ==>
      r == if StartsWith(Fold(field.value, caseSensitive), q) then whole + prefix else whole
  {
    if enabled && field.Some? && Contains(Fold(field.value, caseSensitive), q) then
      if StartsWith(Fold(field.value, caseSensitive), q) then whole + prefix else whole
    else 0
  }

  /**
   * `calculateRelevanceScore`: file name 100 (+50 as a prefix), title 80 (+40 as a
   * prefix), author 60. Content hits add nothing.
   */
  function RelevanceScore(d: PdfDocument, q: string, c: Criteria): (r: int)
    ensures 0 <= r <= 330
    ensures r > 0 <==>
      FieldHas(c.searchFilename, Some(d.fileName), q, c.caseSensitive)
      || FieldHas(c.searchTitle, d.title, q, c.caseSensitive)
      || FieldHas(c.searchAuthor, d.author, q, c.caseSensitive)
    ensures r == 330 <==>
      FieldHas(c.searchFilename, Some(d.fileName), q, c.caseSensitive)
      && StartsWith(Fold(d.fileName, c.caseSensitive), q)
      && FieldHas(c.searchTitle, d.title, q, c.caseSensitive)
      && StartsWith(Fold(d.title.value, c.caseSensitive), q)
      && FieldHas(c.searchAuthor, d.author, q, c.caseSensitive)
    ensures r >= 100 <==>
      FieldHas(c.searchFilename, Some(d.fileName), q, c.caseSensitive)
      || (FieldHas(c.searchTitle, d.title, q, c.caseSensitive)
          && (FieldHas(c.searchAuthor, d.author, q, c.caseSensitive)
              || StartsWith(Fold(d.title.value, c.caseSensitive), q)))
  {
    FieldPoints(c.searchFilename, Some(d.fileName), q, c.caseSensitive, 100, 50)
    + FieldPoints(c.searchTitle, d.title, q, c.caseSensitive, 80, 40)
    + FieldPoints(c.searchAuthor, d.author, q, c.caseSensitive, 60, 0)
  }

  /** The folded query the search compares against. */
  function SearchQuery(c: Criteria): string
    requires c.query.Some?
  {
    Fold(c.query.value, c.caseSensitive)
  }

  /** Descending relevance as an ascending sort key. */
  function ScoreKey(q: string, c: Criteria): PdfDocument -> Key {
    d => Key(-(RelevanceScore(d, q, c) as real), 0.0, 0.0)
  }

  /**
   * `searchLibrary`: without a query, every document passing the filters; with one,
   * the matching documents passing the filters, stably sorted by descending relevance
   * and cut to `maxResults` (a negative limit throws).
   */
  method SearchLibrary(all: seq<PdfDocument>, c: Criteria, pageText: PageText)
    returns (r: Result<seq<PdfDocument>>)
    ensures !HasQuery(c.query) ==> r == Ok(ApplyFilters(all, c))
    ensures HasQuery(c.query) ==> (r.Err? <==> c.maxResults < 0)
    ensures HasQuery(c.query) && r.Ok? ==>
      var q := SearchQuery(c);
      r.value == Take(SortBy(ApplyFilters(Matching(all, q, c, pageText), c), ScoreKey(q, c)), c.maxResults)
  {
    if !HasQuery(c.query) {
      return Ok(ApplyFilters(all, c));
    }
    var q := SearchQuery(c);
    var matching := CollectMatching(all, q, c, pageText);
    var filtered := ApplyFilters(matching, c);
    var sorted := SortBy(filtered, ScoreKey(q, c));
    r := Limit(sorted, c.maxResults);
  }

  /** The loop of `searchLibrary` that keeps the documents matching the query. */
  method CollectMatching(all: seq<PdfDocument>, q: string, c: Criteria, pageText: PageText)
    returns (matching: seq<PdfDocument>)
    ensures matching == Matching(all, q, c, pageText)
  {
    matching := [];
    var i := 0;
    while i < |all|
      invariant 0 <= i <= |all|
      invariant matching == Matching(all[..i], q, c, pageText)
    {
      MatchingStep(all, i, q, c, pageText);
      if DocumentMatches(all[i], q, c, pageText) {
        matching := matching + [all[i]];
      }
      i := i + 1;
    }
    assert all[..i] == all;
  }

  /** What `searchLibrary` returns with a query, when the limit is not negative. */
  function QueryResults(all: seq<PdfDocument>, c: Criteria, pageText: PageText): seq<PdfDocument>
    requires c.query.Some? && c.maxResults >= 0
  {
    var q := SearchQuery(c);
    Take(SortBy(ApplyFilters(Matching(all, q, c, pageText), c), ScoreKey(q, c)), c.maxResults)
  }

  /**
   * Every document `searchLibrary` returns for a query matches on an enabled field,
   * passes the filters and comes from the catalog; scores never increase along the
   * list; and there are at most `maxResults` of them.
   */
  lemma QueryResultsSound(all: seq<PdfDocument>, c: Criteria, pageText: PageText)
    requires c.query.Some? && c.maxResults >= 0
    ensures var r := QueryResults(all, c, pageText);
      |r| <= c.maxResults
      && (forall d :: d in r ==>
            d in all && DocumentMatches(d, SearchQuery(c), c, pageText) && PassesFilters(d, c))
      && (forall i, j :: 0 <= i < j < |r| ==>
            RelevanceScore(r[i], SearchQuery(c), c) >= RelevanceScore(r[j], SearchQuery(c), c))
  {
    var q := SearchQuery(c);
    var m := Matching(all, q, c, pageText);
    MatchingMembers(all, q, c, pageText);
    var f := ApplyFilters(m, c);
    var s := SortBy(f, ScoreKey(q, c));
    var r := QueryResults(all, c, pageText);
    forall d | d in r
      ensures d in all && DocumentMatches(d, q, c, pageText) && PassesFilters(d, c)
    {
      assert d in s;
      assert d in multiset(s);
      assert multiset(f)[d] > 0;
      assert d in multiset(m);
    }
    forall i, j | 0 <= i < j < |r|
      ensures RelevanceScore(r[i], q, c) >= RelevanceScore(r[j], q, c)
    {
      assert r[i] == s[i] && r[j] == s[j];
      assert !KeyLess(ScoreKey(q, c)(s[j]), ScoreKey(q, c)(s[i]));
    }
  }

  /**
   * Documents of equal relevance keep their catalog order: the ranking applies the
   * unique stable order of the scores.
   */
  lemma QueryResultsStable(all: seq<PdfDocument>, c: Criteria, pageText: PageText, p: seq<nat>)
    requires c.query.Some? && c.maxResults >= 0
    requires var f := ApplyFilters(Matching(all, SearchQuery(c), c, pageText), c);
      StableOrder(KeysOf(f, ScoreKey(SearchQuery(c), c)), p)
    ensures var f := ApplyFilters(Matching(all, SearchQuery(c), c, pageText), c);
      QueryResults(all, c, pageText) == Take(Arrange(f, p), c.maxResults)
  {
    var f := ApplyFilters(Matching(all, SearchQuery(c), c, pageText), c);
    var keys := KeysOf(f, ScoreKey(SearchQuery(c), c));
    StableOrderUnique(keys, StableSort(keys), p);
  }

  /** One content hit: the match in the original text and up to 50 characters on each side. */
  function ContentHit(d: PdfDocument, text: string, len: nat, page: int, i: nat): (r: SearchResult)
    requires i + len <= |text|
  {
    SearchResult(d.id, DisplayTitle(d), d.filePath, page, text[i..i + len],
      text[Max(0, i - CONTEXT)..i], text[i + len..Min(|text|, i + len + CONTEXT)],
      i, i + len, CONTENT_SCORE)
  }

  /** The hit built for an occurrence of `len` characters starting at `i`. */
  function ContentHitAt(d: PdfDocument, text: string, len: nat, page: int): nat --> SearchResult {
    (i: nat) requires i + len <= |text| => ContentHit(d, text, len, page, i)
  }

  /** The private `searchInText` of the library search: one hit per non-overlapping occurrence. */
  function TextResults(d: PdfDocument, text: string, query: string, page: int, caseSensitive: bool)
    : (r: seq<SearchResult>)
    requires |query| > 0
    ensures |text| == 0 ==> r == []
  {
    if |text| == 0 then []
    else HitsOf(Fold(text, caseSensitive), Fold(query, caseSensitive), ContentHitAt(d, text, |query|, page), 0)
  }

  /**
   * `h` is the content hit for an occurrence of `len` characters of `text` on page
   * `page` of `d`: the matched text, up to 50 characters on each side, the fixed score.
   */
  predicate ContentHitOfPage(d: PdfDocument, text: string, len: nat, page: int, h: SearchResult) {
    0 <= h.startIndex && h.endIndex == h.startIndex + len <= |text|
    && h.matchedText == text[h.startIndex..h.endIndex]
    && h.contextBefore == text[Max(0, h.startIndex - CONTEXT)..h.startIndex]
    && h.contextAfter == text[h.endIndex..Min(|text|, h.endIndex + CONTEXT)]
    && h.pageNumber == page && h.relevanceScore == CONTENT_SCORE
    && h.documentId == d.id && h.documentPath == d.filePath
  }

  /** The hit built at `i` is a content hit of the page starting at `i`. */
  lemma ContentHitOfItsPage(d: PdfDocument, text: string, len: nat, page: int, i: nat)
    requires i + len <= |text|
    ensures var h := ContentHit(d, text, len, page, i); ContentHitOfPage(d, text, len, page, h) && h.startIndex == i
  {
  }

  /** The hits built at the matches of `pattern` in `folded` are content hits there, in order, disjoint. */
  lemma ContentHitsShape(d: PdfDocument, text: string, query: string, page: int, folded: string, pattern: string)
    requires |folded| == |text| && |pattern| == |query| > 0
    ensures var r := HitsOf(folded, pattern, ContentHitAt(d, text, |query|, page), 0);
      (forall k :: 0 <= k < |r| ==>
        ContentHitOfPage(d, text, |query|, page, r[k]) && MatchAt(folded, pattern, r[k].startIndex))
      && (forall k, l :: 0 <= k < l < |r| ==> r[k].endIndex <= r[l].startIndex)
  {
    var r := HitsOf(folded, pattern, ContentHitAt(d, text, |query|, page), 0);
    var starts := Occurrences(folded, pattern, 0);
    HitsOfOccurrences(folded, pattern, ContentHitAt(d, text, |query|, page), 0);
    OccurrencesSound(folded, pattern, 0);
    forall k | 0 <= k < |r|
      ensures ContentHitOfPage(d, text, |query|, page, r[k]) && r[k].startIndex == starts[k]
    {
      ContentHitOfItsPage(d, text, |query|, page, starts[k]);
    }
  }

  /**
   * Each library hit spans `|query|` characters of the page, equals the query up to
   * case when case-insensitive, carries the (up to) 50 characters on each side, and
   * lies wholly before the next hit.
   */
  lemma TextResultsShape(d: PdfDocument, text: string, query: string, page: int, caseSensitive: bool)
    requires |query| > 0
    ensures var r := TextResults(d, text, query, page, caseSensitive);
      (forall k :: 0 <= k < |r| ==>
        ContentHitOfPage(d, text, |query|, page, r[k])
        && Fold(r[k].matchedText, caseSensitive) == Fold(query, caseSensitive))
      && (forall k, l :: 0 <= k < l < |r| ==> r[k].endIndex <= r[l].startIndex)
  {
    if |text| > 0 {
      var r := TextResults(d, text, query, page, caseSensitive);
      ContentHitsShape(d, text, query, page, Fold(text, caseSensitive), Fold(query, caseSensitive));
      assert r == HitsOf(Fold(text, caseSensitive), Fold(query, caseSensitive), ContentHitAt(d, text, |query|, page), 0);
      forall k | 0 <= k < |r|
        ensures Fold(r[k].matchedText, caseSensitive) == Fold(query, caseSensitive)
      {
        MatchedUpToCase(text, query, caseSensitive, r[k].startIndex);
      }
    }
  }

  /** Every match of `pattern` in `folded` lies inside one of the hits built at the reported matches. */
  lemma ContentHitsComplete(d: PdfDocument, text: string, query: string, page: int,
                            folded: string, pattern: string, m: nat)
    requires |folded| == |text| && |pattern| == |query| > 0
    requires MatchAt(folded, pattern, m)
    ensures var r := HitsOf(folded, pattern, ContentHitAt(d, text, |query|, page), 0);
      exists k :: 0 <= k < |r| && r[k].startIndex <= m < r[k].endIndex
  {
    var starts := Occurrences(folded, pattern, 0);
    OccurrencesCover(folded, pattern, 0, m);
    HitsOfOccurrences(folded, pattern, ContentHitAt(d, text, |query|, page), 0);
    var k :| 0 <= k < |starts| && starts[k] <= m < starts[k] + |query|;
    var r := HitsOf(folded, pattern, ContentHitAt(d, text, |query|, page), 0);
    assert r[k] == ContentHit(d, text, |query|, page, starts[k]);
  }

  /** Every occurrence of the query in a page is reported or lies inside a reported hit. */
  lemma TextResultsComplete(d: PdfDocument, text: string, query: string, page: int,
                            caseSensitive: bool, m: nat)
    requires |query| > 0
    requires MatchAt(Fold(text, caseSensitive), Fold(query, caseSensitive), m)
    ensures var r := TextResults(d, text, query, page, caseSensitive);
      exists k :: 0 <= k < |r| && r[k].startIndex <= m < r[k].endIndex
  {
    ContentHitsComplete(d, text, query, page, Fold(text, caseSensitive), Fold(query, caseSensitive), m);
    var r := TextResults(d, text, query, page, caseSensitive);
    assert r == HitsOf(Fold(text, caseSensitive), Fold(query, caseSensitive), ContentHitAt(d, text, |query|, page), 0);
    var k :| 0 <= k < |r| && r[k].startIndex <= m < r[k].endIndex;
  }

  /** The private `searchInText` of the library search: nothing in empty text, else the `indexOf` loop. */
  method SearchInText(d: PdfDocument, text: string, query: string, page: int, caseSensitive: bool)
    returns (results: seq<SearchResult>)
    requires |query| > 0
    ensures results == TextResults(d, text, query, page, caseSensitive)
  {
    if |text| == 0 {
      return [];
    }
    var collected := CollectMatches(Fold(text, caseSensitive), Fold(query, caseSensitive),
                                    ContentHitAt(d, text, |query|, page), false);
    results := collected.value;
  }

  /**
   * Reading pages `page..last` of one document for the content search. Hits pile up in
   * `acc`; the document is abandoned at an unreadable page (keeping what it gave), and
   * reading stops at a page that gave hits once `maxResults` are reached.
   */
  function ScanPages(d: PdfDocument, pageText: PageText, query: string, caseSensitive: bool,
                     maxResults: int, page: int, last: int, acc: seq<SearchResult>)
    : seq<SearchResult>
    requires |query| > 0
    decreases last - page + 1
  {
    if page > last then acc
    else
      match pageText(d.filePath, page)
      case None => acc
      case Some(text) =>
        var hits := TextResults(d, text, query, page, caseSensitive);
        if |hits| > 0 && |acc + hits| >= maxResults then acc + hits
        else ScanPages(d, pageText, query, caseSensitive, maxResults, page + 1, last, acc + hits)
  }

  /** The outer loop of the content search over the catalog, stopping once `maxResults` hits are in. */
  function ScanDocuments(docs: seq<PdfDocument>, pageText: PageText, query: string, caseSensitive: bool,
                         maxResults: int, acc: seq<SearchResult>)
    : seq<SearchResult>
    requires |query| > 0
    decreases |docs|
  {
    if |docs| == 0 then acc
    else
      var acc' := ScanPages(docs[0], pageText, query, caseSensitive, maxResults,
        1, Min(MAX_PAGES_PER_DOCUMENT, docs[0].pageCount), acc);
      if |acc'| >= maxResults then acc'
      else ScanDocuments(docs[1..], pageText, query, caseSensitive, maxResults, acc')
  }

  /** The ranking of the content search: by descending relevance. */
  function ResultScoreKey(h: SearchResult): Key {
    Key(-h.relevanceScore, 0.0, 0.0)
  }

  /**
   * `searchContentInLibrary`: a blank query finds nothing; otherwise the hits of the
   * first five pages of each document, collected until `maxResults` are in, ranked and
   * cut to `maxResults` (a negative limit throws).
   */
  method SearchContentInLibrary(all: seq<PdfDocument>, query: Option<string>, caseSensitive: bool,
                                maxResults: int, pageText: PageText)
    returns (r: Result<seq<SearchResult>>)
    ensures NoQuery(query) ==> r == Ok([])
    ensures !NoQuery(query) ==>
      r == Limit(ScanDocuments(all, pageText, query.value, caseSensitive, maxResults, []), maxResults)
  {
    var allResults: seq<SearchResult> := [];
    if NoQuery(query) {
      return Ok(allResults);
    }
    var q := query.value;
    QueryNonEmpty(query);
    var i := 0;
    while i < |all|
      invariant 0 <= i <= |all|
      invariant ScanDocuments(all[i..], pageText, q, caseSensitive, maxResults, allResults)
        == ScanDocuments(all, pageText, q, caseSensitive, maxResults, [])
    {
      allResults := ReadFirstPages(all[i], pageText, q, caseSensitive, maxResults, allResults);
      if |allResults| >= maxResults {
        break;
      }
      i := i + 1;
    }
    ContentScores(all, pageText, q, caseSensitive, maxResults);
    EqualKeysKeepOrder(allResults, ResultScoreKey);
    var ranked := SortBy(allResults, ResultScoreKey);
    r := Limit(ranked, maxResults);
  }

  /**
   * The inner loop of `searchContentInLibrary`: reads pages `1..min(5, pageCount)` of `d`,
   * appending each page's hits to `acc`.
   */
  method ReadFirstPages(d: PdfDocument, pageText: PageText, q: string, caseSensitive: bool, maxResults: int,
                        acc: seq<SearchResult>)
    returns (hits: seq<SearchResult>)
    requires |q| > 0
    ensures hits == ScanPages(d, pageText, q, caseSensitive, maxResults, 1, Min(MAX_PAGES_PER_DOCUMENT, d.pageCount), acc)
  {
    hits := acc;
    var last := Min(MAX_PAGES_PER_DOCUMENT, d.pageCount);
    var page := 1;
    while page <= last
      invariant ScanPages(d, pageText, q, caseSensitive, maxResults, page, last, hits)
        == ScanPages(d, pageText, q, caseSensitive, maxResults, 1, last, acc)
      decreases last - page + 1
    {
      var text := pageText(d.filePath, page);
      if text.None? {
        break;
      }
      var pageResults := SearchInText(d, text.value, q, page, caseSensitive);
      hits := hits + pageResults;
      if |pageResults| > 0 && |hits| >= maxResults {
        break;
      }
      page := page + 1;
    }
  }

  /** Reading a document's pages only appends: the hits collected before are kept in front. */
  lemma {:induction false} ScanPagesExtends(d: PdfDocument, pageText: PageText, query: string, caseSensitive: bool,
                                            maxResults: int, page: int, last: int, acc: seq<SearchResult>)
    requires |query| > 0
    ensures var r := ScanPages(d, pageText, query, caseSensitive, maxResults, page, last, acc);
      |acc| <= |r| && r[..|acc|] == acc
    decreases last - page + 1
  {
    if page <= last && pageText(d.filePath, page).Some? {
      var hits := TextResults(d, pageText(d.filePath, page).value, query, page, caseSensitive);
      assert (acc + hits)[..|acc|] == acc;
      if !(|hits| > 0 && |acc + hits| >= maxResults) {
        ScanPagesExtends(d, pageText, query, caseSensitive, maxResults, page + 1, last, acc + hits);
        var r := ScanPages(d, pageText, query, caseSensitive, maxResults, page + 1, last, acc + hits);
        assert r[..|acc|] == r[..|acc + hits|][..|acc|];
      }
    }
  }

  /** Scanning further documents only appends to the hits collected so far. */
  lemma {:induction false} ScanDocumentsExtends(docs: seq<PdfDocument>, pageText: PageText, query: string,
                                                caseSensitive: bool, maxResults: int, acc: seq<SearchResult>)
    requires |query| > 0
    ensures var r := ScanDocuments(docs, pageText, query, caseSensitive, maxResults, acc);
      |acc| <= |r| && r[..|acc|] == acc
    decreases |docs|
  {
    if |docs| > 0 {
      var last := Min(MAX_PAGES_PER_DOCUMENT, docs[0].pageCount);
      var acc' := ScanPages(docs[0], pageText, query, caseSensitive, maxResults, 1, last, acc);
      ScanPagesExtends(docs[0], pageText, query, caseSensitive, maxResults, 1, last, acc);
      if |acc'| < maxResults {
        ScanDocumentsExtends(docs[1..], pageText, query, caseSensitive, maxResults, acc');
        var r := ScanDocuments(docs[1..], pageText, query, caseSensitive, maxResults, acc');
        assert r[..|acc|] == r[..|acc'|][..|acc|];
      }
    }
  }

  /** `h` describes a match of `query` in document `d`. */
  predicate HitOf(d: PdfDocument, h: SearchResult, query: string, caseSensitive: bool) {
    h.documentId == d.id && h.documentPath == d.filePath && h.relevanceScore == CONTENT_SCORE
    && h.endIndex == h.startIndex + |query|
    && Fold(h.matchedText, caseSensitive) == Fold(query, caseSensitive)
  }

  /** `h` is a match of `query` on one of the pages `1..min(5, pageCount)` of `d`. */
  predicate OnFirstPages(d: PdfDocument, h: SearchResult, query: string, caseSensitive: bool) {
    HitOf(d, h, query, caseSensitive) && 1 <= h.pageNumber <= Min(MAX_PAGES_PER_DOCUMENT, d.pageCount)
  }

  /** A hit is a match of the query on one of the first pages of some document in `docs`. */
  predicate FromFirstPages(docs: seq<PdfDocument>, h: SearchResult, query: string, caseSensitive: bool) {
    exists d :: d in docs && OnFirstPages(d, h, query, caseSensitive)
  }

  /** The hits of `hits` from index `from` on are matches of `query` in `d` on pages `first..last`. */
  predicate HitsOnPages(d: PdfDocument, hits: seq<SearchResult>, from: nat, query: string, caseSensitive: bool,
                        first: int, last: int) {
    forall k :: from <= k < |hits| ==>
      HitOf(d, hits[k], query, caseSensitive) && first <= hits[k].pageNumber <= last
  }

  /** Every hit of one page is a match of the query on that page. */
  lemma TextResultsOnPage(d: PdfDocument, text: string, query: string, page: int, caseSensitive: bool)
    requires |query| > 0
    ensures HitsOnPages(d, TextResults(d, text, query, page, caseSensitive), 0, query, caseSensitive, page, page)
  {
    TextResultsShape(d, text, query, page, caseSensitive);
  }

  /** Hits on pages `first..last`, appended behind others, stay hits on those pages; widening the pages keeps them. */
  lemma HitsOnPagesAppend(d: PdfDocument, acc: seq<SearchResult>, hits: seq<SearchResult>, query: string,
                          caseSensitive: bool, first: int, last: int, first': int, last': int)
    requires HitsOnPages(d, hits, 0, query, caseSensitive, first, last)
    requires first' <= first && last <= last'
    ensures HitsOnPages(d, acc + hits, |acc|, query, caseSensitive, first', last')
  {
    forall k | |acc| <= k < |acc + hits|
      ensures HitOf(d, (acc + hits)[k], query, caseSensitive) && first' <= (acc + hits)[k].pageNumber <= last'
    {
      assert (acc + hits)[k] == hits[k - |acc|];
    }
  }

  /** The hits one document adds are matches of the query on the pages read. */
  lemma {:induction false} ScanPagesSound(d: PdfDocument, pageText: PageText, query: string, caseSensitive: bool,
                                          maxResults: int, page: int, last: int, acc: seq<SearchResult>)
    requires |query| > 0
    ensures HitsOnPages(d, ScanPages(d, pageText, query, caseSensitive, maxResults, page, last, acc),
      |acc|, query, caseSensitive, page, last)
    decreases last - page + 1
  {
    if page <= last && pageText(d.filePath, page).Some? {
      var text := pageText(d.filePath, page).value;
      var hits := TextResults(d, text, query, page, caseSensitive);
      TextResultsOnPage(d, text, query, page, caseSensitive);
      HitsOnPagesAppend(d, acc, hits, query, caseSensitive, page, page, page, last);
      if |hits| > 0 && |acc + hits| >= maxResults {
        assert ScanPages(d, pageText, query, caseSensitive, maxResults, page, last, acc) == acc + hits;
      } else {
        var r := ScanPages(d, pageText, query, caseSensitive, maxResults, page + 1, last, acc + hits);
        assert ScanPages(d, pageText, query, caseSensitive, maxResults, page, last, acc) == r;
        ScanPagesSound(d, pageText, query, caseSensitive, maxResults, page + 1, last, acc + hits);
        ScanPagesExtends(d, pageText, query, caseSensitive, maxResults, page + 1, last, acc + hits);
        HitsOnPagesJoin(d, acc + hits, r, |acc|, query, caseSensitive, page, last);
      }
    } else {
      assert ScanPages(d, pageText, query, caseSensitive, maxResults, page, last, acc) == acc;
    }
  }

  /** Hits on `first..last` behind a prefix, followed by later hits on `first + 1..last`, are all on `first..last`. */
  lemma HitsOnPagesJoin(d: PdfDocument, prefix: seq<SearchResult>, r: seq<SearchResult>, from: nat,
                        query: string, caseSensitive: bool, first: int, last: int)
    requires |prefix| <= |r| && r[..|prefix|] == prefix
    requires HitsOnPages(d, prefix, from, query, caseSensitive, first, last)
    requires HitsOnPages(d, r, |prefix|, query, caseSensitive, first + 1, last)
    ensures HitsOnPages(d, r, from, query, caseSensitive, first, last)
  {
    forall k | from <= k < |r|
      ensures HitOf(d, r[k], query, caseSensitive) && first <= r[k].pageNumber <= last
    {
      if k < |prefix| {
        assert r[k] == prefix[k];
      }
    }
  }

  /**
   * The content hits collected for a query each come from a catalog document and from
   * one of its first `min(5, pageCount)` pages, and are real occurrences of the query.
   */
  lemma {:induction false} ScanDocumentsSound(docs: seq<PdfDocument>, pageText: PageText, query: string,
                                              caseSensitive: bool, maxResults: int, acc: seq<SearchResult>)
    requires |query| > 0
    ensures var r := ScanDocuments(docs, pageText, query, caseSensitive, maxResults, acc);
      forall k :: |acc| <= k < |r| ==> FromFirstPages(docs, r[k], query, caseSensitive)
    decreases |docs|
  {
    if |docs| > 0 {
      var last := Min(MAX_PAGES_PER_DOCUMENT, docs[0].pageCount);
      var acc' := ScanPages(docs[0], pageText, query, caseSensitive, maxResults, 1, last, acc);
      ScanPagesSound(docs[0], pageText, query, caseSensitive, maxResults, 1, last, acc);
      var r := ScanDocuments(docs, pageText, query, caseSensitive, maxResults, acc);
      if |acc'| < maxResults {
        ScanDocumentsSound(docs[1..], pageText, query, caseSensitive, maxResults, acc');
        ScanDocumentsExtends(docs[1..], pageText, query, caseSensitive, maxResults, acc');
        assert r == ScanDocuments(docs[1..], pageText, query, caseSensitive, maxResults, acc');
        forall k | |acc'| <= k < |r| ensures FromFirstPages(docs, r[k], query, caseSensitive) {
          assert FromFirstPages(docs[1..], r[k], query, caseSensitive);
          var e :| e in docs[1..] && OnFirstPages(e, r[k], query, caseSensitive);
          assert e in docs;
        }
        assert r[..|acc'|] == acc';
      }
      forall k | |acc| <= k < |acc'| ensures FromFirstPages(docs, r[k], query, caseSensitive) {
        assert r[k] == acc'[k];
        assert HitsOnPages(docs[0], acc', |acc|, query, caseSensitive, 1, last);
        assert docs[0] in docs && OnFirstPages(docs[0], r[k], query, caseSensitive);
      }
    }
  }

  /** The content search returns at most `maxResults` hits, each from the first pages of a catalog document. */
  lemma ContentResultsSound(all: seq<PdfDocument>, query: string, caseSensitive: bool,
                            maxResults: int, pageText: PageText)
    requires |query| > 0 && maxResults >= 0
    ensures var r := Limit(ScanDocuments(all, pageText, query, caseSensitive, maxResults, []), maxResults);
      r.Ok? && |r.value| <= maxResults
      && forall h :: h in r.value ==> FromFirstPages(all, h, query, caseSensitive)
  {
    ScanDocumentsSound(all, pageText, query, caseSensitive, maxResults, []);
  }

  /** Every content hit carries the same score, so ranking them by score keeps their order. */
  lemma ContentScores(all: seq<PdfDocument>, pageText: PageText, query: string, caseSensitive: bool, maxResults: int)
    requires |query| > 0
    ensures var r := ScanDocuments(all, pageText, query, caseSensitive, maxResults, []);
      forall k :: 0 <= k < |r| ==> r[k].relevanceScore == CONTENT_SCORE
  {
    var none: seq<SearchResult> := [];
    ScanDocumentsSound(all, pageText, query, caseSensitive, maxResults, none);
    var r := ScanDocuments(all, pageText, query, caseSensitive, maxResults, none);
    assert var r' := ScanDocuments(all, pageText, query, caseSensitive, maxResults, none);
      forall k :: |none| <= k < |r'| ==> FromFirstPages(all, r'[k], query, caseSensitive);
    forall k | 0 <= k < |r| ensures r[k].relevanceScore == CONTENT_SCORE {
      assert FromFirstPages(all, r[k], query, caseSensitive);
      var d :| d in all && OnFirstPages(d, r[k], query, caseSensitive);
    }
  }
}
