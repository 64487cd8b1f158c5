/**
 * Searching the text of one document: every page, a page range, or the page on
 * screen. A quoted pattern (`Pattern.quote`) with `matcher.find()` reports the leftmost
 * literal match and resumes at its end, with ASCII case folding when case-insensitive;
 * each hit carries up to 50 characters of context on each side, trimmed to word
 * boundaries.
 *
 * Page text comes from a `PageText` extractor; where it throws, the whole search
 * throws (`Err(ReadFailure)`). The relevance score of a hit is floating-point
 * arithmetic over the match and its context and is a parameter, `Scorer`; it splits
 * the context with the lowercased query used as a regular expression, so a query that
 * is not one makes the search throw at its first match (`Err(InvalidPattern)`).
 */
module DocumentSearch {
  import opened Wrappers
  import opened JavaText
  import opened Records
  import opened TextMatching

  /**
   * `calculateRelevanceScore(matchedText, query, contextBefore + contextAfter)`:
   * `value` is its `double` arithmetic, given the two contexts separately, and `splits`
   * says whether `String.split` accepts its argument as a regular expression (otherwise
   * it throws `PatternSyntaxException`).
   */
  datatype Scorer = Scorer(value: (string, string, string, string) -> real, splits: string -> bool)

  /** The score throws for every match of `query`: `split(lowerQuery, -1)` rejects the lowercased query. */
  predicate ScoreThrows(score: Scorer, query: string) {
    !score.splits(Lower(query))
  }

  /** `CONTEXT_LENGTH`: characters of context looked at on each side of a match. */
  const CONTEXT_LENGTH: nat := 50

  /**
   * The context window before `start` is trimmed to a word boundary exactly when it
   * does not begin at the start of the text and it has a space somewhere after its
   * first character.
   */
  predicate TrimsBefore(text: string, start: nat)
    requires start <= |text|
  {
    start > CONTEXT_LENGTH && text[start - CONTEXT_LENGTH] != ' '
    && ' ' in text[start - CONTEXT_LENGTH..start]
  }

  /**
   * The first space in `text[lo..hi]`, as an index into `text`, or -1: `indexOf(' ')` on
   * that window, shifted by `lo`.
   */
  function FirstSpace(text: string, lo: nat, hi: nat): (r: int)
    requires lo <= hi <= |text|
    ensures r == -1 || (lo <= r < hi && text[r] == ' ')
    decreases hi - lo
  {
    if lo == hi then -1 else if text[lo] == ' ' then lo else FirstSpace(text, lo + 1, hi)
  }

  lemma {:induction false} FirstSpaceFirst(text: string, lo: nat, hi: nat)
    requires lo <= hi <= |text|
    ensures var r := FirstSpace(text, lo, hi);
      forall i :: lo <= i < hi && (r == -1 || i < r) ==> text[i] != ' '
    decreases hi - lo
  {
    if lo < hi && text[lo] != ' ' {
      FirstSpaceFirst(text, lo + 1, hi);
    }
  }

  /**
   * The last space in `text[lo..hi]`, as an index into `text`, or -1: `lastIndexOf(' ')`
   * on that window, shifted by `lo`.
   */
  function LastSpace(text: string, lo: nat, hi: nat): (r: int)
    requires lo <= hi <= |text|
    ensures r == -1 || (lo <= r < hi && text[r] == ' ')
    decreases hi - lo
  {
    if lo == hi then -1 else if text[hi - 1] == ' ' then hi - 1 else LastSpace(text, lo, hi - 1)
  }

  lemma {:induction false} LastSpaceLast(text: string, lo: nat, hi: nat)
    requires lo <= hi <= |text|
    ensures var r := LastSpace(text, lo, hi); forall i :: lo <= i < hi && r < i ==> text[i] != ' '
    decreases hi - lo
  {
    if lo < hi && text[hi - 1] != ' ' {
      LastSpaceLast(text, lo, hi - 1);
    }
  }

  /**
   * `extractContextBefore`: the up to 50 characters before `start`; when the window does
   * not reach back to the start of the text and holds a space after its first character,
   * only what follows that (first) space.
   */
  function ContextBefore(text: string, start: nat): string
    requires start <= |text|
  {
    var contextStart := Max(0, start - CONTEXT_LENGTH);
    var space := FirstSpace(text, contextStart, start);
    if space > contextStart && contextStart > 0 then text[space + 1..start] else text[contextStart..start]
  }

  /**
   * The context before a match is a suffix of the text before it, at most 50 long: the
   * whole window unless it is trimmed, and otherwise what follows the window's first space.
   */
  lemma ContextBeforeSpec(text: string, start: nat)
    requires start <= |text|
    ensures var r := ContextBefore(text, start);
      |r| <= CONTEXT_LENGTH && |r| <= start && r == text[start - |r|..start]
    ensures !TrimsBefore(text, start) ==>
      ContextBefore(text, start) == text[Max(0, start - CONTEXT_LENGTH)..start]
    ensures var r := ContextBefore(text, start);
      TrimsBefore(text, start) ==>
        (|r| < CONTEXT_LENGTH && text[start - |r| - 1] == ' '
         && forall i :: start - CONTEXT_LENGTH <= i < start - |r| - 1 ==> text[i] != ' ')
  {
    var contextStart := Max(0, start - CONTEXT_LENGTH);
    var space := FirstSpace(text, contextStart, start);
    TrimsAtSpace(text, start);
    if TrimsBefore(text, start) {
      var r := text[space + 1..start];
      assert ContextBefore(text, start) == r;
      assert start - |r| - 1 == space;
      FirstSpaceFirst(text, contextStart, start);
      forall i | start - CONTEXT_LENGTH <= i < space
        ensures text[i] != ' '
      {
      }
    } else {
      assert ContextBefore(text, start) == text[contextStart..start];
    }
  }

  /** The window is trimmed exactly when its first space lies after its first character. */
  lemma TrimsAtSpace(text: string, start: nat)
    requires start <= |text|
    ensures var contextStart := Max(0, start - CONTEXT_LENGTH);
      TrimsBefore(text, start) <==> FirstSpace(text, contextStart, start) > contextStart && contextStart > 0
  {
    var contextStart := Max(0, start - CONTEXT_LENGTH);
    var space := FirstSpace(text, contextStart, start);
    var window := text[contextStart..start];
    if TrimsBefore(text, start) {
      FirstSpaceFirst(text, contextStart, start);
      var k :| 0 <= k < |window| && window[k] == ' ';
      assert text[contextStart + k] == ' ';
    }
    if space > contextStart && contextStart > 0 {
      assert window[space - contextStart] == ' ';
    }
  }

  /**
   * The context window after `end` is cut at a word boundary exactly when it stops
   * before the end of the text and it has a space somewhere after its first character.
   */
  predicate CutsAfter(text: string, end: nat)
    requires end <= |text|
  {
    end + CONTEXT_LENGTH < |text| && ' ' in text[end + 1..end + CONTEXT_LENGTH]
  }

  /**
   * `extractContextAfter`: the up to 50 characters after `end`; when the window stops
   * before the end of the text and holds a space after its first character, only what
   * precedes that (last) space.
   */
  function ContextAfter(text: string, end: nat): string
    requires end <= |text|
  {
    var contextEnd := Min(|text|, end + CONTEXT_LENGTH);
    var space := LastSpace(text, end, contextEnd);
    if space > end && contextEnd < |text| then text[end..space] else text[end..contextEnd]
  }

  /**
   * The context after a match is a prefix of the text after it, at most 50 long: the
   * whole window unless it is cut, and otherwise what precedes the window's last space.
   */
  lemma ContextAfterSpec(text: string, end: nat)
    requires end <= |text|
    ensures var r := ContextAfter(text, end);
      |r| <= CONTEXT_LENGTH && end + |r| <= |text| && r == text[end..end + |r|]
    ensures !CutsAfter(text, end) ==>
      ContextAfter(text, end) == text[end..Min(|text|, end + CONTEXT_LENGTH)]
    ensures var r := ContextAfter(text, end);
      CutsAfter(text, end) ==>
        (0 < |r| && text[end + |r|] == ' '
         && forall i :: end + |r| < i < end + CONTEXT_LENGTH ==> text[i] != ' ')
  {
    var contextEnd := Min(|text|, end + CONTEXT_LENGTH);
    var space := LastSpace(text, end, contextEnd);
    CutsAtSpace(text, end);
    if CutsAfter(text, end) {
      var r := text[end..space];
      assert ContextAfter(text, end) == r;
      assert end + |r| == space;
      LastSpaceLast(text, end, contextEnd);
      forall i | space < i < end + CONTEXT_LENGTH
        ensures text[i] != ' '
      {
      }
    } else {
      assert ContextAfter(text, end) == text[end..contextEnd];
    }
  }

  /** The window is cut exactly when its last space lies after its first character. */
  lemma CutsAtSpace(text: string, end: nat)
    requires end <= |text|
    ensures var contextEnd := Min(|text|, end + CONTEXT_LENGTH);
      CutsAfter(text, end) <==> LastSpace(text, end, contextEnd) > end && contextEnd < |text|
  {
    var contextEnd := Min(|text|, end + CONTEXT_LENGTH);
    var space := LastSpace(text, end, contextEnd);
    if CutsAfter(text, end) {
      LastSpaceLast(text, end, contextEnd);
      var window := text[end + 1..end + CONTEXT_LENGTH];
      var j :| 0 <= j < |window| && window[j] == ' ';
      assert text[end + 1 + j] == ' ';
    }
    if space > end && contextEnd < |text| {
      assert text[end + 1..end + CONTEXT_LENGTH][space - end - 1] == ' ';
    }
  }

  /** The score of a match in its context. */
  function ScoreOf(score: Scorer, matched: string, query: string, before: string, after: string): real {
    score.value(matched, query, before, after)
  }

  /** One hit of the document search: the match at `i`, its trimmed context and its score. */
  function DocumentHit(d: PdfDocument, text: string, query: string, page: int, score: Scorer, i: nat)
    : (r: SearchResult)
    requires i + |query| <= |text|
  {
    var before := ContextBefore(text, i);
    var after := ContextAfter(text, i + |query|);
    var matched := text[i..i + |query|];
    SearchResult(d.id, DisplayTitle(d), d.filePath, page, matched, before, after,
      i, i + |query|, ScoreOf(score, matched, query, before, after))
  }

  /** The hit built for a match starting at `i`. */
  function HitAt(d: PdfDocument, text: string, query: string, page: int, score: Scorer): nat --> SearchResult {
    (i: nat) requires i + |query| <= |text| => DocumentHit(d, text, query, page, score, i)
  }

  /** The hits the `find()` loop of `searchInText` builds: one per non-overlapping match; none in empty text. */
  function PageHits(d: PdfDocument, text: string, query: string, page: int, caseSensitive: bool,
                    score: Scorer): seq<SearchResult>
    requires |query| > 0
  {
    if |text| == 0 then []
    else HitsOf(Fold(text, caseSensitive), Fold(query, caseSensitive), HitAt(d, text, query, page, score), 0)
  }

  /**
   * `searchInText` of the document search: the page's hits, unless the score throws,
   * which it does at the first match when `split` rejects the query.
   */
  function PageResults(d: PdfDocument, text: string, query: string, page: int, caseSensitive: bool,
                       score: Scorer): Result<seq<SearchResult>>
    requires |query| > 0
  {
    var hits := PageHits(d, text, query, page, caseSensitive, score);
    if |hits| > 0 && ScoreThrows(score, query) then Err(InvalidPattern) else Ok(hits)
  }

  /**
   * `h` is a hit of `query` on page `page` of `d`: it spans `|query|` characters of the
   * text, carries the trimmed contexts around them and the score of the match in that
   * context.
   */
  predicate HitOfPage(d: PdfDocument, text: string, query: string, page: int, score: Scorer, h: SearchResult) {
    0 <= h.startIndex && h.endIndex == h.startIndex + |query| <= |text|
    && h.matchedText == text[h.startIndex..h.endIndex]
    && h.contextBefore == ContextBefore(text, h.startIndex)
    && h.contextAfter == ContextAfter(text, h.endIndex)
    && h.relevanceScore == ScoreOf(score, h.matchedText, query, h.contextBefore, h.contextAfter)
    && h.pageNumber == page && h.documentId == d.id && h.documentPath == d.filePath
  }

  /** The hit built at `i` is a hit of the page starting at `i`. */
  lemma DocumentHitOfPage(d: PdfDocument, text: string, query: string, page: int, score: Scorer, i: nat)
    requires i + |query| <= |text|
    ensures var h := DocumentHit(d, text, query, page, score, i);
      HitOfPage(d, text, query, page, score, h) && h.startIndex == i
  {
  }

  /** Hits in increasing order, each ending before the next begins. */
  predicate Disjoint(r: seq<SearchResult>) {
    forall k, l :: 0 <= k < l < |r| ==> r[k].endIndex <= r[l].startIndex
  }

  /** The hits built at the matches of `pattern` in `folded`: hits of the page, in order, disjoint. */
  lemma HitsShape(d: PdfDocument, text: string, query: string, page: int, score: Scorer,
                  folded: string, pattern: string)
    requires |folded| == |text| && |pattern| == |query| > 0
    ensures var r := HitsOf(folded, pattern, HitAt(d, text, query, page, score), 0);
      Disjoint(r)
      && forall k :: 0 <= k < |r| ==>
        HitOfPage(d, text, query, page, score, r[k]) && MatchAt(folded, pattern, r[k].startIndex)
  {
    var r := HitsOf(folded, pattern, HitAt(d, text, query, page, score), 0);
    var starts := Occurrences(folded, pattern, 0);
    HitsOfOccurrences(folded, pattern, HitAt(d, text, query, page, score), 0);
    OccurrencesSound(folded, pattern, 0);
    forall k | 0 <= k < |r|
      ensures HitOfPage(d, text, query, page, score, r[k]) && r[k].startIndex == starts[k]
    {
      DocumentHitOfPage(d, text, query, page, score, starts[k]);
    }
  }

  /**
   * Each hit spans `|query|` characters of the page and equals the query up to ASCII
   * case when case-insensitive; it carries the trimmed contexts around it and the score
   * of the match in that context; hits are in increasing order and never overlap.
   */
  lemma PageHitsShape(d: PdfDocument, text: string, query: string, page: int, caseSensitive: bool,
                      score: Scorer)
    requires |query| > 0
    ensures |text| == 0 ==> PageHits(d, text, query, page, caseSensitive, score) == []
    ensures var r := PageHits(d, text, query, page, caseSensitive, score);
      Disjoint(r)
      && forall k :: 0 <= k < |r| ==>
        HitOfPage(d, text, query, page, score, r[k])
        && Fold(r[k].matchedText, caseSensitive) == Fold(query, caseSensitive)
  {
    if |text| > 0 {
      var r := PageHits(d, text, query, page, caseSensitive, score);
      HitsShape(d, text, query, page, score, Fold(text, caseSensitive), Fold(query, caseSensitive));
      forall k | 0 <= k < |r|
        ensures Fold(r[k].matchedText, caseSensitive) == Fold(query, caseSensitive)
      {
        MatchedUpToCase(text, query, caseSensitive, r[k].startIndex);
      }
    }
  }

  /** Every match of `pattern` in `folded` lies inside one of the hits built at the reported matches. */
  lemma HitsComplete(d: PdfDocument, text: string, query: string, page: int, score: Scorer,
                     folded: string, pattern: string, m: nat)
    requires |folded| == |text| && |pattern| == |query| > 0
    requires MatchAt(folded, pattern, m)
    ensures var r := HitsOf(folded, pattern, HitAt(d, text, query, page, score), 0);
      exists k :: 0 <= k < |r| && r[k].startIndex <= m < r[k].endIndex
  {
    var starts := Occurrences(folded, pattern, 0);
    OccurrencesCover(folded, pattern, 0, m);
    HitsOfOccurrences(folded, pattern, HitAt(d, text, query, page, score), 0);
    var k :| 0 <= k < |starts| && starts[k] <= m < starts[k] + |query|;
    var r := HitsOf(folded, pattern, HitAt(d, text, query, page, score), 0);
    assert r[k] == DocumentHit(d, text, query, page, score, starts[k]);
  }

  /** Every match of the query in a page is reported or lies inside a reported hit. */
  lemma PageHitsComplete(d: PdfDocument, text: string, query: string, page: int, caseSensitive: bool,
                         score: Scorer, m: nat)
    requires |query| > 0
    requires MatchAt(Fold(text, caseSensitive), Fold(query, caseSensitive), m)
    ensures var r := PageHits(d, text, query, page, caseSensitive, score);
      exists k :: 0 <= k < |r| && r[k].startIndex <= m < r[k].endIndex
  {
    HitsComplete(d, text, query, page, score, Fold(text, caseSensitive), Fold(query, caseSensitive), m);
    var r := PageHits(d, text, query, page, caseSensitive, score);
    assert r == HitsOf(Fold(text, caseSensitive), Fold(query, caseSensitive), HitAt(d, text, query, page, score), 0);
    var k :| 0 <= k < |r| && r[k].startIndex <= m < r[k].endIndex;
  }

  /**
   * `searchInText`: nothing in empty text; otherwise the `find()` loop builds a hit per
   * match, and the score of the first match throws when `split` rejects the query.
   */
  method SearchInText(d: PdfDocument, text: string, query: string, page: int, caseSensitive: bool,
                      score: Scorer)
    returns (r: Result<seq<SearchResult>>)
    requires |query| > 0
    ensures r == PageResults(d, text, query, page, caseSensitive, score)
  {
    if |text| == 0 {
      return Ok([]);
    }
    PageResultsOfHits(d, text, query, page, caseSensitive, score);
    var collected := CollectMatches(Fold(text, caseSensitive), Fold(query, caseSensitive),
                                    HitAt(d, text, query, page, score), ScoreThrows(score, query));
    r := if collected.None? then Err(InvalidPattern) else Ok(collected.value);
  }

  /** On a non-empty page, the search's outcome in terms of the hits the loop collects. */
  lemma PageResultsOfHits(d: PdfDocument, text: string, query: string, page: int, caseSensitive: bool,
                          score: Scorer)
    requires |query| > 0 && |text| > 0
    ensures var all := HitsOf(Fold(text, caseSensitive), Fold(query, caseSensitive), HitAt(d, text, query, page, score), 0);
      PageResults(d, text, query, page, caseSensitive, score)
        == if |all| > 0 && ScoreThrows(score, query) then Err(InvalidPattern) else Ok(all)
  {
  }

  /**
   * A page search fails exactly when the query has a match there and `split` rejects
   * it; otherwise it gives the page's hits.
   */
  lemma PageResultsFails(d: PdfDocument, text: string, query: string, page: int, caseSensitive: bool,
                         score: Scorer)
    requires |query| > 0
    ensures var r := PageResults(d, text, query, page, caseSensitive, score);
      (r.Err? <==> ScoreThrows(score, query) && MatchCount(text, query, caseSensitive) > 0)
      && (r.Err? ==> r.failure == InvalidPattern)
      && (r.Ok? ==> r.value == PageHits(d, text, query, page, caseSensitive, score))
  {
    MatchCountAgrees(d, text, query, page, caseSensitive, score);
  }

  /** `countMatchesInText`: the number of non-overlapping matches; none in empty text. */
  function MatchCount(text: string, query: string, caseSensitive: bool): nat
    requires |query| > 0
  {
    if |text| == 0 then 0 else |Occurrences(Fold(text, caseSensitive), Fold(query, caseSensitive), 0)|
  }

  /** The count is the number of hits the search reports on the same page. */
  lemma MatchCountAgrees(d: PdfDocument, text: string, query: string, page: int, caseSensitive: bool,
                         score: Scorer)
    requires |query| > 0
    ensures MatchCount(text, query, caseSensitive) == |PageHits(d, text, query, page, caseSensitive, score)|
  {
    if |text| > 0 {
      HitsOfOccurrences(Fold(text, caseSensitive), Fold(query, caseSensitive), HitAt(d, text, query, page, score), 0);
    }
  }

  /** The counting loop of `countMatchesInText`. */
  method CountMatchesInText(text: string, query: string, caseSensitive: bool) returns (count: nat)
    requires |query| > 0
    ensures count == MatchCount(text, query, caseSensitive)
  {
    if |text| == 0 {
      return 0;
    }
    var folded := Fold(text, caseSensitive);
    var pattern := Fold(query, caseSensitive);
    count := 0;
    var index := 0;
    while true
      invariant count + |Occurrences(folded, pattern, index)| == |Occurrences(folded, pattern, 0)|
      decreases |text| - index
    {
      var found := IndexOf(folded, pattern, index);
      OccurrencesStep(folded, pattern, index);
      if found == -1 {
        break;
      }
      count := count + 1;
      index := found + |query|;
    }
  }

  /** Appending `acc` in front of a result that may have failed. */
  function Prepend(acc: seq<SearchResult>, r: Result<seq<SearchResult>>): Result<seq<SearchResult>> {
    match r
    case Ok(v) => Ok(acc + v)
    case Err(e) => Err(e)
  }

  /**
   * The hits of pages `page..last` in page order; reading a page that throws, or a page
   * search that throws, makes the whole search throw.
   */
  function RangeResults(d: PdfDocument, pageText: PageText, query: string, caseSensitive: bool,
                        score: Scorer, page: int, last: int): Result<seq<SearchResult>>
    requires |query| > 0
    decreases last - page + 1
  {
    if page > last then Ok([])
    else
      match pageText(d.filePath, page)
      case None => Err(ReadFailure)
      case Some(text) =>
        match PageResults(d, text, query, page, caseSensitive, score)
        case Err(e) => Err(e)
        case Ok(here) => Prepend(here, RangeResults(d, pageText, query, caseSensitive, score, page + 1, last))
  }

  /** Every hit of a page range lies on a page of the range, in non-decreasing page order. */
  lemma {:induction false} RangeResultsPages(d: PdfDocument, pageText: PageText, query: string,
                                             caseSensitive: bool, score: Scorer, page: int, last: int)
    requires |query| > 0
    ensures var r := RangeResults(d, pageText, query, caseSensitive, score, page, last);
      r.Ok? ==> PagesWithin(r.value, page, last) && PagesAscending(r.value)
    decreases last - page + 1
  {
    if page <= last && pageText(d.filePath, page).Some? {
      var text := pageText(d.filePath, page).value;
      var here := PageHits(d, text, query, page, caseSensitive, score);
      RangeResultsPages(d, pageText, query, caseSensitive, score, page + 1, last);
      PageHitsShape(d, text, query, page, caseSensitive, score);
      var rest := RangeResults(d, pageText, query, caseSensitive, score, page + 1, last);
      if rest.Ok? {
        assert PagesWithin(here, page, page);
        JoinPages(here, rest.value, page, last);
      }
    }
  }

  /** Every hit lies on one of the pages `first..last`. */
  predicate PagesWithin(r: seq<SearchResult>, first: int, last: int) {
    forall k :: 0 <= k < |r| ==> first <= r[k].pageNumber <= last
  }

  /** Hits are grouped by page, pages ascending. */
  predicate PagesAscending(r: seq<SearchResult>) {
    forall k, l :: 0 <= k < l < |r| ==> r[k].pageNumber <= r[l].pageNumber
  }

  lemma JoinPages(here: seq<SearchResult>, rest: seq<SearchResult>, page: int, last: int)
    requires page <= last
    requires PagesWithin(here, page, page) && PagesWithin(rest, page + 1, last) && PagesAscending(rest)
    ensures PagesWithin(here + rest, page, last) && PagesAscending(here + rest)
  {
    var r := here + rest;
    forall k | 0 <= k < |r|
      ensures page <= r[k].pageNumber <= last
      ensures k < |here| ==> r[k].pageNumber == page
      ensures k >= |here| ==> r[k] == rest[k - |here|]
    {
      if k < |here| {
        assert r[k] == here[k];
      }
    }
  }

  /** An empty page interval reads nothing and finds nothing. */
  lemma EmptyRangeFindsNothing(d: PdfDocument, pageText: PageText, query: string, caseSensitive: bool,
                               score: Scorer, page: int, last: int)
    requires |query| > 0 && page > last
    ensures RangeResults(d, pageText, query, caseSensitive, score, page, last) == Ok([])
  {
  }

  lemma PrependTwice(a: seq<SearchResult>, b: seq<SearchResult>, r: Result<seq<SearchResult>>)
    ensures Prepend(a, Prepend(b, r)) == Prepend(a + b, r)
    ensures Prepend([], r) == r
  {
    if r.Ok? {
      assert [] + r.value == r.value;
      assert a + (b + r.value) == (a + b) + r.value;
    }
  }

  /** The page loop shared by `searchInDocument` and `searchInDocumentRange`. */
  method SearchPages(d: PdfDocument, query: string, first: int, last: int, caseSensitive: bool,
                     pageText: PageText, score: Scorer)
    returns (r: Result<seq<SearchResult>>)
    requires |query| > 0
    ensures r == RangeResults(d, pageText, query, caseSensitive, score, first, last)
  {
    var results: seq<SearchResult> := [];
    var pageNum := first;
    PrependTwice([], [], RangeResults(d, pageText, query, caseSensitive, score, first, last));
    while pageNum <= last
      invariant Prepend(results, RangeResults(d, pageText, query, caseSensitive, score, pageNum, last))
        == RangeResults(d, pageText, query, caseSensitive, score, first, last)
      decreases last - pageNum + 1
    {
      var text := pageText(d.filePath, pageNum);
      if text.None? {
        return Err(ReadFailure);
      }
      var pageResults := SearchInText(d, text.value, query, pageNum, caseSensitive, score);
      if pageResults.Err? {
        return Err(pageResults.failure);
      }
      PrependTwice(results, pageResults.value,
        RangeResults(d, pageText, query, caseSensitive, score, pageNum + 1, last));
      results := results + pageResults.value;
      pageNum := pageNum + 1;
    }
    assert results + [] == results;
    r := Ok(results);
  }

  /** `searchInDocument`: a blank query finds nothing; otherwise the hits of pages `1..pageCount`. */
  method SearchInDocument(d: PdfDocument, query: Option<string>, caseSensitive: bool,
                          pageText: PageText, score: Scorer)
    returns (r: Result<seq<SearchResult>>)
    ensures NoQuery(query) ==> r == Ok([])
    ensures !NoQuery(query) ==>
      r == RangeResults(d, pageText, query.value, caseSensitive, score, 1, d.pageCount)
  {
    if NoQuery(query) {
      return Ok([]);
    }
    QueryNonEmpty(query);
    r := SearchPages(d, query.value, 1, d.pageCount, caseSensitive, pageText, score);
  }

  /**
   * `searchInDocumentRange`: a blank query finds nothing; otherwise the hits of pages
   * `startPage..min(endPage, pageCount)`.
   */
  method SearchInDocumentRange(d: PdfDocument, query: Option<string>, startPage: int, endPage: int,
                               caseSensitive: bool, pageText: PageText, score: Scorer)
    returns (r: Result<seq<SearchResult>>)
    ensures NoQuery(query) ==> r == Ok([])
    ensures !NoQuery(query) ==>
      r == RangeResults(d, pageText, query.value, caseSensitive, score, startPage, Min(endPage, d.pageCount))
  {
    if NoQuery(query) {
      return Ok([]);
    }
    QueryNonEmpty(query);
    r := SearchPages(d, query.value, startPage, Min(endPage, d.pageCount), caseSensitive, pageText, score);
  }

  /** `searchInCurrentPage`: nothing for a blank query or a missing page text, else that page's hits. */
  method SearchInCurrentPage(d: PdfDocument, pageText: Option<string>, query: Option<string>, page: int,
                             caseSensitive: bool, score: Scorer)
    returns (r: Result<seq<SearchResult>>)
    ensures NoQuery(query) || pageText.None? ==> r == Ok([])
    ensures !NoQuery(query) && pageText.Some? ==>
      r == PageResults(d, pageText.value, query.value, page, caseSensitive, score)
  {
    if NoQuery(query) || pageText.None? {
      return Ok([]);
    }
    QueryNonEmpty(query);
    r := SearchInText(d, pageText.value, query.value, page, caseSensitive, score);
  }

  /**
   * The query `"("` on a page reading `"f(x) = 1"`: `split` rejects `"("` as a regular
   * expression, so the page search throws while the page count is 1.
   */
  lemma UnsplittableQueryExample(d: PdfDocument, caseSensitive: bool, score: Scorer)
    requires !score.splits("(")
    ensures PageResults(d, "f(x) = 1", "(", 1, caseSensitive, score) == Err(InvalidPattern)
    ensures MatchCount("f(x) = 1", "(", caseSensitive) == 1
  {
    var text, query := "f(x) = 1", "(";
    assert Lower(query) == query by { assert Lower(query)[0] == LowerChar('('); }
    ExampleTextFolds(caseSensitive);
    ExampleOccurrences();
    PageResultsFails(d, text, query, 1, caseSensitive, score);
  }

  lemma ExampleTextFolds(caseSensitive: bool)
    ensures Fold("f(x) = 1", caseSensitive) == "f(x) = 1"
    ensures Fold("(", caseSensitive) == "("
  {
    var text := "f(x) = 1";
    if !caseSensitive {
      assert forall i | 0 <= i < |text| :: LowerChar(text[i]) == text[i];
      assert Lower(text) == text;
      assert Lower("(")[0] == '(';
    }
  }

  /** `"("` occurs in `"f(x) = 1"` once, at index 1. */
  lemma ExampleOccurrences()
    ensures Occurrences("f(x) = 1", "(", 0) == [1]
  {
    var text, query := "f(x) = 1", "(";
    assert IndexOf(text, query, 0) == 1 by {
      assert !SameFrom(text, query, 0, 0);
      assert SameFrom(text, query, 1, 0);
    }
    assert IndexOf(text, query, 2) == -1 by {
      assert IndexOf(text, query, 8) == -1;
      assert !SameFrom(text, query, 7, 0);
      assert IndexOf(text, query, 7) == -1;
      assert !SameFrom(text, query, 6, 0);
      assert IndexOf(text, query, 6) == -1;
      assert !SameFrom(text, query, 5, 0);
      assert IndexOf(text, query, 5) == -1;
      assert !SameFrom(text, query, 4, 0);
      assert IndexOf(text, query, 4) == -1;
      assert !SameFrom(text, query, 3, 0);
      assert IndexOf(text, query, 3) == -1;
      assert !SameFrom(text, query, 2, 0);
    }
  }

  /** `n` added to a count, unless the count failed. */
  function AddTo(n: nat, r: Result<nat>): Result<nat> {
    match r
    case Err(e) => Err(e)
    case Ok(m) => Ok(n + m)
  }

  lemma AddToTwice(a: nat, b: nat, r: Result<nat>)
    ensures AddTo(a, AddTo(b, r)) == AddTo(a + b, r)
    ensures AddTo(0, r) == r
  {
  }

  /** The match counts of pages `page..last` added up; a page that throws makes the count throw. */
  function RangeCount(d: PdfDocument, pageText: PageText, query: string, caseSensitive: bool,
                      page: int, last: int): Result<nat>
    requires |query| > 0
    decreases last - page + 1
  {
    if page > last then Ok(0)
    else
      match pageText(d.filePath, page)
      case None => Err(ReadFailure)
      case Some(text) =>
        AddTo(MatchCount(text, query, caseSensitive), RangeCount(d, pageText, query, caseSensitive, page + 1, last))
  }

  /**
   * Counting agrees with searching. When `split` accepts the query, the count of a page
   * range is the number of hits the search reports there, and it fails exactly when the
   * search does. When `split` rejects it, the search succeeds only where the count is
   * zero, and then finds nothing; a range with a match makes the search throw while the
   * count succeeds.
   */
  lemma {:induction false} RangeCountAgrees(d: PdfDocument, pageText: PageText, query: string,
                                            caseSensitive: bool, score: Scorer, page: int, last: int)
    requires |query| > 0
    ensures var n := RangeCount(d, pageText, query, caseSensitive, page, last);
      var r := RangeResults(d, pageText, query, caseSensitive, score, page, last);
      !ScoreThrows(score, query) ==> n.Ok? == r.Ok? && (n.Ok? ==> n.value == |r.value|)
    ensures var n := RangeCount(d, pageText, query, caseSensitive, page, last);
      var r := RangeResults(d, pageText, query, caseSensitive, score, page, last);
      ScoreThrows(score, query) ==> (r.Ok? <==> n == Ok(0)) && (r.Ok? ==> r.value == [])
    decreases last - page + 1
  {
    if page <= last && pageText(d.filePath, page).Some? {
      var text := pageText(d.filePath, page).value;
      RangeCountAgrees(d, pageText, query, caseSensitive, score, page + 1, last);
      PageResultsFails(d, text, query, page, caseSensitive, score);
      MatchCountAgrees(d, text, query, page, caseSensitive, score);
    }
  }

  /** Counting one more readable page keeps the running total on track. */
  lemma CountStep(d: PdfDocument, pageText: PageText, query: string, caseSensitive: bool,
                  total: nat, count: nat, page: int, last: int)
    requires |query| > 0 && page <= last && pageText(d.filePath, page).Some?
    requires count == MatchCount(pageText(d.filePath, page).value, query, caseSensitive)
    ensures AddTo(total, RangeCount(d, pageText, query, caseSensitive, page, last))
      == AddTo(total + count, RangeCount(d, pageText, query, caseSensitive, page + 1, last))
  {
    AddToTwice(total, count, RangeCount(d, pageText, query, caseSensitive, page + 1, last));
  }

  /** An unreadable page makes the count of any range that holds it fail. */
  lemma CountFails(d: PdfDocument, pageText: PageText, query: string, caseSensitive: bool,
                   total: nat, page: int, last: int)
    requires |query| > 0 && page <= last && pageText(d.filePath, page).None?
    ensures AddTo(total, RangeCount(d, pageText, query, caseSensitive, page, last)) == Err(ReadFailure)
  {
  }

  /** `countMatchesInDocument`: zero for a blank query; otherwise the matches of pages `1..pageCount`. */
  method CountMatchesInDocument(d: PdfDocument, query: Option<string>, caseSensitive: bool,
                                pageText: PageText)
    returns (r: Result<nat>)
    ensures NoQuery(query) ==> r == Ok(0)
    ensures !NoQuery(query) ==> r == RangeCount(d, pageText, query.value, caseSensitive, 1, d.pageCount)
  {
    if NoQuery(query) {
      return Ok(0);
    }
    QueryNonEmpty(query);
    r := CountPages(d, query.value, caseSensitive, pageText);
  }

  /** The page loop of `countMatchesInDocument`. */
  method CountPages(d: PdfDocument, query: string, caseSensitive: bool, pageText: PageText)
    returns (r: Result<nat>)
    requires |query| > 0
    ensures r == RangeCount(d, pageText, query, caseSensitive, 1, d.pageCount)
  {
    var totalMatches: nat := 0;
    var pageNum := 1;
    ghost var whole := RangeCount(d, pageText, query, caseSensitive, 1, d.pageCount);
    AddToTwice(0, 0, whole);
    while pageNum <= d.pageCount
      invariant AddTo(totalMatches, RangeCount(d, pageText, query, caseSensitive, pageNum, d.pageCount)) == whole
      decreases d.pageCount - pageNum + 1
    {
      var text := pageText(d.filePath, pageNum);
      if text.None? {
        CountFails(d, pageText, query, caseSensitive, totalMatches, pageNum, d.pageCount);
        return Err(ReadFailure);
      }
      var count := CountMatchesInText(text.value, query, caseSensitive);
      CountStep(d, pageText, query, caseSensitive, totalMatches, count, pageNum, d.pageCount);
      totalMatches := totalMatches + count;
      pageNum := pageNum + 1;
    }
    assert RangeCount(d, pageText, query, caseSensitive, pageNum, d.pageCount) == Ok(0);
    r := Ok(totalMatches);
  }
}
