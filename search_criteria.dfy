/**
 * The mutable bean that configures a library search, and the value it holds at
 * any moment. Instants are integers; `Integer`/`Long` bounds that may be null are options.
 */
module SearchCriteria {
  import opened Wrappers
  import opened JavaText
  import opened TextMatching

  datatype Criteria = Criteria(
    query: Option<string>,
    searchTitle: bool,
    searchAuthor: bool,
    searchFilename: bool,
    searchContent: bool,
    createdAfter: Option<int>,
    createdBefore: Option<int>,
    minPages: Option<int>,
    maxPages: Option<int>,
    minFileSize: Option<int>,
    maxFileSize: Option<int>,
    caseSensitive: bool,
    maxResults: int)

  const DEFAULT_MAX_RESULTS: int := 100

  /** The settings of a freshly built bean: no query, no bounds, metadata fields searched. */
  const Defaults: Criteria := Criteria(
    None, true, true, true, false, None, None, None, None, None, None, false, DEFAULT_MAX_RESULTS)

  /** `hasQuery`: there is a query and it is not blank after `trim`. */
  function HasQuery(query: Option<string>): (r: bool)
    ensures r <==> query.Some? && exists i :: 0 <= i < |query.value| && query.value[i] > ' '
  {
    if query.Some? then TrimEmptyIff(query.value); !NoQuery(query) else false
  }

  class LibrarySearchCriteria {
    var query: Option<string>
    var searchTitle: bool
    var searchAuthor: bool
    var searchFilename: bool
    var searchContent: bool
    var createdAfter: Option<int>
    var createdBefore: Option<int>
    var minPages: Option<int>
    var maxPages: Option<int>
    var minFileSize: Option<int>
    var maxFileSize: Option<int>
    var caseSensitive: bool
    var maxResults: int

    /** Every field at once, as the getters report them. */
    function Value(): Criteria
      reads this
    {
      Criteria(query, searchTitle, searchAuthor, searchFilename, searchContent, createdAfter,
        createdBefore, minPages, maxPages, minFileSize, maxFileSize, caseSensitive, maxResults)
    }

    /** Title, author and file name searched; content and case sensitivity off; at most 100 results. */
    constructor ()
      ensures Value() == Defaults
    {
      query := None;
      searchTitle := true;
      searchAuthor := true;
      searchFilename := true;
      searchContent := false;
      createdAfter := None;
      createdBefore := None;
      minPages := None;
      maxPages := None;
      minFileSize := None;
      maxFileSize := None;
      caseSensitive := false;
      maxResults := DEFAULT_MAX_RESULTS;
    }

    /** The defaults, plus the given query. */
    constructor WithQuery(q: Option<string>)
      ensures Value() == Defaults.(query := q)
    {
      query := q;
      searchTitle := true;
      searchAuthor := true;
      searchFilename := true;
      searchContent := false;
      createdAfter := None;
      createdBefore := None;
      minPages := None;
      maxPages := None;
      minFileSize := None;
      maxFileSize := None;
      caseSensitive := false;
      maxResults := DEFAULT_MAX_RESULTS;
    }

    function HasQueryNow(): (r: bool)
      reads this
      ensures r == HasQuery(Value().query)
    {
      HasQuery(query)
    }

    method SetQuery(q: Option<string>)
      modifies this`query
      ensures Value() == old(Value()).(query := q)
    {
      query := q;
    }

    method SetSearchTitle(b: bool)
      modifies this`searchTitle
      ensures Value() == old(Value()).(searchTitle := b)
    {
      searchTitle := b;
    }

    method SetSearchAuthor(b: bool)
      modifies this`searchAuthor
      ensures Value() == old(Value()).(searchAuthor := b)
    {
      searchAuthor := b;
    }

    method SetSearchFilename(b: bool)
      modifies this`searchFilename
      ensures Value() == old(Value()).(searchFilename := b)
    {
      searchFilename := b;
    }

    method SetSearchContent(b: bool)
      modifies this`searchContent
      ensures Value() == old(Value()).(searchContent := b)
    {
      searchContent := b;
    }

    method SetCreatedAfter(t: Option<int>)
      modifies this`createdAfter
      ensures Value() == old(Value()).(createdAfter := t)
    {
      createdAfter := t;
    }

    method SetCreatedBefore(t: Option<int>)
      modifies this`createdBefore
      ensures Value() == old(Value()).(createdBefore := t)
    {
      createdBefore := t;
    }

    method SetMinPages(n: Option<int>)
      modifies this`minPages
      ensures Value() == old(Value()).(minPages := n)
    {
      minPages := n;
    }

    method SetMaxPages(n: Option<int>)
      modifies this`maxPages
      ensures Value() == old(Value()).(maxPages := n)
    {
      maxPages := n;
    }

    method SetMinFileSize(n: Option<int>)
      modifies this`minFileSize
      ensures Value() == old(Value()).(minFileSize := n)
    {
      minFileSize := n;
    }

    method SetMaxFileSize(n: Option<int>)
      modifies this`maxFileSize
      ensures Value() == old(Value()).(maxFileSize := n)
    {
      maxFileSize := n;
    }

    method SetCaseSensitive(b: bool)
      modifies this`caseSensitive
      ensures Value() == old(Value()).(caseSensitive := b)
    {
      caseSensitive := b;
    }

    method SetMaxResults(n: int)
      modifies this`maxResults
      ensures Value() == old(Value()).(maxResults := n)
    {
      maxResults := n;
    }
  }
}
