/** The HTTP client of the catalog (src/services/apiService.ts): the request
    each operation sends, relative to the base path `/api`, and how the
    service's answer becomes a value or a thrown `Error`. Transport, the
    timeout, the interceptor and the logging are not modelled: the answer is
    a parameter. */
module ApiService {
  import opened Types

  /** A request as the HTTP client sends it; paths are relative to the base path `/api`. */
  datatype Request = Get(path: string) | Post(path: string, bookId: string) | Delete(path: string)

  /** The body of a `/health` answer: its `status` when that is a string. */
  datatype HealthBody = HealthBody(status: Option<string>)

  const FetchBooksFailed := "Failed to fetch books"
  const FetchBookFailed := "Failed to fetch book details"
  const FetchLibraryFailed := "Failed to fetch library books"
  const BookNotFound := "Book not found"
  const AlreadyInLibrary := "Book is already in your library"
  const AddFailed := "Failed to add book to library"
  const NotInLibrary := "Book is not in your library"
  const RemoveFailed := "Failed to remove book from library"

  // ---------------------------------------------------------------- getAllBooks

  /** The query parameters `getAllBooks` appends for `filters`: one for each
      truthy field, in the order search, genre, author. */
  function QueryParams(filters: Option<SearchFilters>): (params: seq<(string, string)>)
    ensures |params| <= 3
    ensures filters.None? ==> params == []
  {
    match filters
    case None => []
    case Some(f) =>
      (if Truthy(f.search) then [("search", f.search.value)] else [])
      + (if Truthy(f.genre) then [("genre", f.genre.value)] else [])
      + (if Truthy(f.author) then [("author", f.author.value)] else [])
  }

  /** `params.toString()`, leaving the values unencoded; a helper of
      `BooksPath`, whose shape `BooksPathShape` states. */
  function QueryString(params: seq<(string, string)>): string {
    if params == [] then ""
    else if |params| == 1 then params[0].0 + "=" + params[0].1
    else params[0].0 + "=" + params[0].1 + "&" + QueryString(params[1..])
  }

  /** The path `getAllBooks` requests: `/books`, followed by `?` and the query
      only when there is a parameter. */
  function BooksPath(filters: Option<SearchFilters>): (path: string)
    ensures |path| >= 6 && path[..6] == "/books"
  {
    var params := QueryParams(filters);
    "/books" + (if params != [] then "?" + QueryString(params) else "")
  }

  /** Position of a parameter name in the fixed order search, genre, author. */
  function KeyRank(key: string): nat {
    if key == "search" then 0 else if key == "genre" then 1 else 2
  }

  /** The filter field a parameter name stands for. */
  function Field(f: SearchFilters, key: string): Option<string> {
    if key == "search" then f.search else if key == "genre" then f.genre else f.author
  }

  /** The filter object a list of parameters describes. */
  function FiltersOfParams(params: seq<(string, string)>): SearchFilters {
    if params == [] then NoFilters
    else
      var f := FiltersOfParams(params[1..]);
      var (k, v) := params[0];
      if k == "search" then f.(search := Some(v))
      else if k == "genre" then f.(genre := Some(v))
      else f.(author := Some(v))
  }

  /** A filter field as the request sees it: kept only when truthy. */
  function Effective(o: Option<string>): Option<string> {
    if Truthy(o) then o else None
  }

  /** Each parameter stands for a truthy field and carries that field's
      value; the names come in the order search, genre, author, each at most
      once; so there are as many parameters as truthy fields. */
  lemma QueryParamsShape(filters: Option<SearchFilters>)
    ensures var params := QueryParams(filters);
      && (forall i :: 0 <= i < |params| ==>
            params[i].0 in ["search", "genre", "author"]
            && filters.Some? && Field(filters.value, params[i].0) == Some(params[i].1)
            && params[i].1 != "")
      && (forall i, j :: 0 <= i < j < |params| ==> KeyRank(params[i].0) < KeyRank(params[j].0))
      && |params| == match filters
                     case None => 0
                     case Some(f) => (if Truthy(f.search) then 1 else 0)
                                     + (if Truthy(f.genre) then 1 else 0)
                                     + (if Truthy(f.author) then 1 else 0)
  {
  }

  /** Reading the parameters back gives the truthy fields of the filter
      object and nothing else. */
  lemma QueryParamsRoundTrip(filters: Option<SearchFilters>)
    ensures FiltersOfParams(QueryParams(filters)) == match filters
      case None => NoFilters
      case Some(f) => SearchFilters(Effective(f.search), Effective(f.genre), Effective(f.author))
  {
    match filters
    case None =>
    case Some(f) =>
      var s := if Truthy(f.search) then [("search", f.search.value)] else [];
      var g := if Truthy(f.genre) then [("genre", f.genre.value)] else [];
      var a := if Truthy(f.author) then [("author", f.author.value)] else [];
      assert QueryParams(filters) == s + g + a;
      assert FiltersOfParams(a) == SearchFilters(None, None, Effective(f.author));
      assert FiltersOfParams(g + a) == SearchFilters(None, Effective(f.genre), Effective(f.author)) by {
        if g != [] { assert (g + a)[1..] == a; }
      }
      assert FiltersOfParams(s + g + a) == SearchFilters(Effective(f.search), Effective(f.genre), Effective(f.author)) by {
        if s != [] { assert (s + g + a)[1..] == g + a; } else { assert s + g + a == g + a; }
      }
  }

  /** With no truthy field the path is exactly `/books`; otherwise it is
      `/books?` followed by the query. */
  lemma BooksPathShape(filters: Option<SearchFilters>)
    ensures BooksPath(filters) == "/books" <==> QueryParams(filters) == []
    ensures QueryParams(filters) == [] <==>
      filters.None? || (!Truthy(filters.value.search) && !Truthy(filters.value.genre) && !Truthy(filters.value.author))
    ensures QueryParams(filters) != [] ==>
      BooksPath(filters) == "/books?" + QueryString(QueryParams(filters))
  {
    var params := QueryParams(filters);
    if params != [] {
      assert BooksPath(filters) == "/books" + ("?" + QueryString(params));
      assert |BooksPath(filters)| > |"/books"|;
    } else {
      assert BooksPath(filters) == "/books" + "";
    }
    match filters
    case None =>
    case Some(f) =>
      var s := if Truthy(f.search) then [("search", f.search.value)] else [];
      var g := if Truthy(f.genre) then [("genre", f.genre.value)] else [];
      var a := if Truthy(f.author) then [("author", f.author.value)] else [];
      assert params == s + g + a;
      assert |params| == |s| + |g| + |a|;
  }

  /** `getAllBooks` builds its query step by step in a `URLSearchParams`
      buffer and requests the resulting path. */
  method GetAllBooksRequest(filters: Option<SearchFilters>) returns (request: Request)
    ensures request == Get(BooksPath(filters))
  {
    var params: seq<(string, string)> := [];
    if filters.Some? && Truthy(filters.value.search) {
      params := params + [("search", filters.value.search.value)];
    }
    if filters.Some? && Truthy(filters.value.genre) {
      params := params + [("genre", filters.value.genre.value)];
    }
    if filters.Some? && Truthy(filters.value.author) {
      params := params + [("author", filters.value.author.value)];
    }
    assert params == QueryParams(filters);
    var query := QueryString(params);
    request := Get("/books" + (if query != "" then "?" + query else ""));
    assert params != [] ==> query != "" by {
      if params != [] { assert |query| >= 1; }
    }
  }

  /** `getAllBooks` once the answer is in: the list exactly as served, or
      the generic error. */
  function GetAllBooks(r: Response<seq<Book>>): (outcome: Result<seq<Book>, Thrown>)
    ensures outcome.Success? <==> r.Ok?
    ensures r.Ok? ==> outcome.value == r.data
    ensures r.Failed? ==> outcome.error == ErrorObject("Failed to fetch books")
  {
    match r
    case Ok(books) => Success(books)
    case Failed(_) => Failure(ErrorObject(FetchBooksFailed))
  }

  // ---------------------------------------------------------------- getBookById

  /** `GET /books/<id>`: the path ends with the id, so the request names
      the book. */
  function BookRequest(id: string): (request: Request)
    ensures request.Get? && |request.path| == 7 + |id|
    ensures request.path[..7] == "/books/" && request.path[7..] == id
  {
    Get("/books/" + id)
  }

  /** `getBookById` once the answer is in. */
  function GetBookById(r: Response<Book>): (outcome: Result<Book, Thrown>)
    ensures outcome.Success? <==> r.Ok?
    ensures r.Ok? ==> outcome.value == r.data
    ensures r.Failed? ==> outcome.error == ErrorObject("Failed to fetch book details")
  {
    match r
    case Ok(book) => Success(book)
    case Failed(_) => Failure(ErrorObject(FetchBookFailed))
  }

  // ---------------------------------------------------------------- library

  const LibraryRequest := Get("/library")

  /** `entries.map(entry => entry.book)`: one book per entry, in order. */
  function ProjectBooks(entries: seq<LibraryEntry>): (books: seq<Book>)
    ensures |books| == |entries|
    ensures forall i :: 0 <= i < |entries| ==> books[i] == entries[i].book
  {
    if entries == [] then [] else [entries[0].book] + ProjectBooks(entries[1..])
  }

  /** `getLibraryBooks` once the answer is in. */
  function GetLibraryBooks(r: Response<seq<LibraryEntry>>): (outcome: Result<seq<Book>, Thrown>)
    ensures outcome.Success? <==> r.Ok?
    ensures r.Ok? ==> |outcome.value| == |r.data|
    ensures r.Ok? ==> forall i :: 0 <= i < |r.data| ==> outcome.value[i] == r.data[i].book
    ensures r.Failed? ==> outcome.error == ErrorObject("Failed to fetch library books")
  {
    match r
    case Ok(entries) => Success(ProjectBooks(entries))
    case Failed(_) => Failure(ErrorObject(FetchLibraryFailed))
  }

  /** The three read operations collapse every failure, 404 included, into
      one message per operation: what went wrong cannot be told from what
      they throw, while the operation that failed can. */
  lemma ReadOperationsOutcome(e1: CallError, e2: CallError)
    ensures GetAllBooks(Failed(e1)) == GetAllBooks(Failed(e2))
    ensures GetBookById(Failed(e1)) == GetBookById(Failed(e2))
    ensures GetLibraryBooks(Failed(e1)) == GetLibraryBooks(Failed(e2))
    ensures GetAllBooks(Failed(e1)).error != GetBookById(Failed(e2)).error
    ensures GetAllBooks(Failed(e1)).error != GetLibraryBooks(Failed(e2)).error
    ensures GetBookById(Failed(e1)).error != GetLibraryBooks(Failed(e2)).error
  {
    assert FetchBooksFailed[16] == 'b' && FetchBookFailed[16] == 'b' && FetchLibraryFailed[16] == 'l';
    assert |FetchBooksFailed| != |FetchBookFailed|;
  }

  /** `POST /library` with the id in the body. */
  function AddRequest(bookId: string): (request: Request)
    ensures request.Post? && request.path == "/library" && request.bookId == bookId
  {
    Post("/library", bookId)
  }

  /** The message `addToLibrary` throws for a failed request: 404 is tested
      first, then 409; everything else, errors without a response and
      errors of other kinds included, gets the generic message. */
  function AddFailureMessage(e: CallError): (message: string)
    ensures message == "Book not found" <==> e == HttpStatus(404)
    ensures message == "Book is already in your library" <==> e == HttpStatus(409)
    ensures message == "Failed to add book to library" <==> e != HttpStatus(404) && e != HttpStatus(409)
  {
    if e.HttpStatus? && e.status == 404 then BookNotFound
    else if e.HttpStatus? && e.status == 409 then AlreadyInLibrary
    else AddFailed
  }

  /** `addToLibrary` once the answer is in. */
  function AddToLibrary(r: Response<()>): (outcome: Result<(), Thrown>)
    ensures outcome.Success? <==> r.Ok?
    ensures r.Failed? ==> outcome.error == ErrorObject(AddFailureMessage(r.error))
  {
    match r
    case Ok(_) => Success(())
    case Failed(e) => Failure(ErrorObject(AddFailureMessage(e)))
  }

  /** An add failure's message tells exactly which case occurred: two
      failures throw the same message exactly when both are 404, both are
      409, or neither is either. */
  lemma AddFailureClassified(e1: CallError, e2: CallError)
    ensures AddToLibrary(Failed(e1)) == AddToLibrary(Failed(e2)) <==>
      (e1 == HttpStatus(404) <==> e2 == HttpStatus(404)) && (e1 == HttpStatus(409) <==> e2 == HttpStatus(409))
  {
  }

  /** `DELETE /library/<bookId>`: the path ends with the id. */
  function RemoveRequest(bookId: string): (request: Request)
    ensures request.Delete? && |request.path| == 9 + |bookId|
    ensures request.path[..9] == "/library/" && request.path[9..] == bookId
  {
    Delete("/library/" + bookId)
  }

  /** The message `removeFromLibrary` throws: 404 has its own message,
      everything else the generic one. */
  function RemoveFailureMessage(e: CallError): (message: string)
    ensures message == "Book is not in your library" <==> e == HttpStatus(404)
    ensures message == "Failed to remove book from library" <==> e != HttpStatus(404)
  {
    if e.HttpStatus? && e.status == 404 then NotInLibrary else RemoveFailed
  }

  /** `removeFromLibrary` once the answer is in. */
  function RemoveFromLibrary(r: Response<()>): (outcome: Result<(), Thrown>)
    ensures outcome.Success? <==> r.Ok?
    ensures r.Failed? ==> outcome.error == ErrorObject(RemoveFailureMessage(r.error))
  {
    match r
    case Ok(_) => Success(())
    case Failed(e) => Failure(ErrorObject(RemoveFailureMessage(e)))
  }

  /** A remove failure's message tells whether the server answered 404,
      and nothing more. */
  lemma RemoveFailureClassified(e1: CallError, e2: CallError)
    ensures RemoveFromLibrary(Failed(e1)) == RemoveFromLibrary(Failed(e2)) <==>
      (e1 == HttpStatus(404) <==> e2 == HttpStatus(404))
  {
  }

  /** Whatever the service operations throw is an `Error` object. */
  lemma ServiceThrowsErrors(
    books: Response<seq<Book>>, book: Response<Book>, library: Response<seq<LibraryEntry>>, change: Response<()>)
    ensures GetAllBooks(books).Failure? ==> GetAllBooks(books).error.ErrorObject?
    ensures GetBookById(book).Failure? ==> GetBookById(book).error.ErrorObject?
    ensures GetLibraryBooks(library).Failure? ==> GetLibraryBooks(library).error.ErrorObject?
    ensures AddToLibrary(change).Failure? ==> AddToLibrary(change).error.ErrorObject?
    ensures RemoveFromLibrary(change).Failure? ==> RemoveFromLibrary(change).error.ErrorObject?
  {
  }

  // ---------------------------------------------------------------- health

  const HealthRequest := Get("/health")

  /** Each request tells its target apart: the per-book requests determine
      the id, and the fixed library and health requests, the addition, the
      per-book read and the removal are five different kinds of request. */
  lemma RequestsIdentifyTheirTarget(a: string, b: string)
    ensures BookRequest(a) == BookRequest(b) ==> a == b
    ensures AddRequest(a) == AddRequest(b) ==> a == b
    ensures RemoveRequest(a) == RemoveRequest(b) ==> a == b
    ensures LibraryRequest == Get("/library") && HealthRequest == Get("/health")
    ensures BookRequest(a) != LibraryRequest && BookRequest(a) != HealthRequest
    ensures AddRequest(a) != LibraryRequest && RemoveRequest(a) != LibraryRequest
    ensures AddRequest(a) != RemoveRequest(b) && AddRequest(a) != BookRequest(b)
    ensures RemoveRequest(a) != BookRequest(b)
  {
    if BookRequest(a) == BookRequest(b) {
      assert a == BookRequest(a).path[7..];
    }
    if RemoveRequest(a) == RemoveRequest(b) {
      assert a == RemoveRequest(a).path[9..];
    }
    assert BookRequest(a).path[1] == 'b' && LibraryRequest.path[1] == 'l' && HealthRequest.path[1] == 'h';
  }

  /** `checkHealth`: true exactly on a successful answer whose status is `'OK'`. */
  function CheckHealth(r: Response<HealthBody>): (healthy: bool)
    ensures r.Ok? ==> (healthy <==> r.data.status == Some("OK"))
    ensures r.Failed? ==> !healthy
  {
    r.Ok? && r.data.status == Some("OK")
  }
}
