/** The catalog hooks (src/hooks/useBooks.ts): `useBooks` keeps the list for
    the current filters, `useBook` one book by id. Each network answer is a
    parameter; each operation returns the requests it sent. */
module UseBooks {
  import opened Types
  import opened ApiService

  class BooksHook {
    /** The hook's argument. */
    var filters: Option<SearchFilters>
    var books: seq<Book>
    var loading: bool
    var error: Option<string>

    /** The state before the mount effect's first fetch. */
    constructor (filters: Option<SearchFilters>)
      ensures this.filters == filters
      ensures books == [] && loading && error == None
    {
      this.filters := filters;
      books, loading, error := [], true, None;
    }

    /** `fetchBooks` (also `refetch`): loading on and error cleared, the
        filtered list requested, then the books replaced by the answer or
        the error recorded with the books kept; loading off in every case. */
    method FetchBooks(r: Response<seq<Book>>) returns (sent: seq<Request>)
      modifies this
      ensures sent == [Get(BooksPath(filters))]
      ensures filters == old(filters) && !loading
      ensures r.Ok? ==> books == r.data && error == None
      ensures r.Failed? ==> books == old(books) && error == Some("Failed to fetch books")
    {
      loading := true;
      error := None;
      var request := GetAllBooksRequest(filters);
      sent := [request];
      var outcome := GetAllBooks(r);
      if outcome.Success? {
        books := outcome.value;
      } else {
        error := Some(CaughtMessage(outcome.error, "An error occurred"));
      }
      loading := false;
    }

    /** A new filter object: `fetchBooks` is re-created and its effect runs
        again. The filters are compared by reference, so every new object
        causes a fetch, even one equal to the current filters. */
    method SetFilters(f: Option<SearchFilters>, r: Response<seq<Book>>) returns (sent: seq<Request>)
      modifies this
      ensures filters == f && sent == [Get(BooksPath(f))] && !loading
      ensures r.Ok? ==> books == r.data && error == None
      ensures r.Failed? ==> books == old(books) && error == Some("Failed to fetch books")
    {
      filters := f;
      sent := FetchBooks(r);
    }
  }

  class BookHook {
    var book: Option<Book>
    var loading: bool
    var error: Option<string>

    /** `useBook` starts with no book and not loading. */
    constructor ()
      ensures book == None && !loading && error == None
    {
      book, loading, error := None, false, None;
    }

    /** The effect on `[id]`: with no id (null or the empty string) the book
        is cleared and nothing is requested; otherwise the book is requested
        and, as in `fetchBooks`, replaced or the error recorded. */
    method Load(id: Option<string>, r: Response<Book>) returns (sent: seq<Request>)
      modifies this
      ensures !Truthy(id) ==> book == None && sent == [] && loading == old(loading) && error == old(error)
      ensures Truthy(id) ==> sent == [BookRequest(id.value)] && !loading
      ensures Truthy(id) && r.Ok? ==> book == Some(r.data) && error == None
      ensures Truthy(id) && r.Failed? ==> book == old(book) && error == Some("Failed to fetch book details")
    {
      if !Truthy(id) {
        book := None;
        sent := [];
        return;
      }
      loading := true;
      error := None;
      sent := [BookRequest(id.value)];
      var outcome := GetBookById(r);
      if outcome.Success? {
        book := Some(outcome.value);
      } else {
        error := Some(CaughtMessage(outcome.error, "An error occurred"));
      }
      loading := false;
    }
  }

  /** The hooks' fallback message is for thrown values that are not `Error`
      objects; the service throws only `Error` objects, so what the hooks
      record is always the service's own message. */
  lemma FallbackOnlyForNonErrors(r: Response<seq<Book>>, m: string)
    ensures CaughtMessage(NonError, "An error occurred") == "An error occurred"
    ensures CaughtMessage(ErrorObject(m), "An error occurred") == m
    ensures GetAllBooks(r).Failure? ==>
      CaughtMessage(GetAllBooks(r).error, "An error occurred") == "Failed to fetch books"
  {
  }
}
