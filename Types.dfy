/** The entities of the catalog client (src/types/Book.ts) and the shapes in
    which the remote service and the awaited calls answer. */
module Types {

  datatype Option<+T> = None | Some(value: T)

  /** The outcome of an awaited call: a value, or the value it threw. */
  datatype Result<+T, +E> = Success(value: T) | Failure(error: E)

  /** A catalog record. `year` is optional; the client never edits a book. */
  datatype Book = Book(
    id: string,
    title: string,
    author: string,
    genre: string,
    synopsis: string,
    year: Option<int>)

  /** One favourite: its own id, the book's id, when it was added and an
      embedded copy of the book. */
  datatype LibraryEntry = LibraryEntry(id: string, bookId: string, addedAt: string, book: Book)

  /** Three independent optional criteria; an absent field constrains nothing. */
  datatype SearchFilters = SearchFilters(search: Option<string>, genre: Option<string>, author: Option<string>)

  /** The filter object `{}`. */
  const NoFilters := SearchFilters(None, None, None)

  /** A JavaScript optional string used as a condition: present and non-empty. */
  predicate Truthy(o: Option<string>) {
    o.Some? && o.value != ""
  }

  /** How a request to the remote service failed. */
  datatype CallError =
    | HttpStatus(status: int)  // the HTTP client's error carries a response with this status
    | NoResponse               // the HTTP client's error has no response (network failure, timeout)
    | NotHttp                  // a value that is not an error of the HTTP client was thrown

  /** The remote service's answer to one request, as the client sees it. */
  datatype Response<+T> = Ok(data: T) | Failed(error: CallError)

  /** A thrown value: an `Error` object with its message, or anything else. */
  datatype Thrown = ErrorObject(message: string) | NonError

  /** What a `catch (err)` block records: `err instanceof Error ? err.message : fallback`. */
  function CaughtMessage(t: Thrown, fallback: string): (message: string)
    ensures t.ErrorObject? ==> message == t.message
    ensures t.NonError? ==> message == fallback
  {
    match t
    case ErrorObject(m) => m
    case NonError => fallback
  }
}
