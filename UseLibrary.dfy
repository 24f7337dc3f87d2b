/** The library hook (src/hooks/useLibrary.ts): three state cells updated in
    a fixed order by fetch, add and remove, a membership query and the
    distinct-value statistics. Each network answer is a parameter; each
    operation returns the requests it sent, in order. */
module UseLibrary {
  import opened Types
  import opened ApiService

  /** `libraryBooks.some(book => book.id === id)`. */
  function HasBook(books: seq<Book>, id: string): (found: bool)
    ensures found <==> exists i :: 0 <= i < |books| && books[i].id == id
  {
    if books == [] then false else books[0].id == id || HasBook(books[1..], id)
  }

  /** `new Set(books.map(book => book.genre))`. */
  function GenreSet(books: seq<Book>): set<string> {
    set b | b in books :: b.genre
  }

  /** `new Set(books.map(book => book.author))`. */
  function AuthorSet(books: seq<Book>): set<string> {
    set b | b in books :: b.author
  }

  /** At most one distinct genre per book, and none exactly for no books. */
  lemma {:induction false} GenreSetBound(books: seq<Book>)
    ensures |GenreSet(books)| <= |books|
    ensures |GenreSet(books)| == 0 <==> books == []
  {
    if books != [] {
      var rest := books[1..];
      GenreSetBound(rest);
      assert books == [books[0]] + rest;
      assert GenreSet(books) == {books[0].genre} + GenreSet(rest);
    }
  }

  /** At most one distinct author per book, and none exactly for no books. */
  lemma {:induction false} AuthorSetBound(books: seq<Book>)
    ensures |AuthorSet(books)| <= |books|
    ensures |AuthorSet(books)| == 0 <==> books == []
  {
    if books != [] {
      var rest := books[1..];
      AuthorSetBound(rest);
      assert books == [books[0]] + rest;
      assert AuthorSet(books) == {books[0].author} + AuthorSet(rest);
    }
  }

  /** There are never more distinct genres or authors than books, and there
      are none exactly when there are no books. */
  lemma DistinctValuesBound(books: seq<Book>)
    ensures |GenreSet(books)| <= |books| && |AuthorSet(books)| <= |books|
    ensures |GenreSet(books)| == 0 <==> books == []
    ensures |AuthorSet(books)| == 0 <==> books == []
  {
    GenreSetBound(books);
    AuthorSetBound(books);
  }

  /** What `getLibraryStats` returns and what the library page shows. */
  datatype LibraryStats = LibraryStats(totalBooks: nat, uniqueGenres: nat, uniqueAuthors: nat)

  /** `getLibraryStats`: the number of books and of distinct genres and
      authors among them. */
  function Stats(books: seq<Book>): (s: LibraryStats)
    ensures s.totalBooks == |books|
    ensures s.uniqueGenres == |GenreSet(books)| && s.uniqueAuthors == |AuthorSet(books)|
    ensures s.uniqueGenres <= s.totalBooks && s.uniqueAuthors <= s.totalBooks
    ensures s.uniqueGenres == 0 <==> books == []
    ensures s.uniqueAuthors == 0 <==> books == []
    ensures forall g :: g in GenreSet(books) <==> exists i :: 0 <= i < |books| && books[i].genre == g
  {
    DistinctValuesBound(books);
    LibraryStats(|books|, |GenreSet(books)|, |AuthorSet(books)|)
  }

  /** Three books with genres A, A and B make two distinct genres. */
  lemma TwoOfThreeGenres(x: Book, y: Book, z: Book)
    requires x.genre == "A" && y.genre == "A" && z.genre == "B"
    ensures Stats([x, y, z]).uniqueGenres == 2
  {
    assert GenreSet([x, y, z]) == {"A", "B"};
  }

  class LibraryHook {
    var libraryBooks: seq<Book>
    var loading: bool
    var error: Option<string>

    /** The state before the mount effect's first fetch. */
    constructor ()
      ensures libraryBooks == [] && loading && error == None
    {
      libraryBooks, loading, error := [], true, None;
    }

    /** `isInLibrary`. */
    function IsInLibrary(bookId: string): (found: bool)
      reads this
      ensures found <==> exists i :: 0 <= i < |libraryBooks| && libraryBooks[i].id == bookId
    {
      HasBook(libraryBooks, bookId)
    }

    /** `getLibraryStats`. */
    function GetLibraryStats(): (s: LibraryStats)
      reads this
      ensures s.totalBooks == |libraryBooks|
      ensures s.uniqueGenres == |GenreSet(libraryBooks)| && s.uniqueAuthors == |AuthorSet(libraryBooks)|
      ensures s.uniqueGenres <= s.totalBooks && s.uniqueAuthors <= s.totalBooks
      ensures s.uniqueGenres == 0 <==> libraryBooks == []
    {
      Stats(libraryBooks)
    }

    /** `fetchLibraryBooks` (also `refetch`): loading on and error cleared,
        then the books replaced by the answer or the error recorded with the
        books kept; loading off in every case. */
    method FetchLibraryBooks(r: Response<seq<LibraryEntry>>) returns (sent: seq<Request>)
      modifies this
      ensures sent == [LibraryRequest] && !loading
      ensures r.Ok? ==> libraryBooks == ProjectBooks(r.data) && error == None
      ensures r.Failed? ==> libraryBooks == old(libraryBooks) && error == Some("Failed to fetch library books")
    {
      loading := true;
      error := None;
      sent := [LibraryRequest];
      var outcome := GetLibraryBooks(r);
      if outcome.Success? {
        libraryBooks := outcome.value;
      } else {
        error := Some(CaughtMessage(outcome.error, "An error occurred"));
      }
      loading := false;
    }

    /** `addToLibrary`: the error is cleared and the add is sent. On success
        the whole library is fetched again; on failure the message is
        recorded and the error re-thrown, with no refetch and the books and
        the loading flag untouched. */
    method AddToLibrary(bookId: string, r: Response<()>, refetch: Response<seq<LibraryEntry>>)
      returns (thrown: Option<Thrown>, sent: seq<Request>)
      modifies this
      ensures r.Failed? ==>
        && thrown == Some(ErrorObject(AddFailureMessage(r.error)))
        && error == Some(AddFailureMessage(r.error))
        && sent == [AddRequest(bookId)]
        && libraryBooks == old(libraryBooks) && loading == old(loading)
      ensures r.Ok? ==>
        && thrown == None && sent == [AddRequest(bookId), LibraryRequest] && !loading
        && (refetch.Ok? ==> libraryBooks == ProjectBooks(refetch.data) && error == None)
        && (refetch.Failed? ==> libraryBooks == old(libraryBooks) && error == Some("Failed to fetch library books"))
    {
      error := None;
      var outcome := ApiService.AddToLibrary(r);
      if outcome.Success? {
        var again := FetchLibraryBooks(refetch);
        thrown, sent := None, [AddRequest(bookId)] + again;
      } else {
        error := Some(CaughtMessage(outcome.error, "Failed to add book to library"));
        thrown, sent := Some(outcome.error), [AddRequest(bookId)];
      }
    }

    /** `removeFromLibrary`, symmetric to `AddToLibrary`. */
    method RemoveFromLibrary(bookId: string, r: Response<()>, refetch: Response<seq<LibraryEntry>>)
      returns (thrown: Option<Thrown>, sent: seq<Request>)
      modifies this
      ensures r.Failed? ==>
        && thrown == Some(ErrorObject(RemoveFailureMessage(r.error)))
        && error == Some(RemoveFailureMessage(r.error))
        && sent == [RemoveRequest(bookId)]
        && libraryBooks == old(libraryBooks) && loading == old(loading)
      ensures r.Ok? ==>
        && thrown == None && sent == [RemoveRequest(bookId), LibraryRequest] && !loading
        && (refetch.Ok? ==> libraryBooks == ProjectBooks(refetch.data) && error == None)
        && (refetch.Failed? ==> libraryBooks == old(libraryBooks) && error == Some("Failed to fetch library books"))
    {
      error := None;
      var outcome := ApiService.RemoveFromLibrary(r);
      if outcome.Success? {
        var again := FetchLibraryBooks(refetch);
        thrown, sent := None, [RemoveRequest(bookId)] + again;
      } else {
        error := Some(CaughtMessage(outcome.error, "Failed to remove book from library"));
        thrown, sent := Some(outcome.error), [RemoveRequest(bookId)];
      }
    }
  }

  /** After a fetch that succeeded, a book is in the library exactly when
      one of the served entries embeds a book with its id. */
  lemma MembershipAfterFetch(entries: seq<LibraryEntry>, id: string)
    ensures HasBook(ProjectBooks(entries), id) <==> exists i :: 0 <= i < |entries| && entries[i].book.id == id
  {
    var books := ProjectBooks(entries);
    if HasBook(books, id) {
      var i :| 0 <= i < |books| && books[i].id == id;
      assert entries[i].book.id == id;
    }
  }

  /** The toggle the explore and detail pages perform: remove when the book
      is in the library, add otherwise. What the hook throws is caught and
      only logged, so nothing escapes. */
  method ToggleMembership(library: LibraryHook, book: Book, r: Response<()>, refetch: Response<seq<LibraryEntry>>)
    returns (sent: seq<Request>)
    modifies library
    ensures |sent| == (if r.Ok? then 2 else 1)
    ensures sent[0] == if old(library.IsInLibrary(book.id)) then RemoveRequest(book.id) else AddRequest(book.id)
    ensures r.Failed? ==> library.libraryBooks == old(library.libraryBooks) && library.loading == old(library.loading)
    ensures r.Failed? ==>
      library.error == Some(if old(library.IsInLibrary(book.id)) then RemoveFailureMessage(r.error) else AddFailureMessage(r.error))
    ensures r.Ok? ==> sent[1] == LibraryRequest && !library.loading
    ensures r.Ok? && refetch.Ok? ==> library.libraryBooks == ProjectBooks(refetch.data) && library.error == None
    ensures r.Ok? && refetch.Failed? ==>
      library.libraryBooks == old(library.libraryBooks) && library.error == Some(FetchLibraryFailed)
  {
    var thrown: Option<Thrown>;
    if library.IsInLibrary(book.id) {
      thrown, sent := library.RemoveFromLibrary(book.id, r, refetch);
    } else {
      thrown, sent := library.AddToLibrary(book.id, r, refetch);
    }
  }
}
