/** The library page (src/pages/Library.tsx): the view chosen from the
    library hook's state, the pluralised count line, the statistics, and
    the remove-only toggle on its cards. */
module LibraryPage {
  import opened Types
  import opened JsStrings
  import opened ApiService
  import opened UseLibrary
  import BookCard

  /** The line under the heading: the count, then "book" or "books". */
  function CountLine(n: nat): (line: string)
    ensures |line| >= |NatToString(n)| + 16 && line[..|NatToString(n)|] == NatToString(n)
  {
    NatToString(n) + " book" + (if n != 1 then "s" else "") + " in your library"
  }

  /** The line says "book" for exactly one book and "books" otherwise, and
      it starts with the count written in decimal. */
  lemma CountLineWording(n: nat)
    ensures CountLine(n) == NatToString(n) + " book in your library" <==> n == 1
    ensures CountLine(n) == NatToString(n) + " books in your library" <==> n != 1
    ensures DigitsValue(CountLine(n)[..|NatToString(n)|]) == n
  {
    var digits := NatToString(n);
    assert CountLine(n)[..|digits|] == digits;
    NatToStringValue(n);
    if n != 1 {
      assert |CountLine(n)| == |digits| + 22;
    } else {
      assert |CountLine(n)| == |digits| + 21;
    }
  }

  /** What the page shows below its heading. */
  datatype LibraryView =
    | LibraryError(message: string)
    | LibraryLoading
    | LibraryEmpty
    | LibraryGrid(countLine: string, cards: seq<BookCard.CardView>, stats: LibraryStats)

  /** The page's render: an error replaces everything; then a spinner while
      loading; then the empty state or the count, the cards (all in the
      library) and the statistics. */
  function View(books: seq<Book>, loading: bool, error: Option<string>): (v: LibraryView)
    ensures Truthy(error) ==> v == LibraryError(error.value)
    ensures v.LibraryLoading? <==> !Truthy(error) && loading
    ensures v.LibraryEmpty? <==> !Truthy(error) && !loading && books == []
    ensures v.LibraryGrid? <==> !Truthy(error) && !loading && books != []
    ensures v.LibraryGrid? ==> v.countLine == CountLine(|books|) && v.stats == Stats(books)
    ensures v.LibraryGrid? ==> |v.cards| == |books|
    ensures v.LibraryGrid? ==> forall i :: 0 <= i < |books| ==> v.cards[i] == BookCard.Card(books[i], true)
  {
    if Truthy(error) then LibraryError(error.value)
    else if loading then LibraryLoading
    else if |books| == 0 then LibraryEmpty
    else LibraryGrid(CountLine(|books|), seq(|books|, i requires 0 <= i < |books| => BookCard.Card(books[i], true)), Stats(books))
  }

  /** In the list view every card offers removal, the count names the
      number of books, and the genre and author figures are the numbers of
      distinct values, none above the count. */
  lemma GridFacts(books: seq<Book>, loading: bool, error: Option<string>)
    requires View(books, loading, error).LibraryGrid?
    ensures var v := View(books, loading, error);
      && (forall i :: 0 <= i < |v.cards| ==> v.cards[i].inLibrary && v.cards[i].toggleTitle == "Remove from library")
      && v.stats.totalBooks == |books|
      && v.stats.uniqueGenres == |GenreSet(books)| && v.stats.uniqueAuthors == |AuthorSet(books)|
      && 1 <= v.stats.uniqueGenres <= |books| && 1 <= v.stats.uniqueAuthors <= |books|
      && (v.countLine == NatToString(|books|) + " book in your library" <==> |books| == 1)
  {
    var v := View(books, loading, error);
    forall i | 0 <= i < |v.cards| ensures v.cards[i].inLibrary && v.cards[i].toggleTitle == "Remove from library" {
      BookCard.CardFacts(books[i], true);
    }
    CountLineWording(|books|);
  }

  /** `handleRemoveFromLibrary`: the card's toggle only removes; a failure
      is caught and only logged. */
  method HandleRemoveFromLibrary(library: LibraryHook, book: Book, r: Response<()>, refetch: Response<seq<LibraryEntry>>)
    returns (sent: seq<Request>)
    modifies library
    ensures sent == if r.Ok? then [RemoveRequest(book.id), LibraryRequest] else [RemoveRequest(book.id)]
    ensures r.Failed? ==> library.libraryBooks == old(library.libraryBooks) && library.loading == old(library.loading)
    ensures r.Failed? ==> library.error == Some(RemoveFailureMessage(r.error))
    ensures r.Ok? ==> !library.loading
    ensures r.Ok? && refetch.Ok? ==> library.libraryBooks == ProjectBooks(refetch.data) && library.error == None
    ensures r.Ok? && refetch.Failed? ==>
      library.libraryBooks == old(library.libraryBooks) && library.error == Some(FetchLibraryFailed)
  {
    var thrown;
    thrown, sent := library.RemoveFromLibrary(book.id, r, refetch);
  }

  /** A failed removal from a loaded, non-empty library replaces the whole
      page with the error view: the grid, its cards and their toggles are
      gone until a retry, although the books are still loaded. */
  method RemoveFailureHidesGrid(entries: seq<LibraryEntry>, book: Book, e: CallError, refetch: Response<seq<LibraryEntry>>)
    returns (before: LibraryView, after: LibraryView, books: seq<Book>)
    requires entries != []
    ensures before.LibraryGrid? && |before.cards| == |entries|
    ensures after == LibraryError(RemoveFailureMessage(e))
    ensures books == ProjectBooks(entries)
  {
    var library := new LibraryHook();
    var fetched := library.FetchLibraryBooks(Ok(entries));
    before := View(library.libraryBooks, library.loading, library.error);
    var sent := HandleRemoveFromLibrary(library, book, Failed(e), refetch);
    after := View(library.libraryBooks, library.loading, library.error);
    books := library.libraryBooks;
  }
}
