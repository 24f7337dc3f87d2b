/** The explore page (src/pages/Explore.tsx): the catalog for the current
    filters, the genre list offered to the search bar, the empty-result
    message, the view chosen from the hook states, and the library toggle
    on a card. */
module Explore {
  import opened Types
  import opened JsStrings
  import opened ApiService
  import opened UseLibrary
  import opened UseBooks
  import SearchBar
  import BookCard

  /** `.filter(Boolean)` on strings: the non-empty ones, in order. */
  function NonEmpty(xs: seq<string>): (r: seq<string>)
    ensures forall x :: x in r <==> x in xs && x != ""
    ensures Distinct(xs) ==> Distinct(r)
  {
    if xs == [] then []
    else
      var rest := NonEmpty(xs[1..]);
      assert forall x :: x in xs <==> x == xs[0] || x in xs[1..] by {
        assert xs == [xs[0]] + xs[1..];
      }
      assert Distinct(xs) ==> Distinct(xs[1..]) && xs[0] !in xs[1..] by {
        if Distinct(xs) {
          forall i, j | 0 <= i < j < |xs| - 1 ensures xs[1..][i] != xs[1..][j] {
            assert xs[1..][i] == xs[i + 1] && xs[1..][j] == xs[j + 1];
          }
        }
      }
      if xs[0] == "" then rest else [xs[0]] + rest
  }

  /** `books.map(book => book.genre)`; a helper of `Genres`. */
  function GenreColumn(books: seq<Book>): seq<string> {
    seq(|books|, i requires 0 <= i < |books| => books[i].genre)
  }

  /** The `genres` memo: none for no books; otherwise every non-empty genre
      of some book, once each, in ascending order. */
  function Genres(books: seq<Book>): (genres: seq<string>)
    ensures books == [] ==> genres == []
    ensures StrictlySorted(genres) && Distinct(genres)
    ensures forall g :: g in genres <==> g != "" && exists i :: 0 <= i < |books| && books[i].genre == g
  {
    if |books| == 0 then []
    else
      var column := GenreColumn(books);
      var kept := NonEmpty(Unique(column));
      var sorted := Sort(kept);
      assert forall g :: g in sorted <==> g in kept by {
        forall g ensures g in sorted <==> g in kept {
          assert g in sorted <==> g in multiset(sorted);
          assert g in kept <==> g in multiset(kept);
        }
      }
      assert forall g :: g in column <==> exists i :: 0 <= i < |books| && books[i].genre == g by {
        forall g | g in column ensures exists i :: 0 <= i < |books| && books[i].genre == g {
          var i :| 0 <= i < |column| && column[i] == g;
          assert books[i].genre == g;
        }
        forall g | exists i :: 0 <= i < |books| && books[i].genre == g ensures g in column {
          var i :| 0 <= i < |books| && books[i].genre == g;
          assert column[i] == g;
        }
      }
      StrictlySortedDistinct(sorted);
      sorted
  }

  const AdjustCriteria := "Try adjusting your search criteria"
  const NothingAvailable := "No books are available at the moment"

  /** The text under "No books found". */
  function EmptyMessage(f: SearchFilters): (message: string)
    ensures message == AdjustCriteria || message == NothingAvailable
    ensures message == AdjustCriteria <==> Truthy(f.search) || Truthy(f.genre) || Truthy(f.author)
  {
    if Truthy(f.search) || Truthy(f.genre) || Truthy(f.author) then AdjustCriteria else NothingAvailable
  }

  /** For what the search bar emits, the message suggests adjusting the
      criteria exactly when some field was typed or selected, that is
      unless search and author are blank and no genre is selected. */
  lemma EmptyMessageForSearchBar(search: string, genre: string, author: string)
    ensures EmptyMessage(SearchBar.SendFilters(search, genre, author)) == NothingAvailable
      <==> Blank(search) && genre == "" && Blank(author)
    ensures EmptyMessage(SearchBar.SendFilters(search, genre, author)) == AdjustCriteria
      <==> !(Blank(search) && genre == "" && Blank(author))
    ensures EmptyMessage(NoFilters) == NothingAvailable
  {
    var f := SearchBar.SendFilters(search, genre, author);
    assert Truthy(f.search) <==> !Blank(search);
    assert Truthy(f.genre) <==> genre != "";
    assert Truthy(f.author) <==> !Blank(author);
  }

  /** What the page shows below its heading. */
  datatype ExploreView =
    | ExploreError(message: string)
    | ExploreLoading(genres: seq<string>)
    | ExploreGrid(genres: seq<string>, cards: seq<BookCard.CardView>)
    | ExploreEmpty(genres: seq<string>, message: string)

  /** The page's render: an error replaces everything; otherwise the search
      bar with the genres and a spinner while loading, then the cards with
      their membership, or the empty-result message. */
  function View(books: seq<Book>, loading: bool, error: Option<string>, filters: SearchFilters, library: seq<Book>)
    : (v: ExploreView)
    ensures Truthy(error) ==> v == ExploreError(error.value)
    ensures v.ExploreLoading? <==> !Truthy(error) && loading
    ensures v.ExploreGrid? <==> !Truthy(error) && !loading && books != []
    ensures v.ExploreEmpty? <==> !Truthy(error) && !loading && books == []
    ensures !v.ExploreError? ==> v.genres == Genres(books)
    ensures v.ExploreEmpty? ==> v.message == EmptyMessage(filters)
    ensures v.ExploreGrid? ==> |v.cards| == |books|
    ensures v.ExploreGrid? ==> forall i :: 0 <= i < |books| ==>
      v.cards[i] == BookCard.Card(books[i], HasBook(library, books[i].id))
    ensures v.ExploreGrid? ==> forall i :: 0 <= i < |books| ==>
      (v.cards[i].inLibrary <==> exists k :: 0 <= k < |library| && library[k].id == books[i].id)
  {
    if Truthy(error) then ExploreError(error.value)
    else if loading then ExploreLoading(Genres(books))
    else if |books| > 0 then
      ExploreGrid(Genres(books), seq(|books|, i requires 0 <= i < |books| => BookCard.Card(books[i], HasBook(library, books[i].id))))
    else ExploreEmpty(Genres(books), EmptyMessage(filters))
  }

  class ExplorePage {
    /** The `searchFilters` state cell. */
    var searchFilters: SearchFilters
    /** The page's `useBooks(searchFilters)`. */
    const catalog: BooksHook
    /** The page's own `useLibrary()`. */
    const library: LibraryHook

    /** The catalog hook is always given the current filters. */
    predicate Valid()
      reads this, catalog
    {
      catalog.filters == Some(searchFilters)
    }

    /** The first render: no filters, both hooks loading. */
    constructor ()
      ensures Valid() && searchFilters == NoFilters
      ensures fresh(catalog) && fresh(library)
      ensures catalog.books == [] && catalog.loading && catalog.error == None
      ensures library.libraryBooks == [] && library.loading && library.error == None
    {
      searchFilters := NoFilters;
      catalog := new BooksHook(Some(NoFilters));
      library := new LibraryHook();
    }

    /** `handleSearchChange`: the new filters are stored and, being a new
        object, make the catalog fetch again. */
    method HandleSearchChange(f: SearchFilters, r: Response<seq<Book>>) returns (sent: seq<Request>)
      requires Valid()
      modifies this, catalog
      ensures Valid() && searchFilters == f
      ensures sent == [Get(BooksPath(Some(f)))] && !catalog.loading
      ensures r.Ok? ==> catalog.books == r.data && catalog.error == None
      ensures r.Failed? ==> catalog.books == old(catalog.books) && catalog.error == Some(FetchBooksFailed)
    {
      searchFilters := f;
      sent := catalog.SetFilters(Some(f), r);
    }

    /** `handleToggleLibrary` on a card: remove when the book is in the
        library, add otherwise; a failure is caught and only logged. */
    method HandleToggleLibrary(book: Book, r: Response<()>, refetch: Response<seq<LibraryEntry>>)
      returns (sent: seq<Request>)
      modifies library
      ensures |sent| == (if r.Ok? then 2 else 1)
      ensures sent[0] == if old(library.IsInLibrary(book.id)) then RemoveRequest(book.id) else AddRequest(book.id)
      ensures r.Failed? ==> library.libraryBooks == old(library.libraryBooks) && library.loading == old(library.loading)
      ensures r.Failed? ==>
        library.error == Some(if old(library.IsInLibrary(book.id)) then RemoveFailureMessage(r.error) else AddFailureMessage(r.error))
      ensures r.Ok? ==> sent[1] == LibraryRequest && !library.loading
      ensures r.Ok? && refetch.Ok? ==> library.libraryBooks == ProjectBooks(refetch.data) && library.error == None
      ensures r.Ok? && refetch.Failed? ==>
        library.libraryBooks == old(library.libraryBooks) && library.error == Some(FetchLibraryFailed)
    {
      sent := ToggleMembership(library, book, r, refetch);
    }

    /** The genres offered to the search bar. */
    function AvailableGenres(): (genres: seq<string>)
      reads catalog
      ensures StrictlySorted(genres) && Distinct(genres)
      ensures forall g :: g in genres <==> g != "" && exists i :: 0 <= i < |catalog.books| && catalog.books[i].genre == g
    {
      Genres(catalog.books)
    }

    /** What the page currently shows: `View` of the hooks' state. */
    function CurrentView(): ExploreView
      reads this, catalog, library
    {
      View(catalog.books, catalog.loading, catalog.error, searchFilters, library.libraryBooks)
    }
  }
}
