/** The detail page (src/pages/BookDetail.tsx): the not-found fallback, the
    toggle guarded by `isToggling`, the button label and the word counts. */
module BookDetail {
  import opened Types
  import opened JsStrings
  import opened ApiService
  import opened UseLibrary
  import BookCard

  /** `s.split(' ').length`: one more than the spaces, so at least one even
      for the empty string. */
  function WordCount(s: string): (n: nat)
    ensures n == Count(s, ' ') + 1
    ensures n >= 1
  {
    |Split(s, ' ')|
  }

  /** Words without spaces joined by single spaces are counted one each. */
  lemma WordCountOfWords(words: seq<string>)
    requires words != []
    requires forall i :: 0 <= i < |words| ==> ' ' !in words[i]
    ensures WordCount(Join(words, ' ')) == |words|
  {
    CountJoin(words, ' ');
  }

  /** The toggle button's text. */
  function ButtonLabel(inLibrary: bool): (text: string)
    ensures text == "Remove from Library" <==> inLibrary
    ensures text == "Add to Library" <==> !inLibrary
  {
    if inLibrary then "Remove from Library" else "Add to Library"
  }

  /** The toggle button's content: a spinner while toggling, else the label. */
  datatype ButtonContent = Spinner | Label(text: string)

  datatype DetailView =
    | NotFound
    | Details(
        title: string,
        author: string,
        genre: string,
        year: BookCard.YearSlot,
        synopsis: string,
        button: ButtonContent,
        disabled: bool,
        authorNames: nat,
        synopsisWords: nat,
        inLibraryBanner: bool)

  /** The page's render. With no book only the fallback with its way back
      is shown; otherwise the book, the toggle button (disabled with a
      spinner while toggling), the counts and the in-library banner. */
  function View(book: Option<Book>, inLibrary: bool, isToggling: bool): (v: DetailView)
    ensures v.NotFound? <==> book.None?
    ensures v.Details? ==> v.title == book.value.title && v.synopsis == book.value.synopsis
    ensures v.Details? ==> v.author == book.value.author && v.genre == book.value.genre
    ensures v.Details? ==> v.disabled == isToggling && (v.button.Spinner? <==> isToggling)
    ensures v.Details? && !isToggling ==>
      (v.button == Label("Remove from Library") <==> inLibrary) &&
      (v.button == Label("Add to Library") <==> !inLibrary)
    ensures v.Details? ==>
      v.authorNames == Count(book.value.author, ' ') + 1 && v.authorNames >= 1 &&
      v.synopsisWords == Count(book.value.synopsis, ' ') + 1 && v.synopsisWords >= 1
    ensures v.Details? ==> v.year == BookCard.ShowYear(book.value.year)
    ensures v.Details? ==> (v.year.YearRow? <==> book.value.year.Some? && book.value.year.value != 0)
    ensures v.Details? ==> v.inLibraryBanner == inLibrary
  {
    match book
    case None => NotFound
    case Some(b) =>
      Details(
        b.title, b.author, b.genre,
        BookCard.ShowYear(b.year),
        b.synopsis,
        if isToggling then Spinner else Label(ButtonLabel(inLibrary)),
        isToggling,
        WordCount(b.author),
        WordCount(b.synopsis),
        inLibrary)
  }

  class BookDetailPage {
    /** The `book` prop. */
    const book: Option<Book>
    /** The `isToggling` state cell. */
    var isToggling: bool
    /** The page's own `useLibrary()`. */
    const library: LibraryHook

    constructor (book: Option<Book>)
      ensures this.book == book && !isToggling
      ensures fresh(library) && library.libraryBooks == [] && library.loading && library.error == None
    {
      this.book := book;
      isToggling := false;
      library := new LibraryHook();
    }

    /** The synchronous start of `handleToggleLibrary`: a click while a
        toggle is under way does nothing; otherwise the flag is raised. */
    method BeginToggle() returns (started: bool)
      modifies this
      ensures started <==> !old(isToggling)
      ensures isToggling
    {
      if isToggling {
        return false;
      }
      isToggling := true;
      return true;
    }

    /** The rest of `handleToggleLibrary`: remove when the book is in the
        library, add otherwise; a failure is caught and only logged, and the
        flag is lowered in every case. */
    method CompleteToggle(r: Response<()>, refetch: Response<seq<LibraryEntry>>) returns (sent: seq<Request>)
      requires book.Some? && isToggling
      modifies this, library
      ensures !isToggling
      ensures |sent| == (if r.Ok? then 2 else 1)
      ensures sent[0] == if old(library.IsInLibrary(book.value.id)) then RemoveRequest(book.value.id) else AddRequest(book.value.id)
      ensures r.Failed? ==> library.libraryBooks == old(library.libraryBooks) && library.loading == old(library.loading)
      ensures r.Failed? ==>
        library.error == Some(if old(library.IsInLibrary(book.value.id)) then RemoveFailureMessage(r.error) else AddFailureMessage(r.error))
      ensures r.Ok? ==> sent[1] == LibraryRequest && !library.loading
      ensures r.Ok? && refetch.Ok? ==> library.libraryBooks == ProjectBooks(refetch.data) && library.error == None
      ensures r.Ok? && refetch.Failed? ==>
        library.libraryBooks == old(library.libraryBooks) && library.error == Some(FetchLibraryFailed)
    {
      sent := ToggleMembership(library, book.value, r, refetch);
      isToggling := false;
    }

    /** One click on the toggle button, run to completion. The handler
        exists only when there is a book. */
    method HandleToggleLibrary(r: Response<()>, refetch: Response<seq<LibraryEntry>>) returns (sent: seq<Request>)
      requires book.Some?
      modifies this, library
      ensures old(isToggling) ==> sent == [] && isToggling && library.libraryBooks == old(library.libraryBooks)
      ensures old(isToggling) ==> library.error == old(library.error) && library.loading == old(library.loading)
      ensures !old(isToggling) ==> !isToggling && |sent| == (if r.Ok? then 2 else 1)
      ensures !old(isToggling) ==>
        sent[0] == if old(library.IsInLibrary(book.value.id)) then RemoveRequest(book.value.id) else AddRequest(book.value.id)
      ensures !old(isToggling) && r.Failed? ==>
        library.libraryBooks == old(library.libraryBooks) && library.loading == old(library.loading)
      ensures !old(isToggling) && r.Failed? ==>
        library.error == Some(if old(library.IsInLibrary(book.value.id)) then RemoveFailureMessage(r.error) else AddFailureMessage(r.error))
      ensures !old(isToggling) && r.Ok? ==> sent[1] == LibraryRequest && !library.loading
      ensures !old(isToggling) && r.Ok? && refetch.Ok? ==>
        library.libraryBooks == ProjectBooks(refetch.data) && library.error == None
      ensures !old(isToggling) && r.Ok? && refetch.Failed? ==>
        library.libraryBooks == old(library.libraryBooks) && library.error == Some(FetchLibraryFailed)
    {
      var started := BeginToggle();
      if started {
        sent := CompleteToggle(r, refetch);
      } else {
        sent := [];
      }
    }

    /** A second click while the first toggle awaits the service sends
        nothing (`second`): only the first click's requests go out, and the
        flag is down afterwards. */
    method ClickDuringToggle(r: Response<()>, refetch: Response<seq<LibraryEntry>>)
      returns (sent: seq<Request>, second: seq<Request>)
      requires book.Some? && !isToggling
      modifies this, library
      ensures second == []
      ensures !isToggling && |sent| == (if r.Ok? then 2 else 1)
      ensures sent[0] == if old(library.IsInLibrary(book.value.id)) then RemoveRequest(book.value.id) else AddRequest(book.value.id)
    {
      var started := BeginToggle();
      second := HandleToggleLibrary(r, refetch);
      sent := CompleteToggle(r, refetch);
    }

    /** What the page currently shows: `View` of the page's state. */
    function CurrentView(): DetailView
      reads this, library
    {
      View(book, book.Some? && library.IsInLibrary(book.value.id), isToggling)
    }
  }
}
