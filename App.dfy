/** The root controller (src/App.tsx): the active page and the selected
    book, changed by viewing a book and by navigating, and the page
    dispatch. The transitions are stated once as functions on `Nav`; the
    controller's methods follow them. */
module App {
  import opened Types

  datatype Page = Explore | Library | BookDetail

  /** The root state: `activePage` and `selectedBook`. */
  datatype Nav = Nav(page: Page, selected: Option<Book>)

  /** The user's intents that reach the root. */
  datatype NavEvent = ViewBook(book: Book) | Navigate(target: Page)

  const Initial := Nav(Explore, None)

  /** Off the detail page no book is selected. */
  predicate NoStraySelection(s: Nav) {
    s.page != BookDetail ==> s.selected == None
  }

  /** `handleViewBook` and `handleNavigate`. */
  function Step(s: Nav, e: NavEvent): (t: Nav)
    ensures NoStraySelection(t)
  {
    match e
    case ViewBook(b) => Nav(BookDetail, Some(b))
    case Navigate(p) => if p != BookDetail then Nav(p, None) else Nav(p, s.selected)
  }

  /** The state after a sequence of events, oldest first. */
  function Run(s: Nav, events: seq<NavEvent>): Nav {
    if events == [] then s else Step(Run(s, events[..|events| - 1]), events[|events| - 1])
  }

  /** The book left selected by a sequence of events: the one of the last
      `ViewBook`, unless a navigation to Explore or Library came after it. */
  function LastViewed(events: seq<NavEvent>): Option<Book> {
    if events == [] then None
    else
      match events[|events| - 1]
      case ViewBook(b) => Some(b)
      case Navigate(p) => if p == BookDetail then LastViewed(events[..|events| - 1]) else None
  }

  /** The page after a sequence of events: the target of the last event. */
  function LastPage(events: seq<NavEvent>): Page {
    if events == [] then Explore
    else
      match events[|events| - 1]
      case ViewBook(_) => BookDetail
      case Navigate(p) => p
  }

  /** From the initial state, every reachable state is the last page
      targeted with the last book viewed since the last leaving of the
      detail page, and has no stray selection. */
  lemma {:induction false} RunFromInitial(events: seq<NavEvent>)
    ensures Run(Initial, events) == Nav(LastPage(events), LastViewed(events))
    ensures NoStraySelection(Run(Initial, events))
  {
    if events != [] {
      RunFromInitial(events[..|events| - 1]);
    }
  }

  /** The detail page's back action leads to Explore with nothing selected,
      from any state. */
  lemma BackLeadsToExplore(s: Nav)
    ensures Step(s, Navigate(Explore)) == Initial
  {
  }

  /** What `renderCurrentPage` shows. */
  datatype Screen = ExploreScreen | LibraryScreen | BookDetailScreen(book: Option<Book>)

  /** `renderCurrentPage`: Library for `library`, the detail page with the
      selected book (possibly none) for `book-detail`, and Explore otherwise. */
  function Render(s: Nav): (v: Screen)
    ensures v.LibraryScreen? <==> s.page == Library
    ensures v.BookDetailScreen? <==> s.page == BookDetail
    ensures v.BookDetailScreen? ==> v.book == s.selected
    ensures v.ExploreScreen? <==> s.page != Library && s.page != BookDetail
  {
    match s.page
    case Library => LibraryScreen
    case BookDetail => BookDetailScreen(s.selected)
    case _ => ExploreScreen
  }

  /** `handleNavigate` accepts `book-detail` as a target, and navigating
      there directly from the start shows the not-found fallback. */
  lemma DirectDetailShowsFallback()
    ensures Render(Run(Initial, [Navigate(BookDetail)])) == BookDetailScreen(None)
  {
    assert [Navigate(BookDetail)][..0] == [];
  }

  /** The events the rendered pages can raise: viewing a book, and the
      navigation bar's and the back button's targets, Explore and Library. */
  predicate FromUi(e: NavEvent) {
    e.ViewBook? || e.target != BookDetail
  }

  /** With only those events, the detail page always has a book: its
      fallback is reached only by a direct navigation to it. The last event
      decides: a view selects a book, and the other events leave the page. */
  lemma UiNeverShowsFallback(events: seq<NavEvent>)
    requires forall i :: 0 <= i < |events| ==> FromUi(events[i])
    ensures Run(Initial, events).page == BookDetail ==> Run(Initial, events).selected.Some?
    ensures Render(Run(Initial, events)) != BookDetailScreen(None)
  {
  }

  class AppController {
    var activePage: Page
    var selectedBook: Option<Book>

    function State(): Nav
      reads this
    {
      Nav(activePage, selectedBook)
    }

    predicate Valid()
      reads this
    {
      NoStraySelection(State())
    }

    constructor ()
      ensures State() == Initial && Valid()
    {
      activePage, selectedBook := Explore, None;
    }

    /** `handleViewBook`. */
    method HandleViewBook(b: Book)
      modifies this
      ensures State() == Step(old(State()), ViewBook(b)) && Valid()
      ensures activePage == BookDetail && selectedBook == Some(b)
    {
      selectedBook := Some(b);
      activePage := BookDetail;
    }

    /** `handleNavigate`: the page is set, and the selection cleared unless
        the target is the detail page. */
    method HandleNavigate(p: Page)
      modifies this
      ensures State() == Step(old(State()), Navigate(p)) && Valid()
      ensures activePage == p
      ensures selectedBook == if p == BookDetail then old(selectedBook) else None
    {
      activePage := p;
      if p != BookDetail {
        selectedBook := None;
      }
    }

    /** The detail page's `onBack`. */
    method Back()
      modifies this
      ensures State() == Initial && Valid()
    {
      HandleNavigate(Explore);
    }

    /** What the root renders: `Render` of the controller's state. */
    function CurrentScreen(): Screen
      reads this
    {
      Render(State())
    }
  }
}
