# Books client: a Dafny model

This project models the logic of a small React client. The client browses a
book catalog and keeps a library of favourite books on a remote service.
Rendering, time and the network are abstracted away. What remains is a set
of deterministic rules, stated in Dafny and proved:

- **Search bar.** Three raw inputs (search text, genre, author) become a
  filter object. The component decides whether to debounce or to emit at
  once, counts the active filters, and clears them. Its state cells are a
  class. The armed debounce timer is a state cell, and its expiry is an
  explicit event.
- **API service.** The request path is built from the filters. Library
  entries are projected to their books. Each failure becomes the message
  of the `Error` the service throws. The health check is a comparison.
  Every answer of the remote service is a parameter of type
  `Response<T>`: data, or a failure with an HTTP status, no response, or an
  error of another kind.
- **Hooks.** `useBooks`, `useBook` and `useLibrary` are classes whose
  methods update the `books`/`book`, `loading` and `error` cells in the
  source's order. Each method returns the requests it sent.
- **Root.** The pair (active page, selected book) changes by viewing a book
  and by navigating, and the page dispatch, as a transition function. The
  controller class follows that function.
- **Pages.** The card's truncated texts and its toggle title. The explore
  page's genre list, its empty-result message and its view. The library
  page's pluralised count line, statistics and view. The detail page's
  toggle guarded by `isToggling`, its button label and its word counts.

JavaScript built-ins the rules rely on are modelled in `JsStrings`:

- `trim`, over the ECMAScript whitespace and line-terminator set;
- `split` on one character;
- the decimal rendering of a count;
- `[...new Set(xs)]`;
- the default string order of `sort`.

Behaviours of the code that the model makes explicit:

- **Stale genre after a genre change.** The debounce timer closes over the
  genre of the moment it was armed. Choosing a genre sends at once but does
  not re-arm a pending timer. The timer's later emission can therefore
  carry the old genre while the selector shows the new one
  (`SearchBar.GenreDuringPendingSearch`).
- **A whitespace-only genre is kept.** The genre is not trimmed, so such a
  genre survives. All-blank inputs give `{}` only when the genre is the
  empty string (`SearchBar.SendFiltersEmpty`).
- **A whitespace-only search still debounces.** The debounce decision looks
  at the raw text, so a whitespace-only search is debounced and then sends
  no `search` field (`SearchBar.DebounceCoversTextFields`).
- **Every emitted filter object refetches.** The catalog hook refetches on
  every filter object the search bar emits in a separate render, even one
  equal to the current filters. The dependency is compared by reference,
  and every emission is a new object (`UseBooks.BooksHook.SetFilters`).
- **The hooks' fallback message is dead for service errors.** The service
  only throws `Error` objects, so the hooks' fallback message "An error
  occurred" is never used for what the service throws
  (`UseBooks.FallbackOnlyForNonErrors`).
- **The UI never shows the detail fallback.** The navigation bar and the
  back button only target Explore and Library. So the detail page's
  not-found fallback is reachable only by a direct navigation to
  `book-detail`, which the handler's type allows but no caller performs
  (`App.UiNeverShowsFallback`, `App.DirectDetailShowsFallback`).
- **A failed removal hides the library grid.** The hook records the
  removal's message as its error, and the library page shows any error in
  place of everything else. So after a failed removal the cards and their
  toggles disappear until a retry, although the books are still loaded
  (`LibraryPage.RemoveFailureHidesGrid`).

## Model

| member | source | states |
|---|---|---|
| SearchBar.TextFilter | src/components/SearchBar.tsx:24-26 | a present text filter is the trimmed input, non-empty and not whitespace-only; it is absent exactly when the input is blank |
| SearchBar.SendFilters | src/components/SearchBar.tsx:22-28 | search and author are present exactly when not blank and then equal their trimmed input; genre is present exactly when non-empty, untrimmed |
| SearchBar.SendFiltersEmpty | src/components/SearchBar.tsx:22-27 | the object is `{}` exactly when search and author are blank and genre is empty; all three whitespace-only still sends the untrimmed genre |
| SearchBar.DebounceCoversTextFields | src/components/SearchBar.tsx:32-40 | whenever a text field would be sent the emission is debounced; a whitespace-only search is debounced yet sends no search field |
| SearchBar.ShouldDebounce | src/components/SearchBar.tsx:32 | an emission that is not debounced has both raw text fields blank, so it sends no text field; the converse fails for a whitespace-only search, and `DebounceCoversTextFields` gives the counterexample |
| SearchBar.NonEmptyCount | src/components/SearchBar.tsx:60 | `.filter(Boolean).length` on strings is the number of positions holding a non-empty string, at most the length, and 0 exactly when all are empty |
| SearchBar.ActiveFiltersCount | src/components/SearchBar.tsx:60 | the count is one for each of the three raw fields that is non-empty, so it lies in 0..3, is 0 exactly when all three are empty and 3 exactly when all are non-empty |
| SearchBar.HasActiveFilters | src/components/SearchBar.tsx:59 | with no active filter the search bar emits the empty filter object; `ActiveFiltersAgree` ties it to the count |
| SearchBar.ActiveFiltersAgree | src/components/SearchBar.tsx:59-60 | `hasActiveFilters` holds exactly when the count is positive |
| SearchBar.SearchBarState.constructor | src/components/SearchBar.tsx:16-49 | mount leaves all fields empty, the panel hidden, no timer, and `{}` sent once by each effect |
| SearchBar.SearchBarState.RunTextEffect | src/components/SearchBar.tsx:30-45 | the old timer is cancelled; a timer holding the current values is armed when a raw text field is non-empty, otherwise the filters are sent at once |
| SearchBar.SearchBarState.SetSearchTerm | src/components/SearchBar.tsx:30-45 | a changed search term re-runs the text effect (re-armed timer or immediate emission); an unchanged one changes nothing else; the timer invariant is kept |
| SearchBar.SearchBarState.SetAuthorFilter | src/components/SearchBar.tsx:30-45 | the same for the author field |
| SearchBar.SearchBarState.RunGenreEffect | src/components/SearchBar.tsx:47-49 | the genre effect sends the current three fields at once and changes nothing else |
| SearchBar.SearchBarState.SetSelectedGenre | src/components/SearchBar.tsx:47-49 | a changed genre is sent at once with the current text fields; the armed timer is left as it is |
| SearchBar.SearchBarState.FireTimer | src/components/SearchBar.tsx:35-37 | an expiring timer sends the values it closed over and disarms; with no timer nothing happens |
| SearchBar.SearchBarState.ToggleFilters | src/components/SearchBar.tsx:80 | the panel flag flips and nothing else changes |
| SearchBar.SearchBarState.ResetFields | src/components/SearchBar.tsx:51-57 | the body of `clearFilters`: the three fields emptied, the panel closed, `{}` sent, the timer untouched |
| SearchBar.SearchBarState.ClearFilters | src/components/SearchBar.tsx:51-57 | all three fields become empty, the panel closes, no timer is left, `{}` is sent at once and once more by each effect whose inputs changed (`ClearEmissions`, every element `{}`) |
| SearchBar.TypingBurst | src/components/SearchBar.tsx:30-45 | any non-empty burst of non-empty search keystrokes inside the debounce window produces exactly one emission, carrying the last value |
| SearchBar.GenreDuringPendingSearch | src/components/SearchBar.tsx:30-49 | a genre chosen while a search is pending is sent at once, and the pending timer then sends a filter object without that genre while the selector shows it |
| JsStrings.TrimStart | src/components/SearchBar.tsx:24 | the result is a suffix of the input that does not start with whitespace, and only whitespace was dropped |
| JsStrings.TrimEnd | src/components/SearchBar.tsx:24 | the result is a prefix of the input that does not end with whitespace, and only whitespace was dropped |
| JsStrings.Trim | src/components/SearchBar.tsx:24-26 | `s.trim()`; what it keeps and drops is stated by `TrimIsInnerPiece`, `TrimEmptyIffBlank`, `TrimUntouched` and `TrimIdempotent` |
| JsStrings.TrimIsInnerPiece | src/components/SearchBar.tsx:24 | `trim` returns a contiguous piece of the input, surrounded only by whitespace, with no whitespace at either end |
| JsStrings.TrimEmptyIffBlank | src/components/SearchBar.tsx:24 | `trim` gives the empty string exactly for a blank input, and otherwise a non-blank string |
| JsStrings.TrimUntouched | src/components/SearchBar.tsx:24 | a string with no edge whitespace trims to itself |
| JsStrings.TrimIdempotent | src/components/SearchBar.tsx:24 | trimming twice is trimming once |
| JsStrings.Split | src/pages/BookDetail.tsx:133 | splitting on a character gives one piece more than its occurrences, none containing it |
| JsStrings.JoinSplit | src/pages/BookDetail.tsx:133 | joining the pieces with the separator gives the string back |
| JsStrings.CountConcat | src/pages/BookDetail.tsx:133 | occurrences add up over a concatenation |
| JsStrings.CountAbsent | src/pages/BookDetail.tsx:133 | an absent character occurs zero times |
| JsStrings.CountJoin | src/pages/BookDetail.tsx:133 | joining separator-free pieces puts exactly one separator between each two |
| JsStrings.NatToString | src/pages/Library.tsx:49 | a rendered count is non-empty, made of decimal digits, without a leading zero |
| JsStrings.NatToStringValue | src/pages/Library.tsx:49 | reading the rendered digits back gives the count |
| JsStrings.Unique | src/pages/Explore.tsx:22 | `[...new Set(xs)]` has the same members as `xs` and no duplicates |
| JsStrings.StrLtIrreflexive | src/pages/Explore.tsx:23 | the default string order is irreflexive |
| JsStrings.StrLtTransitive | src/pages/Explore.tsx:23 | the default string order is transitive |
| JsStrings.StrLtTotal | src/pages/Explore.tsx:23 | any two different strings are ordered one way or the other |
| JsStrings.StrictlySortedDistinct | src/pages/Explore.tsx:23 | a strictly ascending list has no duplicates |
| JsStrings.Insert | src/pages/Explore.tsx:23 | insertion adds exactly one occurrence of the element |
| JsStrings.InsertStaysAbove | src/pages/Explore.tsx:23 | inserting an element above a bound into a list above that bound keeps every element above it |
| JsStrings.InsertSorted | src/pages/Explore.tsx:23 | inserting a new element into a strictly ascending list keeps it strictly ascending |
| JsStrings.Sort | src/pages/Explore.tsx:23 | sorting is a permutation, and a duplicate-free list comes out strictly ascending |
| ApiService.QueryParamsShape | src/services/apiService.ts:25-35 | one parameter per truthy filter field, carrying that field's value, named search, genre, author in that order, each at most once |
| ApiService.QueryParamsRoundTrip | src/services/apiService.ts:25-35 | reading the parameters back gives exactly the truthy fields of the filters |
| ApiService.BooksPathShape | src/services/apiService.ts:37-39 | the path is exactly `/books` when no field is truthy, and `/books?` followed by the query otherwise |
| ApiService.QueryParams | src/services/apiService.ts:25-35 | at most three parameters, and none without a filter object; `QueryParamsShape` and `QueryParamsRoundTrip` give the exact contents |
| ApiService.BooksPath | src/services/apiService.ts:37-39 | every catalog path starts with `/books`; `BooksPathShape` gives the rest |
| ApiService.GetAllBooks | src/services/apiService.ts:23-46 | succeeds exactly when the call answers, with the served list unchanged; any failure throws an `Error` with "Failed to fetch books" |
| ApiService.BookRequest | src/services/apiService.ts:51 | a `GET` whose path is `/books/` followed by the id |
| ApiService.GetBookById | src/services/apiService.ts:49-58 | succeeds exactly when the call answers, with the served book; any failure throws an `Error` with "Failed to fetch book details" |
| ApiService.GetLibraryBooks | src/services/apiService.ts:62-71 | succeeds exactly when the call answers, with one book per served entry, element i being entry i's book; any failure throws "Failed to fetch library books" |
| ApiService.AddRequest | src/services/apiService.ts:75 | a `POST` to `/library` carrying the id in its body |
| ApiService.AddFailureMessage | src/services/apiService.ts:77-86 | "Book not found" exactly for status 404, "Book is already in your library" exactly for 409, "Failed to add book to library" exactly for every other failure |
| ApiService.AddToLibrary | src/services/apiService.ts:73-88 | succeeds exactly when the call answers; a failure throws an `Error` carrying the classified message |
| ApiService.RemoveRequest | src/services/apiService.ts:92 | a `DELETE` whose path is `/library/` followed by the id |
| ApiService.RemoveFailureMessage | src/services/apiService.ts:94-100 | "Book is not in your library" exactly for status 404, "Failed to remove book from library" exactly for every other failure |
| ApiService.RemoveFromLibrary | src/services/apiService.ts:90-102 | succeeds exactly when the call answers; a failure throws an `Error` carrying the classified message |
| ApiService.GetAllBooksRequest | src/services/apiService.ts:23-39 | the parameter buffer filled step by step yields the request for the path above |
| ApiService.ProjectBooks | src/services/apiService.ts:65 | one book per entry, same length and order, element i being entry i's book |
| ApiService.ReadOperationsOutcome | src/services/apiService.ts:41-70 | two failures of the same read operation throw the same value, whatever their cause, 404 included; the three read operations throw pairwise different messages |
| ApiService.AddFailureClassified | src/services/apiService.ts:76-86 | two add failures throw the same value exactly when both are 404, both are 409, or neither is either, so the message tells the three cases apart and nothing more |
| ApiService.RemoveFailureClassified | src/services/apiService.ts:93-100 | two remove failures throw the same value exactly when both or neither are 404 |
| ApiService.ServiceThrowsErrors | src/services/apiService.ts:42-101 | every value the service operations throw is an `Error` object |
| ApiService.RequestsIdentifyTheirTarget | src/services/apiService.ts:51-108 | the per-book requests determine their id; the library request is `GET /library`, the health request `GET /health`, and no two kinds of request coincide |
| ApiService.CheckHealth | src/services/apiService.ts:106-114 | healthy exactly on a successful answer whose status is `OK`; any failure is unhealthy |
| UseLibrary.HasBook | src/hooks/useLibrary.ts:47-49 | true exactly when some loaded book has the id |
| UseLibrary.GenreSetBound | src/hooks/useLibrary.ts:53 | the set of genres has at most one element per book and is empty exactly for no books |
| UseLibrary.AuthorSetBound | src/hooks/useLibrary.ts:54 | the set of authors has at most one element per book and is empty exactly for no books |
| UseLibrary.DistinctValuesBound | src/hooks/useLibrary.ts:51-61 | there are never more distinct genres or authors than books, and none exactly when there are no books |
| UseLibrary.Stats | src/hooks/useLibrary.ts:51-61 | the total is the number of books and the genre and author figures are the sizes of the sets of distinct genres and authors; both are at most the total and 0 exactly for an empty library |
| UseLibrary.TwoOfThreeGenres | src/hooks/useLibrary.ts:53 | genres A, A and B count as two |
| UseLibrary.LibraryHook.constructor | src/hooks/useLibrary.ts:6-8 | no books, loading, no error |
| UseLibrary.LibraryHook.FetchLibraryBooks | src/hooks/useLibrary.ts:10-21 | the library is requested; on success the books become the projected answer with no error, on failure the error is set and the books kept; loading ends false |
| UseLibrary.LibraryHook.AddToLibrary | src/hooks/useLibrary.ts:23-33 | on success the add is followed by a full refetch; on failure the thrown message is recorded and re-thrown, with no refetch and books and loading unchanged |
| UseLibrary.LibraryHook.RemoveFromLibrary | src/hooks/useLibrary.ts:35-45 | the same for removal |
| UseLibrary.LibraryHook.IsInLibrary | src/hooks/useLibrary.ts:47-49 | true exactly when some loaded book has the id |
| UseLibrary.LibraryHook.GetLibraryStats | src/hooks/useLibrary.ts:51-61 | the total is the number of loaded books, the genre and author figures are the sizes of their distinct-value sets, never above the total, and no genre exactly for an empty library |
| UseLibrary.MembershipAfterFetch | src/hooks/useLibrary.ts:47-49 | after a successful fetch a book is in the library exactly when a served entry embeds a book with its id |
| UseLibrary.ToggleMembership | src/pages/Explore.tsx:30-40 | the toggle sends the removal for a book in the library and the addition otherwise; on success the library is requested again and, when that answers, replaced by its projection with no error, or else kept with "Failed to fetch library books"; on failure only the hook's error records the classified message, books and loading unchanged, and nothing is thrown |
| UseBooks.BooksHook.constructor | src/hooks/useBooks.ts:6-8 | no books, loading, no error |
| UseBooks.BooksHook.FetchBooks | src/hooks/useBooks.ts:10-21 | the filtered list is requested; on success the books are replaced with no error, on failure the error is set and the books kept; loading ends false |
| UseBooks.BooksHook.SetFilters | src/hooks/useBooks.ts:10-25 | a new filter object makes the hook fetch again with those filters |
| UseBooks.BookHook.constructor | src/hooks/useBooks.ts:31-33 | no book, not loading, no error |
| UseBooks.BookHook.Load | src/hooks/useBooks.ts:35-55 | with no id the book is cleared and nothing requested; otherwise the book is requested and replaced, or the error set with the book kept |
| Types.CaughtMessage | src/hooks/useBooks.ts:16-19 | a caught `Error` contributes its own message; any other thrown value gives the fallback |
| UseBooks.FallbackOnlyForNonErrors | src/hooks/useBooks.ts:16-19 | the fallback message is used only for thrown values that are not `Error` objects, which the list service never throws |
| App.Step | src/App.tsx:15-25 | viewing a book or navigating never leaves a book selected off the detail page |
| App.RunFromInitial | src/App.tsx:12-25 | from the initial state every event sequence ends on its last target page with the last book viewed since the last leaving of the detail page, and no stray selection |
| App.BackLeadsToExplore | src/App.tsx:32 | the back action leads to Explore with nothing selected, from any state |
| App.Render | src/App.tsx:27-36 | Library for `library`, the detail page with the selected book for `book-detail`, Explore otherwise |
| App.DirectDetailShowsFallback | src/App.tsx:20-32 | navigating straight to `book-detail` from the start shows the detail page with no book |
| App.UiNeverShowsFallback | src/App.tsx:12-32 | with only the events the pages raise, the detail page always has a book |
| App.AppController.constructor | src/App.tsx:12-13 | page Explore, no book selected |
| App.AppController.HandleViewBook | src/App.tsx:15-18 | the book is selected and the detail page shown, as the transition function says |
| App.AppController.HandleNavigate | src/App.tsx:20-25 | the page is set; the selection is cleared unless the target is the detail page |
| App.AppController.Back | src/App.tsx:32 | back leaves the controller in the initial state |
| BookCard.TruncateText | src/components/BookCard.tsx:18-21 | a text that fits is unchanged; a longer one becomes its first `max` characters followed by `...`, so length `max+3`; the result never exceeds `max+3` and starts like the text |
| BookCard.TruncateIdempotent | src/components/BookCard.tsx:18-21 | truncating a truncated text changes nothing |
| BookCard.ToggleTitle | src/components/BookCard.tsx:70 | "Remove from library" exactly for a book in the library, "Add to library" exactly otherwise |
| BookCard.ShowYear | src/components/BookCard.tsx:47-52 | nothing for a missing year, a bare `0` exactly for year 0, and the calendar row with the year exactly for any other year |
| BookCard.Card | src/components/BookCard.tsx:23-77 | cover title cut at 20, heading at 40, synopsis at 100; author, genre and the year slot from the book; the toggle title from the membership |
| BookCard.CardFacts | src/components/BookCard.tsx:29-70 | cover title, heading and synopsis are bounded by 23, 43 and 103 characters and equal the originals when those fit; the toggle title names removal exactly for a book in the library; the year row shows exactly for a non-zero year and year 0 shows as a bare `0` |
| Explore.NonEmpty | src/pages/Explore.tsx:22 | the non-empty strings of the list, keeping duplicate-freeness |
| Explore.Genres | src/pages/Explore.tsx:20-24 | no genres for no books; otherwise duplicate-free, strictly ascending, and containing exactly the non-empty genres of the books |
| Explore.EmptyMessage | src/pages/Explore.tsx:100-102 | "Try adjusting your search criteria" exactly when some filter field is truthy, "No books are available at the moment" otherwise |
| Explore.EmptyMessageForSearchBar | src/pages/Explore.tsx:100-102 | for what the search bar emits, the text suggests adjusting the criteria exactly when some field was typed or selected |
| Explore.View | src/pages/Explore.tsx:46-105 | an error takes precedence; then a spinner while loading, the cards with their membership, or the empty-result message; the genres are offered in every non-error view |
| Explore.ExplorePage.constructor | src/pages/Explore.tsx:16-18 | no filters, both hooks loading |
| Explore.ExplorePage.HandleSearchChange | src/pages/Explore.tsx:26-28 | the filters are stored and the catalog fetched again with them |
| Explore.ExplorePage.HandleToggleLibrary | src/pages/Explore.tsx:30-40 | remove when in the library, add otherwise; the refetch after success and its two outcomes, and on failure the recorded message with books and loading unchanged, as for `ToggleMembership`; nothing is propagated |
| Explore.ExplorePage.AvailableGenres | src/pages/Explore.tsx:20-24 | the genres handed to the search bar (line 71) are strictly ascending, duplicate-free, and exactly the non-empty genres of the loaded books |
| LibraryPage.CountLineWording | src/pages/Library.tsx:49 | the line says "book" exactly for one book and "books" otherwise, and starts with the count |
| LibraryPage.CountLine | src/pages/Library.tsx:49 | the line starts with the count written in decimal, followed by at least the 16 characters of the wording; `CountLineWording` states which wording |
| LibraryPage.View | src/pages/Library.tsx:24-119 | an error takes precedence; then loading; the empty state exactly when not loading and empty; otherwise the count line, cards all marked in the library, and the statistics |
| LibraryPage.GridFacts | src/pages/Library.tsx:47-113 | in the list view every card offers removal, and the genre and author figures are the distinct-value counts, between 1 and the number of books |
| LibraryPage.RemoveFailureHidesGrid | src/pages/Library.tsx:16-37 | after a failed removal from a loaded, non-empty library, the page that showed the grid shows only the removal's error message, while the books stay loaded |
| LibraryPage.HandleRemoveFromLibrary | src/pages/Library.tsx:16-22 | the card's toggle only removes; on success the library is requested again and replaced by the projected answer with no error, or kept with "Failed to fetch library books"; on failure the removal message is recorded, books and loading unchanged, and nothing is propagated |
| BookDetail.WordCount | src/pages/BookDetail.tsx:133-139 | the count is the number of spaces plus one, so at least one |
| BookDetail.WordCountOfWords | src/pages/BookDetail.tsx:133-139 | words without spaces joined by single spaces are counted one each |
| BookDetail.ButtonLabel | src/pages/BookDetail.tsx:113 | "Remove from Library" exactly for a book in the library, "Add to Library" exactly otherwise |
| BookDetail.View | src/pages/BookDetail.tsx:16-157 | no book gives the fallback; otherwise title, author, genre and synopsis are the book's own, the button is disabled with a spinner exactly while toggling, labelled "Remove from Library" exactly when in the library, with the counts, the banner, and the year slot of the card (the calendar row exactly for a non-zero year, a bare `0` for year 0) |
| BookDetail.BookDetailPage.constructor | src/pages/BookDetail.tsx:13-14 | not toggling, the page's library hook loading |
| BookDetail.BookDetailPage.BeginToggle | src/pages/BookDetail.tsx:33-36 | a click while toggling does nothing; otherwise the flag is raised |
| BookDetail.BookDetailPage.CompleteToggle | src/pages/BookDetail.tsx:36-46 | remove when in the library, add otherwise, with the refetch outcomes and failure record of `ToggleMembership`; the flag is lowered whether it succeeded or failed, and no error escapes |
| BookDetail.BookDetailPage.HandleToggleLibrary | src/pages/BookDetail.tsx:32-47 | a click while toggling sends nothing and leaves the flag and the hook's books, loading and error as they were; otherwise the toggle runs with the requests, refetch outcomes and failure record of `CompleteToggle` and ends with the flag down |
| BookDetail.BookDetailPage.ClickDuringToggle | src/pages/BookDetail.tsx:32-47 | a second click while the first toggle is under way sends nothing (`second` is empty); only the first click's requests go out, and the flag is down afterwards |

## Left out

- HTTP transport is not modelled: the client, the 10-second timeout, the
  response interceptor and all console logging. Each call is modelled as its
  request plus the service's answer, given as a parameter.
- `URLSearchParams` percent-encoding is not modelled. Query values appear in
  the path unencoded.
- Timing is not modelled: the 500 ms debounce delay, React's scheduling of
  effects and renders, and overlapping asynchronous requests. Each operation
  runs to completion before the next event. The debounce timer's expiry is
  an explicit event.
- JSX, CSS classes, icons and layout are not modelled, in every component.
- The navigation bar, the error message, the loading spinner and the error
  boundary only present things. The navigation bar is used only for the
  targets it offers.
- React strict mode's double effects and re-renders that change no state
  are not modelled.
- Lengths and the default `sort` order are not measured in UTF-16 code
  units. `string` is a sequence of code points, so characters outside the
  Basic Multilingual Plane count and compare differently from JavaScript.
- What the remote service does with an add or a remove, and whether a
  refetch then reflects it, is server behaviour. It is not modelled: the
  refetch's answer is a parameter.
- JsStrings.Sort: sortedness is proved only for duplicate-free input. That
  is the only input the genre list gives it, since duplicates are removed
  first.
- React's batching of state updates is not modelled. Emissions made in
  one effect flush, such as the two `{}` at mount or the re-emissions of
  the effects after clearing, reach the catalog hook as one render and one
  refetch with the last object. Clearing therefore refetches twice: once
  for the handler's own `{}` and once for the effects' re-emissions. The model refetches once per emission
  (`UseBooks.BooksHook.SetFilters`, `Explore.ExplorePage.HandleSearchChange`).
- The search bar's unmounting is not modelled. When the catalog fetch
  fails, the explore page renders the error view without the search bar.
  The bar's fields are then lost and its pending timer is cancelled. When a
  retry starts, the hook clears the error at once, so the bar mounts again
  with empty fields and sends `{}` twice. This replaces the filters of the
  failed request and fetches the catalog again without filters, whether or
  not the retry succeeds. The explore page in the model holds only the
  filters, not a `SearchBar.SearchBarState`.
