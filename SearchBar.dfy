/** The search bar (src/components/SearchBar.tsx): turning the three raw
    inputs into a filter object, the debounce-or-emit decision, the
    active-filter count, and the component's state cells driven by its two
    effects and its clear action. Time is not modelled: an armed debounce
    timer is a state cell, and its expiry is the event `FireTimer`. */
module SearchBar {
  import opened Types
  import opened JsStrings

  /** What one text box contributes: its trimmed value, absent when that is
      empty. A present value is never empty or whitespace only. */
  function TextFilter(raw: string): (o: Option<string>)
    ensures o.Some? ==> o.value == Trim(raw) && o.value != "" && !Blank(o.value)
    ensures o.None? <==> Blank(raw)
  {
    TrimEmptyIffBlank(raw);
    var t := Trim(raw);
    if t != "" then Some(t) else None
  }

  /** `sendFilters`: search and author are trimmed and dropped when blank;
      the genre is kept exactly when it is non-empty, untrimmed. */
  function SendFilters(search: string, genre: string, author: string): (f: SearchFilters)
    ensures f.search.Some? ==> f.search.value == Trim(search) && !Blank(f.search.value)
    ensures f.search.None? <==> Blank(search)
    ensures f.author.Some? ==> f.author.value == Trim(author) && !Blank(f.author.value)
    ensures f.author.None? <==> Blank(author)
    ensures f.genre.Some? <==> genre != ""
    ensures f.genre.Some? ==> f.genre.value == genre
  {
    SearchFilters(TextFilter(search), if genre != "" then Some(genre) else None, TextFilter(author))
  }

  /** The emitted object is `{}` exactly when search and author are empty or
      whitespace only and no genre is selected; a whitespace-only genre is
      sent as it is. */
  lemma SendFiltersEmpty(search: string, genre: string, author: string)
    ensures SendFilters(search, genre, author) == NoFilters <==> Blank(search) && genre == "" && Blank(author)
    ensures SendFilters(" ", " ", " ") == SearchFilters(None, Some(" "), None)
  {
    assert Blank(" ");
  }

  /** The effect on the two text boxes debounces exactly when one of them,
      untrimmed, is non-empty. */
  predicate ShouldDebounce(searchTerm: string, authorFilter: string): (debounce: bool)
    ensures !debounce ==> TextFilter(searchTerm).None? && TextFilter(authorFilter).None?
  {
    searchTerm != "" || authorFilter != ""
  }

  /** Whenever a text field would be sent, the emission is debounced (the
      first two clauses restate `ShouldDebounce`'s own ensures in terms of
      `SendFilters`); the converse fails: a whitespace-only search is
      debounced and then sends no search field. */
  lemma DebounceCoversTextFields(search: string, genre: string, author: string)
    ensures SendFilters(search, genre, author).search.Some? ==> ShouldDebounce(search, author)
    ensures SendFilters(search, genre, author).author.Some? ==> ShouldDebounce(search, author)
    ensures ShouldDebounce(" ", "") && SendFilters(" ", genre, "").search.None?
  {
    assert Blank("");
    assert Blank(" ");
  }

  /** Number of non-empty strings: `xs.filter(Boolean).length`, that is the
      number of positions holding a non-empty string. */
  function NonEmptyCount(xs: seq<string>): (n: nat)
    ensures n == |set i | 0 <= i < |xs| && xs[i] != ""|
    ensures n <= |xs|
    ensures n == 0 <==> forall i :: 0 <= i < |xs| ==> xs[i] == ""
  {
    if xs == [] then 0
    else
      var init := xs[..|xs| - 1];
      var last := |xs| - 1;
      assert (set i | 0 <= i < |xs| && xs[i] != "")
          == (set i | 0 <= i < |init| && init[i] != "") + (if xs[last] != "" then {last} else {});
      assert last !in (set i | 0 <= i < |init| && init[i] != "");
      NonEmptyCount(init) + (if xs[last] != "" then 1 else 0)
  }

  /** `activeFiltersCount`: how many raw fields are non-empty, 0 to 3. */
  function ActiveFiltersCount(searchTerm: string, selectedGenre: string, authorFilter: string): (n: nat)
    ensures n == (if searchTerm != "" then 1 else 0) + (if selectedGenre != "" then 1 else 0)
                 + (if authorFilter != "" then 1 else 0)
    ensures n <= 3
    ensures n == 0 <==> searchTerm == "" && selectedGenre == "" && authorFilter == ""
    ensures n == 3 <==> searchTerm != "" && selectedGenre != "" && authorFilter != ""
  {
    var xs := [searchTerm, selectedGenre, authorFilter];
    assert xs[..2] == [searchTerm, selectedGenre];
    assert xs[..2][..1] == [searchTerm];
    assert xs[..2][..1][..0] == [];
    assert NonEmptyCount(xs[..2][..1]) == if searchTerm != "" then 1 else 0;
    assert NonEmptyCount(xs[..2]) == NonEmptyCount(xs[..2][..1]) + (if selectedGenre != "" then 1 else 0);
    assert NonEmptyCount(xs) == NonEmptyCount(xs[..2]) + (if authorFilter != "" then 1 else 0);
    NonEmptyCount(xs)
  }

  /** `hasActiveFilters`: one raw field is non-empty. */
  predicate HasActiveFilters(searchTerm: string, selectedGenre: string, authorFilter: string): (active: bool)
    ensures !active ==> SendFilters(searchTerm, selectedGenre, authorFilter) == NoFilters
  {
    searchTerm != "" || selectedGenre != "" || authorFilter != ""
  }

  /** The badge and the clear button show exactly when the count is positive. */
  lemma ActiveFiltersAgree(searchTerm: string, selectedGenre: string, authorFilter: string)
    ensures HasActiveFilters(searchTerm, selectedGenre, authorFilter)
        <==> ActiveFiltersCount(searchTerm, selectedGenre, authorFilter) > 0
  {
  }

  /** What clearing sends: `{}` from `clearFilters` itself, then `{}` again
      from the text effect when a text field was non-empty, and from the
      genre effect when a genre was selected. */
  function ClearEmissions(textWasSet: bool, genreWasSet: bool): (es: seq<SearchFilters>)
    ensures |es| == 1 + (if textWasSet then 1 else 0) + (if genreWasSet then 1 else 0)
    ensures forall i :: 0 <= i < |es| ==> es[i] == NoFilters
  {
    [NoFilters] + (if textWasSet then [NoFilters] else []) + (if genreWasSet then [NoFilters] else [])
  }

  /** Appending the emissions one at a time builds `ClearEmissions`. */
  lemma ClearEmissionsAppend(e0: seq<SearchFilters>, textWasSet: bool, genreWasSet: bool)
    ensures e0 + [NoFilters] + (if textWasSet then [NoFilters] else []) + (if genreWasSet then [NoFilters] else [])
         == e0 + ClearEmissions(textWasSet, genreWasSet)
  {
  }

  /** Empty fields neither debounce nor send any field. */
  lemma ClearedFieldsSendNothing(search: string, genre: string, author: string)
    requires search == "" && genre == "" && author == ""
    ensures !ShouldDebounce(search, author) && SendFilters(search, genre, author) == NoFilters
  {
    assert Blank("");
  }

  /** The values a timer callback closed over when it was armed. */
  datatype Timer = Timer(search: string, genre: string, author: string)

  class SearchBarState {
    var searchTerm: string
    var selectedGenre: string
    var authorFilter: string
    var showFilters: bool
    /** The armed debounce timer, if any (`debounceRef`). */
    var timer: Option<Timer>
    /** Every filter object passed to `onSearchChange`, oldest first. */
    var emitted: seq<SearchFilters>

    /** A timer is armed only while a text field is non-empty, and it holds
        the current text fields: every text change re-arms or cancels it.
        Its genre is the one of the moment it was armed. */
    predicate Valid()
      reads this
    {
      timer.Some? ==>
        && ShouldDebounce(searchTerm, authorFilter)
        && timer.value.search == searchTerm
        && timer.value.author == authorFilter
    }

    /** Mount: all fields empty, panel hidden; both effects run once, each
        sending `{}`. */
    constructor ()
      ensures Valid()
      ensures searchTerm == "" && selectedGenre == "" && authorFilter == "" && !showFilters
      ensures timer == None && emitted == [NoFilters, NoFilters]
    {
      searchTerm, selectedGenre, authorFilter, showFilters := "", "", "", false;
      timer := None;
      assert Blank("");
      emitted := [SendFilters("", "", ""), SendFilters("", "", "")];
    }

    /** The effect on `[searchTerm, authorFilter]`: cancel the armed timer,
        then arm a new one or send at once. */
    method RunTextEffect()
      modifies this
      ensures Valid()
      ensures searchTerm == old(searchTerm) && selectedGenre == old(selectedGenre)
      ensures authorFilter == old(authorFilter) && showFilters == old(showFilters)
      ensures ShouldDebounce(searchTerm, authorFilter) ==>
        timer == Some(Timer(searchTerm, selectedGenre, authorFilter)) && emitted == old(emitted)
      ensures !ShouldDebounce(searchTerm, authorFilter) ==>
        timer == None && emitted == old(emitted) + [SendFilters(searchTerm, selectedGenre, authorFilter)]
    {
      timer := None;
      if ShouldDebounce(searchTerm, authorFilter) {
        timer := Some(Timer(searchTerm, selectedGenre, authorFilter));
      } else {
        emitted := emitted + [SendFilters(searchTerm, selectedGenre, authorFilter)];
      }
    }

    /** Typing in the search box. Setting the same value does not re-render,
        so no effect runs. */
    method SetSearchTerm(v: string)
      requires Valid()
      modifies this
      ensures Valid()
      ensures searchTerm == v && selectedGenre == old(selectedGenre)
      ensures authorFilter == old(authorFilter) && showFilters == old(showFilters)
      ensures v == old(searchTerm) ==> timer == old(timer) && emitted == old(emitted)
      ensures v != old(searchTerm) && ShouldDebounce(v, authorFilter) ==>
        timer == Some(Timer(v, selectedGenre, authorFilter)) && emitted == old(emitted)
      ensures v != old(searchTerm) && !ShouldDebounce(v, authorFilter) ==>
        timer == None && emitted == old(emitted) + [SendFilters(v, selectedGenre, authorFilter)]
    {
      if v != searchTerm {
        searchTerm := v;
        RunTextEffect();
      }
    }

    /** Typing in the author box; symmetric to `SetSearchTerm`. */
    method SetAuthorFilter(v: string)
      requires Valid()
      modifies this
      ensures Valid()
      ensures authorFilter == v && selectedGenre == old(selectedGenre)
      ensures searchTerm == old(searchTerm) && showFilters == old(showFilters)
      ensures v == old(authorFilter) ==> timer == old(timer) && emitted == old(emitted)
      ensures v != old(authorFilter) && ShouldDebounce(searchTerm, v) ==>
        timer == Some(Timer(searchTerm, selectedGenre, v)) && emitted == old(emitted)
      ensures v != old(authorFilter) && !ShouldDebounce(searchTerm, v) ==>
        timer == None && emitted == old(emitted) + [SendFilters(searchTerm, selectedGenre, v)]
    {
      if v != authorFilter {
        authorFilter := v;
        RunTextEffect();
      }
    }

    /** Choosing a genre: its own effect sends at once; the armed timer, if
        any, is left as it is. */
    method SetSelectedGenre(v: string)
      requires Valid()
      modifies this
      ensures Valid()
      ensures selectedGenre == v && searchTerm == old(searchTerm)
      ensures authorFilter == old(authorFilter) && showFilters == old(showFilters)
      ensures timer == old(timer)
      ensures emitted == if v == old(selectedGenre) then old(emitted)
                         else old(emitted) + [SendFilters(searchTerm, v, authorFilter)]
    {
      if v != selectedGenre {
        selectedGenre := v;
        RunGenreEffect();
      }
    }

    /** The armed timer expires: its callback sends the values it closed over. */
    method FireTimer()
      requires Valid()
      modifies this
      ensures Valid()
      ensures searchTerm == old(searchTerm) && selectedGenre == old(selectedGenre)
      ensures authorFilter == old(authorFilter) && showFilters == old(showFilters)
      ensures timer == None
      ensures emitted == match old(timer)
                         case None => old(emitted)
                         case Some(t) => old(emitted) + [SendFilters(t.search, t.genre, t.author)]
    {
      match timer
      case None =>
      case Some(t) =>
        emitted := emitted + [SendFilters(t.search, t.genre, t.author)];
        timer := None;
    }

    /** The filter toggle button. */
    method ToggleFilters()
      requires Valid()
      modifies this
      ensures Valid()
      ensures showFilters == !old(showFilters)
      ensures searchTerm == old(searchTerm) && selectedGenre == old(selectedGenre)
      ensures authorFilter == old(authorFilter) && timer == old(timer) && emitted == old(emitted)
    {
      showFilters := !showFilters;
    }

    /** The effect on `[selectedGenre]`: send the current fields at once. */
    method RunGenreEffect()
      modifies this
      ensures searchTerm == old(searchTerm) && selectedGenre == old(selectedGenre)
      ensures authorFilter == old(authorFilter) && showFilters == old(showFilters)
      ensures timer == old(timer)
      ensures emitted == old(emitted) + [SendFilters(searchTerm, selectedGenre, authorFilter)]
    {
      emitted := emitted + [SendFilters(searchTerm, selectedGenre, authorFilter)];
    }

    /** The body of `clearFilters` itself: the three fields emptied, the
        panel closed and `{}` sent, before any effect runs. */
    method ResetFields()
      modifies this
      ensures searchTerm == "" && selectedGenre == "" && authorFilter == "" && !showFilters
      ensures timer == old(timer)
      ensures emitted == old(emitted) + [NoFilters]
    {
      searchTerm, selectedGenre, authorFilter, showFilters := "", "", "", false;
      emitted := emitted + [NoFilters];
    }

    /** `clearFilters`: all three fields become empty, the panel closes and
        `{}` is sent at once; the re-render then runs the effects whose
        inputs changed, each of which sends `{}` again (`ClearEmissions`).
        No timer is left. */
    method ClearFilters()
      requires Valid()
      modifies this
      ensures Valid()
      ensures searchTerm == "" && selectedGenre == "" && authorFilter == "" && !showFilters
      ensures timer == None
      ensures emitted == old(emitted) + ClearEmissions(ShouldDebounce(old(searchTerm), old(authorFilter)), old(selectedGenre) != "")
    {
      ghost var e0 := emitted;
      var textChanged := ShouldDebounce(searchTerm, authorFilter);
      var genreChanged := selectedGenre != "";
      assert !textChanged ==> timer == None;
      ResetFields();
      ClearedFieldsSendNothing(searchTerm, selectedGenre, authorFilter);
      ghost var e1 := emitted;
      if textChanged {
        RunTextEffect();
      }
      ghost var e2 := emitted;
      assert e2 == e1 + (if textChanged then [NoFilters] else []);
      if genreChanged {
        RunGenreEffect();
      }
      assert emitted == e2 + (if genreChanged then [NoFilters] else []);
      ClearEmissionsAppend(e0, textChanged, genreChanged);
    }
  }

  /** A burst of keystrokes inside the debounce window, each leaving a
      non-empty search text, ends in one emission carrying only the last
      value: every keystroke re-arms the timer and nothing is sent until it
      fires. */
  method TypingBurst(keys: seq<string>) returns (sent: seq<SearchFilters>)
    requires keys != []
    requires forall i :: 0 <= i < |keys| ==> keys[i] != ""
    ensures sent == [SendFilters(keys[|keys| - 1], "", "")]
  {
    var bar := new SearchBarState();
    for i := 0 to |keys|
      invariant bar.Valid()
      invariant bar.selectedGenre == "" && bar.authorFilter == ""
      invariant bar.emitted == [NoFilters, NoFilters]
      invariant i == 0 ==> bar.searchTerm == "" && bar.timer == None
      invariant i > 0 ==> bar.searchTerm == keys[i - 1] && bar.timer == Some(Timer(keys[i - 1], "", ""))
    {
      bar.SetSearchTerm(keys[i]);
    }
    bar.FireTimer();
    sent := bar.emitted[2..];
  }

  /** A genre chosen while a search is pending is sent at once, but the
      timer armed before it still fires with the genre it closed over: the
      last filter object sent has no genre while the selector shows one. */
  method GenreDuringPendingSearch(term: string, genre: string) returns (sent: seq<SearchFilters>, shownGenre: string)
    requires term != "" && genre != ""
    ensures sent == [SendFilters(term, genre, ""), SendFilters(term, "", "")]
    ensures sent[0].genre == Some(genre) && sent[1].genre == None && shownGenre == genre
  {
    var bar := new SearchBarState();
    bar.SetSearchTerm(term);
    bar.SetSelectedGenre(genre);
    bar.FireTimer();
    sent := bar.emitted[2..];
    shownGenre := bar.selectedGenre;
  }
}
