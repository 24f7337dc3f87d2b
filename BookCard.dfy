/** A book's card (src/components/BookCard.tsx): the truncated texts and the
    membership-dependent toggle title. */
module BookCard {
  import opened Types

  function Min(a: nat, b: nat): nat {
    if a <= b then a else b
  }

  /** `truncateText`: a text that fits is kept; a longer one is cut to
      `maxLength` characters and followed by `...`. */
  function TruncateText(text: string, maxLength: nat): (r: string)
    ensures |text| <= maxLength ==> r == text
    ensures |text| > maxLength ==> |r| == maxLength + 3 && r[maxLength..] == "..."
    ensures |r| <= maxLength + 3
    ensures r[..Min(|text|, maxLength)] == text[..Min(|text|, maxLength)]
  {
    if |text| <= maxLength then text else text[..maxLength] + "..."
  }

  /** Truncating a truncated text changes nothing more. */
  lemma TruncateIdempotent(text: string, maxLength: nat)
    ensures TruncateText(TruncateText(text, maxLength), maxLength) == TruncateText(text, maxLength)
  {
    if |text| > maxLength {
      var r := text[..maxLength] + "...";
      assert r[..maxLength] == text[..maxLength];
    }
  }

  /** The heart button's tooltip. */
  function ToggleTitle(isInLibrary: bool): (title: string)
    ensures title == "Remove from library" <==> isInLibrary
    ensures title == "Add to library" <==> !isInLibrary
  {
    if isInLibrary then "Remove from library" else "Add to library"
  }

  /** What `{book.year && (<the calendar row>)}` renders: nothing for a
      missing year, the bare number `0` for a zero year (a falsy number is
      still rendered as text), and the calendar row with the year otherwise. */
  datatype YearSlot = NoYear | BareZero | YearRow(year: int)

  function ShowYear(year: Option<int>): (slot: YearSlot)
    ensures slot.NoYear? <==> year.None?
    ensures slot.BareZero? <==> year == Some(0)
    ensures slot.YearRow? <==> year.Some? && year.value != 0
    ensures slot.YearRow? ==> year == Some(slot.year)
  {
    match year
    case None => NoYear
    case Some(y) => if y == 0 then BareZero else YearRow(y)
  }

  /** What a card shows. */
  datatype CardView = CardView(
    coverTitle: string,
    title: string,
    author: string,
    genre: string,
    synopsis: string,
    year: YearSlot,
    inLibrary: bool,
    toggleTitle: string)

  /** `BookCard`: the title cut at 20 characters on the cover and at 40 in
      the heading, the synopsis cut at 100, and the year slot. */
  function Card(book: Book, isInLibrary: bool): (c: CardView)
    ensures c.author == book.author && c.genre == book.genre
    ensures c.year == ShowYear(book.year)
    ensures c.inLibrary == isInLibrary && c.toggleTitle == ToggleTitle(isInLibrary)
    ensures c.coverTitle == TruncateText(book.title, 20) && c.title == TruncateText(book.title, 40)
    ensures c.synopsis == TruncateText(book.synopsis, 100)
  {
    CardView(
      TruncateText(book.title, 20),
      TruncateText(book.title, 40),
      book.author,
      book.genre,
      TruncateText(book.synopsis, 100),
      ShowYear(book.year),
      isInLibrary,
      ToggleTitle(isInLibrary))
  }

  /** The card's texts are bounded and start like the book's own; the
      toggle title names removal exactly when the book is in the library;
      the year row shows exactly for a truthy year, and a zero year shows as
      a bare `0`. */
  lemma CardFacts(book: Book, isInLibrary: bool)
    ensures var c := Card(book, isInLibrary);
      && |c.coverTitle| <= 23 && |c.title| <= 43 && |c.synopsis| <= 103
      && (|book.title| <= 20 ==> c.coverTitle == book.title)
      && (|book.title| <= 40 ==> c.title == book.title)
      && (|book.synopsis| <= 100 ==> c.synopsis == book.synopsis)
      && c.title[..Min(|book.title|, 40)] == book.title[..Min(|book.title|, 40)]
      && (c.toggleTitle == "Remove from library" <==> isInLibrary)
      && (c.toggleTitle == "Add to library" <==> !isInLibrary)
      && (c.year.YearRow? <==> book.year.Some? && book.year.value != 0)
      && (c.year == BareZero <==> book.year == Some(0))
  {
  }
}
