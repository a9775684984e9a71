/**
 * The catalog filter of the home view: a book is shown when it matches the
 * search term, the selected genre and the selected minimum rating.
 */
module Filter {
  import opened Seqs
  import opened Text
  import opened Catalog

  /** The three filter inputs; an empty string or a zero rating means "no constraint". */
  datatype Criteria = Criteria(searchTerm: string, selectedGenre: string, selectedRating: int)

  /** The criteria the page starts with and that a new search resets genre and rating to. */
  const Neutral: Criteria := Criteria("", "", 0)

  /**
   * Case-insensitive substring match of the term against title, author or
   * genre: the lowered term occurs at some position of one lowered field.
   */
  predicate TermMatches(b: Book, term: string): (r: bool)
    ensures r <==>
      term == "" ||
      (exists i :: OccursAt(ToLower(b.title), ToLower(term), i)) ||
      (exists i :: OccursAt(ToLower(b.author), ToLower(term), i)) ||
      (exists i :: OccursAt(ToLower(b.genre), ToLower(term), i))
  {
    IncludesIff(ToLower(b.title), ToLower(term));
    IncludesIff(ToLower(b.author), ToLower(term));
    IncludesIff(ToLower(b.genre), ToLower(term));
    term == "" ||
    Includes(ToLower(b.title), ToLower(term)) ||
    Includes(ToLower(b.author), ToLower(term)) ||
    Includes(ToLower(b.genre), ToLower(term))
  }

  /** Exact, case-sensitive genre match. */
  predicate GenreMatches(b: Book, genre: string)
  {
    genre == "" || b.genre == genre
  }

  /** The book's rating is at least the selected number of stars. */
  predicate RatingMatches(b: Book, minRating: int)
  {
    minRating == 0 || b.rating >= minRating as real
  }

  /** A book is shown when it passes all three criteria; neutral criteria pass every book. */
  predicate Matches(c: Criteria, b: Book): (r: bool)
    ensures c == Neutral ==> r
    ensures r ==> TermMatches(b, c.searchTerm)
    ensures r ==> c.selectedGenre == "" || b.genre == c.selectedGenre
    ensures r ==> c.selectedRating == 0 || b.rating >= c.selectedRating as real
  {
    TermMatches(b, c.searchTerm) &&
    GenreMatches(b, c.selectedGenre) &&
    RatingMatches(b, c.selectedRating)
  }

  /** The callback handed to `filter`. */
  function IsMatch(c: Criteria): Book -> bool
  {
    b => Matches(c, b)
  }

  /** `catalog.filter(book => ...)` under criteria `c`. */
  function FilterBooks(catalog: seq<Book>, c: Criteria): (r: seq<Book>)
    ensures |r| <= |catalog|
  {
    Keep(catalog, IsMatch(c))
  }

  /** Sound and complete: a book is shown exactly when it is in the catalog and matches. */
  lemma {:induction false} FilterSoundAndComplete(catalog: seq<Book>, c: Criteria, b: Book)
    ensures b in FilterBooks(catalog, c) <==> b in catalog && Matches(c, b)
  {
    KeepMembership(catalog, IsMatch(c), b);
  }

  /** Every shown book satisfies each of the three predicates. */
  lemma {:induction false} FilterShowsOnlyMatches(catalog: seq<Book>, c: Criteria)
    ensures forall i :: 0 <= i < |FilterBooks(catalog, c)| ==>
      var b := FilterBooks(catalog, c)[i];
      TermMatches(b, c.searchTerm) && GenreMatches(b, c.selectedGenre) && RatingMatches(b, c.selectedRating)
  {
    KeepAllPass(catalog, IsMatch(c));
  }

  /** The result keeps catalog order. */
  lemma {:induction false} FilterKeepsOrder(catalog: seq<Book>, c: Criteria)
    ensures IsSubsequence(FilterBooks(catalog, c), catalog)
  {
    KeepIsSubsequence(catalog, IsMatch(c));
  }

  /** Neutral criteria show the whole catalog, as the page does before any input. */
  lemma {:induction false} FilterNeutralShowsAll(catalog: seq<Book>)
    ensures FilterBooks(catalog, Neutral) == catalog
  {
    KeepWhenAllPass(catalog, IsMatch(Neutral));
  }

  /** The term match does not depend on letter case of the term. */
  lemma TermMatchIgnoresCase(b: Book, t1: string, t2: string)
    requires ToLower(t1) == ToLower(t2)
    ensures TermMatches(b, t1) == TermMatches(b, t2)
  {
  }

  /** Terms that differ only in letter case show the same books. */
  lemma {:induction false} FilterIgnoresTermCase(catalog: seq<Book>, t1: string, t2: string, genre: string, rating: int)
    requires ToLower(t1) == ToLower(t2)
    ensures FilterBooks(catalog, Criteria(t1, genre, rating)) == FilterBooks(catalog, Criteria(t2, genre, rating))
  {
    forall b | b in catalog
      ensures IsMatch(Criteria(t1, genre, rating))(b) == IsMatch(Criteria(t2, genre, rating))(b)
    {
      TermMatchIgnoresCase(b, t1, t2);
    }
    KeepAgreeing(catalog, IsMatch(Criteria(t1, genre, rating)), IsMatch(Criteria(t2, genre, rating)));
  }

  /** After a new search only the term constrains the result. */
  lemma {:induction false} FilterAfterSearch(catalog: seq<Book>, term: string, b: Book)
    ensures b in FilterBooks(catalog, Criteria(term, "", 0)) <==> b in catalog && TermMatches(b, term)
  {
    FilterSoundAndComplete(catalog, Criteria(term, "", 0), b);
  }

  /** Raising the minimum rating can only hide books. */
  lemma {:induction false} FilterRatingMonotone(catalog: seq<Book>, term: string, genre: string, r1: int, r2: int)
    requires 0 <= r1 <= r2
    ensures forall b :: b in FilterBooks(catalog, Criteria(term, genre, r2)) ==>
                        b in FilterBooks(catalog, Criteria(term, genre, r1))
  {
    forall b | b in FilterBooks(catalog, Criteria(term, genre, r2))
      ensures b in FilterBooks(catalog, Criteria(term, genre, r1))
    {
      FilterSoundAndComplete(catalog, Criteria(term, genre, r2), b);
      FilterSoundAndComplete(catalog, Criteria(term, genre, r1), b);
    }
  }

  /** Character `c` occurs in none of the lowered title, author and genre of `b`. */
  ghost predicate LacksLetter(b: Book, c: char)
  {
    c !in ToLower(b.title) && c !in ToLower(b.author) && c !in ToLower(b.genre)
  }

  /** A term with a character that no searched field of a book has, once lowered, misses the book. */
  lemma TermMissesBook(b: Book, term: string, c: char)
    requires term != "" && c in ToLower(term)
    requires LacksLetter(b, c)
    ensures !TermMatches(b, term)
  {
    var t := ToLower(term);
    if Includes(ToLower(b.title), t) { IncludesOnlyItsCharacters(ToLower(b.title), t, c); }
    if Includes(ToLower(b.author), t) { IncludesOnlyItsCharacters(ToLower(b.author), t, c); }
    if Includes(ToLower(b.genre), t) { IncludesOnlyItsCharacters(ToLower(b.genre), t, c); }
  }

  /** Books 1 and 2 have no 'w' in title, author or genre. */
  lemma FirstBooksLackW()
    ensures LacksLetter(Books[0], 'w') && LacksLetter(Books[1], 'w')
  {
  }

  /** Books 4 and 5 have no 'w' in title, author or genre. */
  lemma LastBooksLackW()
    ensures LacksLetter(Books[3], 'w') && LacksLetter(Books[4], 'w')
  {
  }

  /** Book 3 matches "orwell" through its author, "George Orwell". */
  lemma OrwellMatchesBookThree()
    ensures Matches(Criteria("orwell", "", 0), Books[2])
  {
    assert ToLower("orwell") == "orwell";
    assert ToLower("George Orwell") == "george orwell";
    assert OccursAt("george orwell", "orwell", 7);
    IncludesIff("george orwell", "orwell");
  }

  /** No other catalog book matches "orwell". */
  lemma OrwellMissesOtherBooks()
    ensures !Matches(Criteria("orwell", "", 0), Books[0])
    ensures !Matches(Criteria("orwell", "", 0), Books[1])
    ensures !Matches(Criteria("orwell", "", 0), Books[3])
    ensures !Matches(Criteria("orwell", "", 0), Books[4])
  {
    assert ToLower("orwell") == "orwell";
    assert 'w' in "orwell";
    FirstBooksLackW();
    LastBooksLackW();
    TermMissesBook(Books[0], "orwell", 'w');
    TermMissesBook(Books[1], "orwell", 'w');
    TermMissesBook(Books[3], "orwell", 'w');
    TermMissesBook(Books[4], "orwell", 'w');
  }

  /** Searching "orwell" finds only book 3, through a case-insensitive author match. */
  lemma SearchOrwell()
    ensures FilterBooks(Books, Criteria("orwell", "", 0)) == [Books[2]]
  {
    OrwellMatchesBookThree();
    OrwellMissesOtherBooks();
    assert Books[1..][1..][1..][1..][1..] == [];
  }

  /** Searching "ORWELL" finds the same single book. */
  lemma SearchOrwellUpperCase()
    ensures FilterBooks(Books, Criteria("ORWELL", "", 0)) == [Books[2]]
  {
    assert ToLower("ORWELL") == ToLower("orwell");
    FilterIgnoresTermCase(Books, "ORWELL", "orwell", "", 0);
    SearchOrwell();
  }

  /** Selecting genre "Romance" finds only book 4. */
  lemma SelectRomance()
    ensures FilterBooks(Books, Criteria("", "Romance", 0)) == [Books[3]]
  {
    assert Books[1..][1..][1..][1..][1..] == [];
  }

  /** The genre match is case-sensitive: genre "romance" finds nothing. */
  lemma SelectRomanceLowerCase()
    ensures FilterBooks(Books, Criteria("", "romance", 0)) == []
  {
    assert Books[1..][1..][1..][1..][1..] == [];
  }
}
