/**
 * The state of the `Home` page component and the handlers that change it:
 * adding to and removing from the library, searching, and choosing a genre
 * or a minimum rating. The shown list is not a field of its own: it is
 * always the filter applied to the current criteria.
 */
module Page {
  import opened Seqs
  import opened Catalog
  import opened Filter
  import opened Library

  const AddedMessage: string := "Book added to library successfully!"
  const RemovedMessage: string := "Book removed from library successfully!"

  /** The genre selection after clicking the check-box of `genre`. */
  function ToggledGenre(current: string, genre: string): (r: string)
    ensures r == genre || r == ""
    ensures genre != "" ==> (r == genre <==> current != genre)
  {
    if current == genre then "" else genre
  }

  /** Clicking the same check-box twice restores an empty or matching selection. */
  lemma ToggleTwiceRestores(current: string, genre: string)
    requires current == "" || current == genre
    ensures ToggledGenre(ToggledGenre(current, genre), genre) == current
  {
  }

  /** Clicking a genre check-box while another genre is selected switches to the clicked one. */
  lemma ToggleSwitchesGenre(current: string, genre: string)
    requires current != genre
    ensures ToggledGenre(current, genre) == genre
  {
  }

  class Home {
    var searchTerm: string
    var selectedGenre: string
    var selectedRating: int
    var myLibrary: seq<Book>
    var selectedBook: Option<Book>
    var isDetailsOpen: bool
    var successMessage: string

    /**
     * Library ids are pairwise distinct. The source never checks this, so the
     * handlers carry it forward for callers instead of requiring it.
     */
    ghost predicate Valid()
      reads this
    {
      UniqueIds(myLibrary)
    }

    /** The filter inputs held in the page's state. */
    function CurrentCriteria(): Criteria
      reads this
    {
      Criteria(searchTerm, selectedGenre, selectedRating)
    }

    /** The books shown in the home view. */
    function FilteredBooks(): (r: seq<Book>)
      reads this
      ensures forall i :: 0 <= i < |r| ==> Matches(CurrentCriteria(), r[i])
      ensures forall b :: b in Books && Matches(CurrentCriteria(), b) ==> b in r
      ensures IsSubsequence(r, Books)
    {
      FilterShowsOnlyMatches(Books, CurrentCriteria());
      assert forall b :: b in Books && Matches(CurrentCriteria(), b) ==> b in FilterBooks(Books, CurrentCriteria()) by {
        forall b | b in Books && Matches(CurrentCriteria(), b)
          ensures b in FilterBooks(Books, CurrentCriteria())
        {
          FilterSoundAndComplete(Books, CurrentCriteria(), b);
        }
      }
      FilterKeepsOrder(Books, CurrentCriteria());
      FilterBooks(Books, CurrentCriteria())
    }

    /** The initial state: empty criteria and library, no dialog, no message. */
    constructor ()
      ensures Valid()
      ensures searchTerm == "" && selectedGenre == "" && selectedRating == 0
      ensures myLibrary == [] && selectedBook == None && !isDetailsOpen && successMessage == ""
      ensures FilteredBooks() == Books
    {
      searchTerm := "";
      selectedGenre := "";
      selectedRating := 0;
      myLibrary := [];
      selectedBook := None;
      isDetailsOpen := false;
      successMessage := "";
      FilterNeutralShowsAll(Books);
    }

    /** Appends `book` unless an entry has its id; always closes the details dialog. */
    method AddToLibrary(book: Book)
      modifies this
      ensures old(Valid()) ==> Valid()
      ensures myLibrary == Added(old(myLibrary), book)
      ensures (forall b :: b in old(myLibrary) ==> b.id != book.id) ==>
                myLibrary == old(myLibrary) + [book] && successMessage == AddedMessage
      ensures (exists b :: b in old(myLibrary) && b.id == book.id) ==>
                myLibrary == old(myLibrary) && successMessage == old(successMessage)
      ensures !isDetailsOpen
      ensures searchTerm == old(searchTerm) && selectedGenre == old(selectedGenre)
      ensures selectedRating == old(selectedRating) && selectedBook == old(selectedBook)
    {
      var found := Find(myLibrary, book.id);
      if found.None? {
        myLibrary := myLibrary + [book];
        successMessage := AddedMessage;
      }
      isDetailsOpen := false;
      if old(Valid()) {
        AddedKeepsIdsUnique(old(myLibrary), book);
      }
    }

    /** Drops every entry with `bookId` and always reports success. */
    method RemoveFromLibrary(bookId: int)
      modifies this
      ensures old(Valid()) ==> Valid()
      ensures myLibrary == Removed(old(myLibrary), bookId)
      ensures forall b :: b in myLibrary <==> b in old(myLibrary) && b.id != bookId
      ensures old(Valid()) && (exists b :: b in old(myLibrary) && b.id == bookId) ==>
                |myLibrary| == |old(myLibrary)| - 1
      ensures successMessage == RemovedMessage
      ensures isDetailsOpen == old(isDetailsOpen) && selectedBook == old(selectedBook)
      ensures searchTerm == old(searchTerm) && selectedGenre == old(selectedGenre)
      ensures selectedRating == old(selectedRating)
    {
      myLibrary := Removed(myLibrary, bookId);
      successMessage := RemovedMessage;
      RemovedHasNoId(old(myLibrary), bookId);
      RemovedKeepsOthers(old(myLibrary), bookId);
      if old(Valid()) {
        RemovedKeepsIdsUnique(old(myLibrary), bookId);
        if exists b :: b in old(myLibrary) && b.id == bookId {
          RemovedPresentDropsOne(old(myLibrary), bookId);
        }
      }
    }

    /** A new search term resets the genre and rating filters. */
    method HandleSearch(term: string)
      modifies this
      ensures searchTerm == term && selectedGenre == "" && selectedRating == 0
      ensures forall b :: b in FilteredBooks() <==> b in Books && TermMatches(b, term)
      ensures myLibrary == old(myLibrary) && successMessage == old(successMessage)
      ensures isDetailsOpen == old(isDetailsOpen) && selectedBook == old(selectedBook)
    {
      searchTerm := term;
      selectedGenre := "";
      selectedRating := 0;
      forall b | true ensures b in FilteredBooks() <==> b in Books && TermMatches(b, term) {
        FilterAfterSearch(Books, term, b);
      }
    }

    /** Clicking the check-box of `genre` selects it, or clears it when already selected. */
    method ToggleGenre(genre: string)
      modifies this
      ensures selectedGenre == ToggledGenre(old(selectedGenre), genre)
      ensures searchTerm == old(searchTerm) && selectedRating == old(selectedRating)
      ensures myLibrary == old(myLibrary) && successMessage == old(successMessage)
      ensures isDetailsOpen == old(isDetailsOpen) && selectedBook == old(selectedBook)
    {
      if selectedGenre == genre {
        selectedGenre := "";
      } else {
        selectedGenre := genre;
      }
    }

    /** Choosing a star rating sets the minimum rating; nothing else changes. */
    method SelectRating(rating: int)
      modifies this
      ensures selectedRating == rating
      ensures searchTerm == old(searchTerm) && selectedGenre == old(selectedGenre)
      ensures myLibrary == old(myLibrary) && successMessage == old(successMessage)
      ensures isDetailsOpen == old(isDetailsOpen) && selectedBook == old(selectedBook)
    {
      selectedRating := rating;
    }

    /** The dialog's own open/close callback: only the open flag changes. */
    method SetDetailsOpen(open: bool)
      modifies this
      ensures isDetailsOpen == open
      ensures selectedBook == old(selectedBook)
      ensures searchTerm == old(searchTerm) && selectedGenre == old(selectedGenre)
      ensures selectedRating == old(selectedRating)
      ensures myLibrary == old(myLibrary) && successMessage == old(successMessage)
    {
      isDetailsOpen := open;
    }

    /** Opens the details dialog on `book`. */
    method ViewDetails(book: Book)
      modifies this
      ensures selectedBook == Some(book) && isDetailsOpen
      ensures searchTerm == old(searchTerm) && selectedGenre == old(selectedGenre)
      ensures selectedRating == old(selectedRating)
      ensures myLibrary == old(myLibrary) && successMessage == old(successMessage)
    {
      selectedBook := Some(book);
      isDetailsOpen := true;
    }
  }

  /**
   * Adding a book to an empty library, then adding it again, leaves exactly
   * that book; removing it twice leaves the library empty each time.
   */
  method AddRemoveScenario()
  {
    var home := new Home();
    home.AddToLibrary(Books[1]);
    assert home.myLibrary == [Books[1]];
    home.AddToLibrary(Books[1]);
    assert home.myLibrary == [Books[1]];
    home.RemoveFromLibrary(2);
    assert home.myLibrary == [];
    home.RemoveFromLibrary(2);
    assert home.myLibrary == [] && home.successMessage == RemovedMessage;
  }

  /**
   * A library holding a book with id 1 and then one with id 3: removing id 3
   * leaves the first book alone, and removing id 3 again changes nothing.
   */
  method RemoveScenario(gatsby: Book, orwell: Book)
    requires gatsby.id == 1 && orwell.id == 3
  {
    var home := new Home();
    home.AddToLibrary(gatsby);
    home.AddToLibrary(orwell);
    assert home.myLibrary == Added([gatsby], orwell) == [gatsby, orwell];
    RemoveUndoesAdd([gatsby], orwell);
    var lib := home.myLibrary;
    home.RemoveFromLibrary(3);
    assert home.myLibrary == Removed(lib, 3) == [gatsby];
    RemovedAbsentIsUnchanged([gatsby], 3);
    home.RemoveFromLibrary(3);
    assert home.myLibrary == Removed([gatsby], 3) == [gatsby];
  }

  /** Searching "orwell" after choosing a genre clears the genre and shows book 3 alone. */
  method SearchScenario()
  {
    var home := new Home();
    home.ToggleGenre("Romance");
    assert home.FilteredBooks() == [Books[3]] by { SelectRomance(); }
    home.HandleSearch("orwell");
    assert home.selectedGenre == "";
    assert home.FilteredBooks() == [Books[2]] by { SearchOrwell(); }
  }
}
