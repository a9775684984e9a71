/**
 * The fixed book catalog of the page and the list of genres offered as
 * filter check-boxes.
 */
module Catalog {
  import opened Seqs

  /** A catalog record. Ratings are decimals between 0 and 5, kept exact as `real`. */
  datatype Book = Book(
    id: int,
    title: string,
    author: string,
    genre: string,
    rating: real,
    description: string,
    publicationYear: int)

  /** The five books of the catalog, in display order. */
  const Books: seq<Book> := [
    Book(1, "The Great Gatsby", "F. Scott Fitzgerald", "Classic", 4.7,
      "A novel set in the Jazz Age that explores themes of wealth, love, and the American Dream.", 1925),
    Book(2, "To Kill a Mockingbird", "Harper Lee", "Fiction", 4.8,
      "A timeless novel of a child's moral awakening and a poignant tale of race and justice in the American South.", 1960),
    Book(3, "1984", "George Orwell", "Dystopian", 4.6,
      "A dystopian social science fiction novel and cautionary tale about the dangers of totalitarianism.", 1949),
    Book(4, "Pride and Prejudice", "Jane Austen", "Romance", 4.9,
      "A romantic novel that also serves as a social commentary on the British landed gentry of the early 19th century.", 1813),
    Book(5, "The Catcher in the Rye", "J.D. Salinger", "Fiction", 4.3,
      "A story about a young boy's journey through the challenges of adolescence.", 1951)
  ]

  /** No two entries share an `id`. */
  ghost predicate UniqueIds(s: seq<Book>)
  {
    forall i, j :: 0 <= i < j < |s| ==> s[i].id != s[j].id
  }

  /** `books.map(book => book.genre)`. */
  function GenreColumn(s: seq<Book>): (r: seq<string>)
    ensures |r| == |s|
    ensures forall i :: 0 <= i < |s| ==> r[i] == s[i].genre
  {
    if s == [] then [] else [s[0].genre] + GenreColumn(s[1..])
  }

  /** `Array.from(new Set(books.map(book => book.genre)))`. */
  function Genres(): (r: seq<string>)
    ensures forall g :: g in r ==> g in GenreColumn(Books)
    ensures forall g :: g in GenreColumn(Books) ==> g in r
    ensures NoDuplicates(r)
  {
    DistinctSpec(GenreColumn(Books));
    Distinct(GenreColumn(Books))
  }

  /** Catalog ids are unique, and every rating lies between 0 and 5. */
  lemma CatalogWellFormed()
    ensures UniqueIds(Books)
    ensures forall b :: b in Books ==> 0.0 <= b.rating <= 5.0
  {
  }

  /**
   * The genre list offers each catalog genre exactly once, in order of first
   * appearance in the catalog.
   */
  lemma GenresSpec()
    ensures forall g :: g in Genres() ==> exists b :: b in Books && b.genre == g
    ensures forall b :: b in Books ==> b.genre in Genres()
    ensures NoDuplicates(Genres())
    ensures InFirstAppearanceOrder(Genres(), GenreColumn(Books))
  {
    var col := GenreColumn(Books);
    DistinctSpec(col);
    forall g | g in Genres() ensures exists b :: b in Books && b.genre == g {
      var i :| 0 <= i < |col| && col[i] == g;
      assert Books[i] in Books;
    }
    forall b | b in Books ensures b.genre in Genres() {
      var i :| 0 <= i < |Books| && Books[i] == b;
      assert col[i] in col;
    }
  }

  /** The genre column of the catalog, one entry per book. */
  lemma GenreColumnOfCatalog()
    ensures GenreColumn(Books) == ["Classic", "Fiction", "Dystopian", "Romance", "Fiction"]
  {
  }

  /** For this catalog the genre list is Classic, Fiction, Dystopian, Romance. */
  lemma GenresOfCatalog()
    ensures Genres() == ["Classic", "Fiction", "Dystopian", "Romance"]
  {
    GenreColumnOfCatalog();
    var col: seq<string> := ["Classic", "Fiction", "Dystopian", "Romance", "Fiction"];
    assert col[..1][..0] == [];
    assert Distinct(col[..1]) == ["Classic"];
    assert col[..2][..1] == col[..1];
    assert Distinct(col[..2]) == ["Classic", "Fiction"];
    assert col[..3][..2] == col[..2];
    assert Distinct(col[..3]) == ["Classic", "Fiction", "Dystopian"];
    assert col[..4][..3] == col[..3];
    assert Distinct(col[..4]) == ["Classic", "Fiction", "Dystopian", "Romance"];
    assert col[..4] == col[..|col| - 1];
  }
}
