# Virtual Book Library — catalog filter and library store

This project models the domain core of the Virtual Book Library page
(`src/app/page.tsx`). The page lets a reader browse a fixed catalog of five
books. The reader narrows the catalog with a search term, a genre check-box and
a minimum star rating, and keeps a personal list ("My Library") of chosen
books.

The model has six modules:

- `Seqs` (`seqs.dfy`) gives the JavaScript runtime pieces the page relies on.
  `Keep` is `Array.prototype.filter`. `Distinct` is the iteration order of a
  `Set` built from an array. `IsSubsequence` is an independent definition of
  "deleted elements, order kept".
- `Text` (`text.dfy`) gives ASCII `toLowerCase` and `String.prototype.includes`.
  `IncludesIff` relates `Includes` to an occurrence position.
- `Catalog` (`catalog.dfy`) holds the `Book` record, the five-book catalog
  `Books` and the genre list `Genres()`.
- `Filter` (`filter.dfy`) holds the filter criteria, the per-book predicate and
  `FilterBooks`. Its lemmas prove that the filter is sound and complete and
  keeps catalog order. They also cover neutral criteria, case handling and the
  concrete searches.
- `Library` (`library.dfy`) gives the list values that the add and remove
  handlers compute: `Find`, `Added` and `Removed`. Its lemmas cover
  idempotence, id uniqueness, "remove keeps the others in order" and "remove
  undoes add".
- `Page` (`page.dfy`) holds the class `Home`. Its fields are the component's
  state: search term, selected genre, selected rating, library, selected book,
  details-open flag and success message. Its methods are the handlers. Each
  method states its complete new state in terms of the old state and the pure
  functions above. `FilteredBooks()` is a function of the current criteria,
  not a separate field.

Ratings are exact decimals (`real`). The selected rating is an integer star
count, compared as `rating >= selectedRating`. An empty term, an empty genre
and a zero rating each mean "no constraint".

`Filter.GenreMatches` and `Filter.RatingMatches` are the genre and rating
conditions of src/app/page.tsx:120 and 121 as written, and `Library.IdIsNot`
is the remove callback of src/app/page.tsx:136. Their meaning is stated by the
lemmas about the filter and about remove.

Two behaviours of the code are worth noting:

- The remove handler sets its success message every time, even when no entry
  had the id. A second removal therefore repeats the message.
- The stored library is read with `JSON.parse` without a guard. Malformed
  stored data would throw; the code does not fall back to an empty library.
  Persistence is not modelled (see below).

## Model

| member | source | states |
|---|---|---|
| Seqs.Keep | src/app/page.tsx:116-122 | `filter` never returns more elements than its input |
| Seqs.KeepMembership | src/app/page.tsx:116-122 | an element is kept exactly when it is in the input and passes the test |
| Seqs.KeepMultiset | src/app/page.tsx:116-122 | `filter` keeps every copy of a passing element and no copy of a failing one |
| Seqs.KeepAllPass | src/app/page.tsx:116-122 | every kept element passes the test |
| Seqs.KeepIsSubsequence | src/app/page.tsx:116-122 | `filter` keeps the relative order of the input |
| Seqs.KeepWhenAllPass | src/app/page.tsx:116-122 | when every element passes, `filter` returns the input unchanged |
| Seqs.KeepAgreeing | src/app/page.tsx:116-122 | two tests that agree on every element keep the same elements |
| Seqs.KeepAppend | src/app/page.tsx:136 | filtering a concatenation filters each part |
| Seqs.KeepIdempotent | src/app/page.tsx:136 | filtering twice with one test equals filtering once |
| Seqs.SubsequenceBounds | src/app/page.tsx:116 | a subsequence is no longer than its source and holds only its elements |
| Seqs.Distinct | src/app/page.tsx:70 | the de-duplicated list is no longer than its input |
| Seqs.DistinctSpec | src/app/page.tsx:70 | `new Set` keeps every input element exactly once, in order of first appearance |
| Text.LowerChar | src/app/page.tsx:117-119 | lower-casing maps `A`–`Z` to `a`–`z` (code point + 32) and keeps every other character |
| Text.ToLower | src/app/page.tsx:117-119 | `toLowerCase` keeps the length and lowers each character in place |
| Text.ToLowerHasNoUpper | src/app/page.tsx:117-119 | a lowered string contains no upper-case ASCII letter |
| Text.ToLowerIdempotent | src/app/page.tsx:117-119 | lowering twice equals lowering once |
| Text.IncludesIff | src/app/page.tsx:117-119 | `includes` holds exactly when the needle occurs at some position of the haystack |
| Text.Includes | src/app/page.tsx:117-119 | `includes` never holds for a needle longer than the haystack |
| Text.IncludesEmpty | src/app/page.tsx:117-119 | the empty string is included in every string |
| Text.IncludesOnlyItsCharacters | src/app/page.tsx:117-119 | an included string uses only characters of the haystack |
| Catalog.GenreColumn | src/app/page.tsx:70 | `books.map(book => book.genre)` has one genre per book, in order |
| Catalog.Genres | src/app/page.tsx:70 | the genre list holds exactly the catalog's genres, each once |
| Catalog.CatalogWellFormed | src/app/page.tsx:22-68 | catalog ids are pairwise distinct and every rating lies between 0 and 5 |
| Catalog.GenresSpec | src/app/page.tsx:70 | the genre list holds each catalog genre once, in order of first appearance, and nothing else |
| Catalog.GenreColumnOfCatalog | src/app/page.tsx:22-68 | the catalog's genres, book by book, are Classic, Fiction, Dystopian, Romance, Fiction |
| Catalog.GenresOfCatalog | src/app/page.tsx:70 | the genre check-boxes are Classic, Fiction, Dystopian, Romance |
| Filter.FilterBooks | src/app/page.tsx:116-122 | the shown list is no longer than the catalog |
| Filter.TermMatches | src/app/page.tsx:117-119 | a book matches the term exactly when the term is empty or its lowered form occurs at some position of the lowered title, author or genre |
| Filter.Matches | src/app/page.tsx:117-121 | neutral criteria match every book, and a matching book satisfies the term, genre and rating conditions |
| Filter.FilterSoundAndComplete | src/app/page.tsx:115-122 | a book is shown exactly when it is in the catalog and matches term, genre and rating |
| Filter.FilterShowsOnlyMatches | src/app/page.tsx:117-121 | every shown book satisfies each of the three predicates |
| Filter.FilterKeepsOrder | src/app/page.tsx:116 | the shown list is an order-preserving subsequence of the catalog |
| Filter.FilterNeutralShowsAll | src/app/page.tsx:117-121 | with term `''`, genre `''` and rating 0 the whole catalog is shown, as in the initial state |
| Filter.TermMatchIgnoresCase | src/app/page.tsx:117-119 | terms that lower-case to the same string match the same books |
| Filter.FilterIgnoresTermCase | src/app/page.tsx:117-119 | terms that differ only in letter case show the same list |
| Filter.FilterAfterSearch | src/app/page.tsx:141-145 | after a search resets genre and rating, a book is shown exactly when it is in the catalog and matches the term |
| Filter.FilterRatingMonotone | src/app/page.tsx:121 | raising the minimum rating can only hide books |
| Filter.TermMissesBook | src/app/page.tsx:117-119 | a term with a character absent from a book's lowered title, author and genre does not match it |
| Filter.FirstBooksLackW | src/app/page.tsx:22-40 | books 1 and 2 have no `w` in lowered title, author or genre |
| Filter.LastBooksLackW | src/app/page.tsx:50-67 | books 4 and 5 have no `w` in lowered title, author or genre |
| Filter.OrwellMatchesBookThree | src/app/page.tsx:117-119 | book 3 matches term "orwell" through its author "George Orwell" |
| Filter.OrwellMissesOtherBooks | src/app/page.tsx:117-119 | books 1, 2, 4 and 5 do not match term "orwell" |
| Filter.SearchOrwell | src/app/page.tsx:115-122 | term "orwell" shows exactly book 3 |
| Filter.SearchOrwellUpperCase | src/app/page.tsx:117-119 | term "ORWELL" also shows exactly book 3 |
| Filter.SelectRomance | src/app/page.tsx:120 | genre "Romance" shows exactly book 4 |
| Filter.SelectRomanceLowerCase | src/app/page.tsx:120 | the genre match is case-sensitive: genre "romance" shows nothing |
| Library.Find | src/app/page.tsx:127 | `find` by id returns an entry of the list with that id, and returns nothing exactly when no entry has it |
| Library.FindIsFirst | src/app/page.tsx:127 | the entry `find` returns is the first one with the id: every earlier entry has another id |
| Library.Added | src/app/page.tsx:126-131 | add appends the book when its id is absent and otherwise leaves the list unchanged |
| Library.Removed | src/app/page.tsx:136 | remove never lengthens the list |
| Library.AddedHasBook | src/app/page.tsx:126-131 | after an add, an entry with the book's id is present |
| Library.AddedIdempotent | src/app/page.tsx:126-131 | adding the same book twice equals adding it once |
| Library.AddedKeepsIdsUnique | src/app/page.tsx:127-128 | add keeps library ids pairwise distinct |
| Library.RemovedHasNoId | src/app/page.tsx:136 | after remove no entry has the id, and no new entry appears |
| Library.RemovedKeepsOthers | src/app/page.tsx:136 | remove keeps every entry with another id, in the original relative order |
| Library.RemovedCounts | src/app/page.tsx:136 | remove keeps every copy of each entry with another id and no entry with the removed id |
| Library.RemovedAbsentIsUnchanged | src/app/page.tsx:136 | removing an id that no entry has leaves the list unchanged |
| Library.RemovedIdempotent | src/app/page.tsx:136 | removing twice equals removing once |
| Library.RemovedKeepsIdsUnique | src/app/page.tsx:136 | remove keeps library ids pairwise distinct |
| Library.RemovedPresentDropsOne | src/app/page.tsx:136 | with distinct ids, removing a present id drops exactly one entry |
| Library.RemoveUndoesAdd | src/app/page.tsx:126-136 | adding a book whose id is absent and then removing that id restores the list |
| Library.SubsequenceKeepsIdsUnique | src/app/page.tsx:136 | an order-preserving subsequence of a list with distinct ids has distinct ids |
| Page.ToggledGenre | src/app/page.tsx:224 | clicking a genre check-box selects that genre or clears the selection, and it ends up selected exactly when it was not selected before |
| Page.ToggleTwiceRestores | src/app/page.tsx:224 | clicking the same check-box twice restores an empty or matching selection |
| Page.ToggleSwitchesGenre | src/app/page.tsx:224 | clicking a genre other than the selected one selects it |
| Page.Home.constructor | src/app/page.tsx:74-85 | the page starts with empty criteria, an empty library, no selected book, the dialog closed and no message, and shows the whole catalog |
| Page.Home.FilteredBooks | src/app/page.tsx:115-124 | the shown list holds exactly the catalog books that match the current criteria, in catalog order |
| Page.Home.AddToLibrary | src/app/page.tsx:126-133 | the library becomes `Added(old, book)`. An absent id appends the book and sets the added message. A present id leaves the library and message unchanged. The dialog is closed in both cases, the criteria are unchanged, and distinct ids stay distinct |
| Page.Home.RemoveFromLibrary | src/app/page.tsx:135-139 | the library becomes `Removed(old, id)`: exactly the old entries with another id. With distinct ids and the id present, exactly one entry goes. The removed message is set unconditionally, everything else is unchanged, and distinct ids stay distinct |
| Page.Home.HandleSearch | src/app/page.tsx:141-145 | the term is set, genre becomes `''` and rating 0, the shown books are exactly the catalog books matching the term, and nothing else changes |
| Page.Home.ToggleGenre | src/app/page.tsx:224 | the selected genre becomes `ToggledGenre(old, genre)` and nothing else changes |
| Page.Home.SelectRating | src/app/page.tsx:232 | the minimum rating is set and nothing else changes |
| Page.Home.ViewDetails | src/app/page.tsx:147-150 | the book is selected, the details dialog opens, and nothing else changes |
| Page.Home.SetDetailsOpen | src/app/page.tsx:299 | the dialog's own open/close sets only the open flag; the selected book, criteria, library and message are unchanged |

`Page.AddRemoveScenario`, `Page.RemoveScenario` and `Page.SearchScenario` are
client methods that run handler sequences and assert the outcomes:

- adding book 2 twice leaves `[book 2]`;
- removing id 3 from `[book 1, book 3]` leaves `[book 1]`, and removing it again changes nothing;
- choosing genre Romance shows book 4 alone, and a new search for "orwell" then clears the genre and shows book 3 alone.

## Left out

- Rendering, styling, the responsive menu, resize handling and the search-field focus state (src/app/page.tsx:87-94, 152-154 and the markup of 156-323) are presentation only. The handler calls that markup wires up (lines 195, 224, 232, 259, 285, 299 and 312) are modelled by the `Home` methods, including the details dialog's own close at line 299 (`Page.Home.SetDetailsOpen`).
- `localStorage` persistence of the library and of the current view (src/app/page.tsx:96-113) is not modelled. It is browser I/O and JSON serialisation, and the view selector `currentView` exists only for it and for rendering. The load also has no guard against malformed data.
- The three-second `setTimeout` that clears the success message (src/app/page.tsx:130, 138) is timer-driven. Only the setting of the message is modelled, not its clearing, and not the race between overlapping timers.
- React's effect scheduling is not modelled: `filteredBooks` is the function `FilteredBooks()` of the current criteria rather than a field synchronised by an effect.
- Text.ToLower: only ASCII letters are lower-cased. Full Unicode `toLowerCase` (other scripts, special casings) is not modelled.
- Page.Home.SelectRating: the radio group converts its string value with `Number(value)`. The model takes the resulting number as input, so the string-to-number parse is not modelled.
- Page.Home.AddToLibrary: the id-uniqueness invariant is stated as "kept if it held before", not as a precondition. The source demands nothing of its callers, and a library loaded from storage could break it.
- Page.RemoveScenario: the scenario is stated for any two books with ids 1 and 3, not for the catalog entries themselves. The catalog's long literal records make the solver too slow on this handler sequence. Book ids are all that remove and add look at.
