/**
 * The personal library list ("My Library"): the values the page's add and
 * remove handlers compute for the new list.
 */
module Library {
  import opened Seqs
  import opened Catalog

  datatype Option<T> = None | Some(value: T)

  /** `lib.find(b => b.id === id)`: the first entry with that id, if any. */
  function Find(lib: seq<Book>, id: int): (r: Option<Book>)
    ensures r.Some? ==> r.value in lib && r.value.id == id
    ensures r.None? <==> forall b :: b in lib ==> b.id != id
  {
    if lib == [] then None
    else if lib[0].id == id then Some(lib[0])
    else Find(lib[1..], id)
  }

  /** `Find` returns the first entry with the id: every entry before it has another id. */
  lemma {:induction false} FindIsFirst(lib: seq<Book>, id: int)
    ensures Find(lib, id).Some? ==>
      exists k :: 0 <= k < |lib| && lib[k] == Find(lib, id).value &&
        forall j :: 0 <= j < k ==> lib[j].id != id
  {
    if lib != [] && lib[0].id != id && Find(lib, id).Some? {
      FindIsFirst(lib[1..], id);
      var k :| 0 <= k < |lib[1..]| && lib[1..][k] == Find(lib, id).value &&
        forall j :: 0 <= j < k ==> lib[1..][j].id != id;
      assert lib[k + 1] == Find(lib, id).value;
      forall j | 0 <= j < k + 1 ensures lib[j].id != id {
        if j > 0 { assert lib[j] == lib[1..][j - 1]; }
      }
    } else if lib != [] && lib[0].id == id {
      assert lib[0] == Find(lib, id).value;
    }
  }

  /** The list after adding `book`: appended when its id is absent, otherwise unchanged. */
  function Added(lib: seq<Book>, book: Book): (r: seq<Book>)
    ensures (forall b :: b in lib ==> b.id != book.id) ==> r == lib + [book]
    ensures (exists b :: b in lib && b.id == book.id) ==> r == lib
  {
    if Find(lib, book.id).None? then lib + [book] else lib
  }

  /** The callback handed to `filter` by the remove handler. */
  function IdIsNot(id: int): Book -> bool
  {
    (b: Book) => b.id != id
  }

  /** `lib.filter(book => book.id !== id)`. */
  function Removed(lib: seq<Book>, id: int): (r: seq<Book>)
    ensures |r| <= |lib|
  {
    Keep(lib, IdIsNot(id))
  }

  /** After an add, an entry with the book's id is present. */
  lemma AddedHasBook(lib: seq<Book>, book: Book)
    ensures exists b :: b in Added(lib, book) && b.id == book.id
  {
    if Find(lib, book.id).None? {
      assert book in Added(lib, book);
    }
  }

  /** Adding the same book twice gives the same list as adding it once. */
  lemma AddedIdempotent(lib: seq<Book>, book: Book)
    ensures Added(Added(lib, book), book) == Added(lib, book)
  {
    AddedHasBook(lib, book);
  }

  /** Adding keeps the library's ids pairwise distinct. */
  lemma AddedKeepsIdsUnique(lib: seq<Book>, book: Book)
    requires UniqueIds(lib)
    ensures UniqueIds(Added(lib, book))
  {
    var r := Added(lib, book);
    if Find(lib, book.id).None? {
      forall i, j | 0 <= i < j < |r| ensures r[i].id != r[j].id {
        if j == |lib| {
          assert r[i] == lib[i] && lib[i] in lib;
        }
      }
    }
  }

  /** No entry with the removed id is left, and nothing new appears. */
  lemma {:induction false} RemovedHasNoId(lib: seq<Book>, id: int)
    ensures forall b :: b in Removed(lib, id) ==> b in lib && b.id != id
  {
    forall b | b in Removed(lib, id) ensures b in lib && b.id != id {
      KeepMembership(lib, IdIsNot(id), b);
    }
  }

  /** Every entry with a different id is kept, in the original relative order. */
  lemma {:induction false} RemovedKeepsOthers(lib: seq<Book>, id: int)
    ensures forall b :: b in lib && b.id != id ==> b in Removed(lib, id)
    ensures IsSubsequence(Removed(lib, id), lib)
  {
    forall b | b in lib && b.id != id ensures b in Removed(lib, id) {
      KeepMembership(lib, IdIsNot(id), b);
    }
    KeepIsSubsequence(lib, IdIsNot(id));
  }

  /** Every entry with another id keeps all its copies; entries with the id are all gone. */
  lemma {:induction false} RemovedCounts(lib: seq<Book>, id: int)
    ensures forall b :: multiset(Removed(lib, id))[b] == if b.id != id then multiset(lib)[b] else 0
  {
    KeepMultiset(lib, IdIsNot(id));
  }

  /** Removing an id that no entry has leaves the list unchanged. */
  lemma {:induction false} RemovedAbsentIsUnchanged(lib: seq<Book>, id: int)
    requires forall b :: b in lib ==> b.id != id
    ensures Removed(lib, id) == lib
  {
    KeepWhenAllPass(lib, IdIsNot(id));
  }

  /** Removing twice is removing once. */
  lemma {:induction false} RemovedIdempotent(lib: seq<Book>, id: int)
    ensures Removed(Removed(lib, id), id) == Removed(lib, id)
  {
    KeepIdempotent(lib, IdIsNot(id));
  }

  /** Removing keeps the library's ids pairwise distinct. */
  lemma {:induction false} RemovedKeepsIdsUnique(lib: seq<Book>, id: int)
    requires UniqueIds(lib)
    ensures UniqueIds(Removed(lib, id))
  {
    var r := Removed(lib, id);
    KeepIsSubsequence(lib, IdIsNot(id));
    SubsequenceKeepsIdsUnique(r, lib);
  }

  /** With distinct ids, removing a present id removes exactly one entry. */
  lemma {:induction false} RemovedPresentDropsOne(lib: seq<Book>, id: int)
    requires UniqueIds(lib)
    requires exists b :: b in lib && b.id == id
    ensures |Removed(lib, id)| == |lib| - 1
  {
    assert lib != [];
    var rest := lib[1..];
    assert UniqueIds(rest) by {
      forall i, j | 0 <= i < j < |rest| ensures rest[i].id != rest[j].id {
        assert rest[i] == lib[i + 1] && rest[j] == lib[j + 1];
      }
    }
    if lib[0].id == id {
      forall b | b in rest ensures b.id != id {
        var k :| 0 <= k < |rest| && rest[k] == b;
        assert rest[k] == lib[k + 1];
      }
      RemovedAbsentIsUnchanged(rest, id);
    } else {
      var b :| b in lib && b.id == id;
      assert b in rest by {
        assert lib == [lib[0]] + rest;
      }
      RemovedPresentDropsOne(rest, id);
    }
  }

  /** Adding a book that is absent and then removing its id restores the list. */
  lemma {:induction false} RemoveUndoesAdd(lib: seq<Book>, book: Book)
    requires forall b :: b in lib ==> b.id != book.id
    ensures Removed(Added(lib, book), book.id) == lib
  {
    KeepAppend(lib, [book], IdIsNot(book.id));
    KeepWhenAllPass(lib, IdIsNot(book.id));
    assert Keep([book], IdIsNot(book.id)) == [];
    assert lib + [] == lib;
  }

  /** A subsequence of a list with distinct ids has distinct ids. */
  lemma {:induction false} SubsequenceKeepsIdsUnique(r: seq<Book>, s: seq<Book>)
    requires IsSubsequence(r, s) && UniqueIds(s)
    ensures UniqueIds(r)
    decreases |s|
  {
    if r != [] {
      assert UniqueIds(s[1..]) by {
        forall i, j | 0 <= i < j < |s[1..]| ensures s[1..][i].id != s[1..][j].id {
          assert s[1..][i] == s[i + 1] && s[1..][j] == s[j + 1];
        }
      }
      if r[0] == s[0] && IsSubsequence(r[1..], s[1..]) {
        SubsequenceKeepsIdsUnique(r[1..], s[1..]);
        SubsequenceBounds(r[1..], s[1..]);
        forall i, j | 0 <= i < j < |r| ensures r[i].id != r[j].id {
          if i == 0 {
            assert r[j] == r[1..][j - 1];
            assert r[j] in s[1..];
            var k :| 0 <= k < |s[1..]| && s[1..][k] == r[j];
            assert s[k + 1] == r[j];
          } else {
            assert r[i] == r[1..][i - 1] && r[j] == r[1..][j - 1];
          }
        }
      } else {
        SubsequenceKeepsIdsUnique(r, s[1..]);
      }
    }
  }
}
