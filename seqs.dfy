/**
 * Sequence operations that the page relies on from the JavaScript runtime:
 * `Array.prototype.filter` (Keep) and the iteration order of a `Set` built
 * from an array (Distinct), with the properties the page depends on.
 */
module Seqs {

  /** `s.filter(p)`: the elements of `s` that satisfy `p`, left to right. */
  function Keep<T>(s: seq<T>, p: T -> bool): (r: seq<T>)
    ensures |r| <= |s|
  {
    if s == [] then []
    else if p(s[0]) then [s[0]] + Keep(s[1..], p)
    else Keep(s[1..], p)
  }

  /** `r` is obtained from `s` by deleting elements, without reordering. */
  ghost predicate IsSubsequence<T>(r: seq<T>, s: seq<T>)
    decreases |s|
  {
    r == [] ||
    (s != [] &&
     ((r[0] == s[0] && IsSubsequence(r[1..], s[1..])) || IsSubsequence(r, s[1..])))
  }

  /** No element occurs twice. */
  ghost predicate NoDuplicates<T>(s: seq<T>)
  {
    forall i, j :: 0 <= i < j < |s| ==> s[i] != s[j]
  }

  /** An element is kept exactly when it is in the input and passes the test. */
  lemma {:induction false} KeepMembership<T>(s: seq<T>, p: T -> bool, x: T)
    ensures x in Keep(s, p) <==> x in s && p(x)
  {
    if s != [] {
      KeepMembership(s[1..], p, x);
      assert s == [s[0]] + s[1..];
    }
  }

  /** Each passing element is kept as often as it occurs; a failing one not at all. */
  lemma {:induction false} KeepMultiset<T>(s: seq<T>, p: T -> bool)
    ensures forall x :: multiset(Keep(s, p))[x] == if p(x) then multiset(s)[x] else 0
  {
    if s != [] {
      KeepMultiset(s[1..], p);
      assert s == [s[0]] + s[1..];
      assert multiset(s) == multiset([s[0]]) + multiset(s[1..]);
      if p(s[0]) {
        assert multiset(Keep(s, p)) == multiset([s[0]]) + multiset(Keep(s[1..], p));
      }
    }
  }

  /** Every kept element passes the test. */
  lemma {:induction false} KeepAllPass<T>(s: seq<T>, p: T -> bool)
    ensures forall i :: 0 <= i < |Keep(s, p)| ==> p(Keep(s, p)[i])
  {
    forall i | 0 <= i < |Keep(s, p)| ensures p(Keep(s, p)[i]) {
      KeepMembership(s, p, Keep(s, p)[i]);
    }
  }

  /** Filtering keeps the relative order of what it keeps. */
  lemma {:induction false} KeepIsSubsequence<T>(s: seq<T>, p: T -> bool)
    ensures IsSubsequence(Keep(s, p), s)
  {
    if s != [] {
      KeepIsSubsequence(s[1..], p);
      if p(s[0]) {
        var r := Keep(s, p);
        assert r[0] == s[0] && r[1..] == Keep(s[1..], p);
      }
    }
  }

  /** When every element passes, filtering returns the input unchanged. */
  lemma {:induction false} KeepWhenAllPass<T>(s: seq<T>, p: T -> bool)
    requires forall x :: x in s ==> p(x)
    ensures Keep(s, p) == s
  {
    if s != [] {
      assert forall x :: x in s[1..] ==> x in s;
      KeepWhenAllPass(s[1..], p);
      assert s == [s[0]] + s[1..];
    }
  }

  /** Filtering a concatenation filters each part. */
  lemma {:induction false} KeepAppend<T>(a: seq<T>, b: seq<T>, p: T -> bool)
    ensures Keep(a + b, p) == Keep(a, p) + Keep(b, p)
  {
    if a != [] {
      assert (a + b)[0] == a[0];
      assert (a + b)[1..] == a[1..] + b;
      KeepAppend(a[1..], b, p);
    } else {
      assert a + b == b;
    }
  }

  /** Two tests that agree on every element keep the same elements. */
  lemma {:induction false} KeepAgreeing<T>(s: seq<T>, p: T -> bool, q: T -> bool)
    requires forall x :: x in s ==> p(x) == q(x)
    ensures Keep(s, p) == Keep(s, q)
  {
    if s != [] {
      assert forall x :: x in s[1..] ==> x in s;
      KeepAgreeing(s[1..], p, q);
    }
  }

  /** Filtering twice with the same test is filtering once. */
  lemma KeepIdempotent<T>(s: seq<T>, p: T -> bool)
    ensures Keep(Keep(s, p), p) == Keep(s, p)
  {
    forall x | x in Keep(s, p) ensures p(x) {
      KeepMembership(s, p, x);
    }
    KeepWhenAllPass(Keep(s, p), p);
  }

  /** A subsequence is no longer than what it was taken from and holds only its elements. */
  lemma {:induction false} SubsequenceBounds<T>(r: seq<T>, s: seq<T>)
    requires IsSubsequence(r, s)
    ensures |r| <= |s|
    ensures forall x :: x in r ==> x in s
    decreases |s|
  {
    if r != [] {
      if r[0] == s[0] && IsSubsequence(r[1..], s[1..]) {
        SubsequenceBounds(r[1..], s[1..]);
        assert r == [r[0]] + r[1..];
        assert s == [s[0]] + s[1..];
      } else {
        SubsequenceBounds(r, s[1..]);
        assert s == [s[0]] + s[1..];
      }
    }
  }

  /**
   * The elements of `s` without repeats, in order of first appearance: the
   * iteration order of `new Set(s)`.
   */
  function Distinct<T(==)>(s: seq<T>): (r: seq<T>)
    ensures |r| <= |s|
  {
    if s == [] then []
    else
      var d := Distinct(s[..|s| - 1]);
      if s[|s| - 1] in d then d else d + [s[|s| - 1]]
  }

  /** For any two results, every occurrence in `s` of the later one is preceded by the earlier one. */
  ghost predicate InFirstAppearanceOrder<T>(r: seq<T>, s: seq<T>)
  {
    forall i, j, k :: 0 <= i < j < |r| && 0 <= k < |s| && s[k] == r[j] ==> r[i] in s[..k]
  }

  /** Distinct holds every element of its input once, in order of first appearance. */
  lemma {:induction false} DistinctSpec<T>(s: seq<T>)
    ensures forall x :: x in Distinct(s) ==> x in s
    ensures forall x :: x in s ==> x in Distinct(s)
    ensures NoDuplicates(Distinct(s))
    ensures InFirstAppearanceOrder(Distinct(s), s)
  {
    if s != [] {
      var p := s[..|s| - 1];
      var x := s[|s| - 1];
      var d := Distinct(p);
      DistinctSpec(p);
      assert s == p + [x];
      var r := Distinct(s);
      forall i, j, k | 0 <= i < j < |r| && 0 <= k < |s| && s[k] == r[j]
        ensures r[i] in s[..k]
      {
        if k == |s| - 1 {
          // The element occurring last was seen before only if the earlier one was.
          assert s[..k] == p;
          assert r[i] == d[i] && d[i] in d;
          assert d[i] in p;
        } else {
          assert s[k] == p[k];
          if j < |d| {
            assert r[i] == d[i] && r[j] == d[j];
            assert p[k] == d[j];
            assert d[i] in p[..k];
            assert p[..k] == s[..k];
            assert r[i] in s[..k];
          } else {
            // x was new, so it cannot occur earlier in s.
            assert false;
          }
        }
      }
    }
  }
}
