/**
 Stable sorting (`slice::sort_by`): the result is sorted, a permutation, and for an order
 that tells elements apart the only such sequence.
 */
module Sorting {

  ghost predicate TotalPreorder<T(!new)>(le: (T, T) -> bool) {
    && (forall a, b :: le(a, b) || le(b, a))
    && (forall a, b, c :: le(a, b) && le(b, c) ==> le(a, c))
  }

  ghost predicate Antisymmetric<T(!new)>(le: (T, T) -> bool) {
    forall a, b :: le(a, b) && le(b, a) ==> a == b
  }

  predicate Sorted<T>(le: (T, T) -> bool, s: seq<T>) {
    forall i, j :: 0 <= i < j < |s| ==> le(s[i], s[j])
  }

  /** `x` put after the last element that is not above it. */
  function Insert<T>(le: (T, T) -> bool, s: seq<T>, x: T): seq<T> {
    if s == [] || le(s[|s| - 1], x) then s + [x]
    else Insert(le, s[..|s| - 1], x) + [s[|s| - 1]]
  }

  function SortBy<T>(le: (T, T) -> bool, s: seq<T>): seq<T> {
    if s == [] then [] else Insert(le, SortBy(le, s[..|s| - 1]), s[|s| - 1])
  }

  lemma {:induction false} InsertMultiset<T>(le: (T, T) -> bool, s: seq<T>, x: T)
    ensures multiset(Insert(le, s, x)) == multiset(s) + multiset{x}
  {
    if s != [] && !le(s[|s| - 1], x) {
      InsertMultiset(le, s[..|s| - 1], x);
      assert s == s[..|s| - 1] + [s[|s| - 1]];
    }
  }

  lemma {:induction false} InsertSorted<T(!new)>(le: (T, T) -> bool, s: seq<T>, x: T)
    requires TotalPreorder(le) && Sorted(le, s)
    ensures Sorted(le, Insert(le, s, x))
  {
    if s == [] || le(s[|s| - 1], x) {
      forall i | 0 <= i < |s| ensures le(s[i], x) {
        if i < |s| - 1 { assert le(s[i], s[|s| - 1]); }
      }
    } else {
      var init, last := s[..|s| - 1], s[|s| - 1];
      InsertSorted(le, init, x);
      var r := Insert(le, init, x);
      InsertMultiset(le, init, x);
      forall i | 0 <= i < |r| ensures le(r[i], last) {
        assert r[i] in multiset(init) + multiset{x};
        if r[i] in init {
          var j :| 0 <= j < |init| && init[j] == r[i];
          assert le(s[j], last);
        }
      }
    }
  }

  lemma {:induction false} SortByCorrect<T(!new)>(le: (T, T) -> bool, s: seq<T>)
    requires TotalPreorder(le)
    ensures Sorted(le, SortBy(le, s)) && multiset(SortBy(le, s)) == multiset(s)
  {
    hide TotalPreorder, Sorted, Insert, SortBy;
    if s == [] {
      SortNothing(le);
    } else {
      var init, last := s[..|s| - 1], s[|s| - 1];
      SortByCorrect(le, init);
      InsertSorted(le, SortBy(le, init), last);
      InsertMultiset(le, SortBy(le, init), last);
      assert s == init + [last];
      SortStep(le, s);
    }
  }

  lemma SortNothing<T>(le: (T, T) -> bool)
    ensures SortBy(le, []) == [] && Sorted(le, [])
  {}

  lemma SortStep<T>(le: (T, T) -> bool, s: seq<T>)
    requires s != []
    ensures SortBy(le, s) == Insert(le, SortBy(le, s[..|s| - 1]), s[|s| - 1])
  {
    hide Insert;
  }

  lemma HeadIsLeast<T(!new)>(le: (T, T) -> bool, s: seq<T>, x: T)
    requires TotalPreorder(le) && Sorted(le, s) && s != [] && x in multiset(s)
    ensures le(s[0], x)
  {
    var i :| 0 <= i < |s| && s[i] == x;
    if i > 0 { assert le(s[0], s[i]); } else { assert le(x, x); }
  }

  lemma TailMultiset<T>(s: seq<T>)
    requires s != []
    ensures multiset(s[1..]) == multiset(s) - multiset{s[0]} && s[0] in multiset(s) && s == [s[0]] + s[1..]
  {
    assert s == [s[0]] + s[1..];
  }

  lemma TailSorted<T>(le: (T, T) -> bool, s: seq<T>)
    requires s != [] && Sorted(le, s)
    ensures Sorted(le, s[1..])
  {}

  /** Two sorted sequences with the same elements are equal when the order tells elements apart. */
  lemma {:induction false} SortedUnique<T(!new)>(le: (T, T) -> bool, s: seq<T>, t: seq<T>)
    requires TotalPreorder(le) && Antisymmetric(le)
    requires Sorted(le, s) && Sorted(le, t) && multiset(s) == multiset(t)
    ensures s == t
  {
    hide TotalPreorder, Sorted;
    assert |s| == |multiset(s)| == |multiset(t)| == |t|;
    if s != [] {
      TailMultiset(s);
      TailMultiset(t);
      HeadIsLeast(le, s, t[0]);
      HeadIsLeast(le, t, s[0]);
      TailSorted(le, s);
      TailSorted(le, t);
      SortedUnique(le, s[1..], t[1..]);
    }
  }

  /** Sorting forgets the order it was given. */
  lemma SortForgetsOrder<T(!new)>(le: (T, T) -> bool, s: seq<T>, t: seq<T>)
    requires TotalPreorder(le) && Antisymmetric(le) && multiset(s) == multiset(t)
    ensures SortBy(le, s) == SortBy(le, t)
  {
    SortByCorrect(le, s);
    SortByCorrect(le, t);
    SortedUnique(le, SortBy(le, s), SortBy(le, t));
  }
}
