/** The stable sorts of the Rust and Python standard libraries, as a specification. */
module Sorting {
  import opened Sequences

  /** A total preorder: what a comparison key induces. */
  ghost predicate Ordering<T(!new)>(leq: (T, T) -> bool) {
    && (forall x, y :: leq(x, y) || leq(y, x))
    && (forall x, y, z :: leq(x, y) && leq(y, z) ==> leq(x, z))
  }

  predicate Sorted<T>(s: seq<T>, leq: (T, T) -> bool) {
    forall i, j | 0 <= i < j < |s| :: leq(s[i], s[j])
  }

  function InsertSorted<T>(x: T, s: seq<T>, leq: (T, T) -> bool): seq<T> {
    if s == [] || leq(x, s[0]) then [x] + s else [s[0]] + InsertSorted(x, s[1..], leq)
  }

  /** Equal elements keep their order. */
  function SortBy<T>(s: seq<T>, leq: (T, T) -> bool): seq<T> {
    if s == [] then [] else InsertSorted(s[0], SortBy(s[1..], leq), leq)
  }

  lemma {:induction false} InsertSortedPermutes<T>(x: T, s: seq<T>, leq: (T, T) -> bool)
    ensures multiset(InsertSorted(x, s, leq)) == multiset{x} + multiset(s)
  {
    if s != [] && !leq(x, s[0]) {
      InsertSortedPermutes(x, s[1..], leq);
      assert s == [s[0]] + s[1..];
    }
  }

  lemma {:induction false} InsertSortedSorted<T(!new)>(x: T, s: seq<T>, leq: (T, T) -> bool)
    requires Ordering(leq) && Sorted(s, leq)
    ensures Sorted(InsertSorted(x, s, leq), leq)
  {
    if s != [] && !leq(x, s[0]) {
      InsertSortedSorted(x, s[1..], leq);
      InsertSortedPermutes(x, s[1..], leq);
      var rest := InsertSorted(x, s[1..], leq);
      forall j | 0 <= j < |rest|
        ensures leq(s[0], rest[j])
      {
        assert rest[j] in multiset(rest);
        assert rest[j] == x || rest[j] in s[1..];
      }
    }
  }

  lemma {:induction false} SortByPermutes<T>(s: seq<T>, leq: (T, T) -> bool)
    ensures multiset(SortBy(s, leq)) == multiset(s)
    ensures |SortBy(s, leq)| == |s|
  {
    if s != [] {
      SortByPermutes(s[1..], leq);
      InsertSortedPermutes(s[0], SortBy(s[1..], leq), leq);
      assert s == [s[0]] + s[1..];
    }
    assert |multiset(SortBy(s, leq))| == |multiset(s)|;
  }

  lemma {:induction false} SortBySorted<T(!new)>(s: seq<T>, leq: (T, T) -> bool)
    requires Ordering(leq)
    ensures Sorted(SortBy(s, leq), leq)
  {
    if s != [] {
      SortBySorted(s[1..], leq);
      InsertSortedSorted(s[0], SortBy(s[1..], leq), leq);
    }
  }

  lemma {:induction false} InsertSortedStable<T(!new)>(x: T, s: seq<T>, leq: (T, T) -> bool, p: T -> bool)
    requires forall y, z :: p(y) && p(z) ==> leq(y, z)
    ensures Filter(InsertSorted(x, s, leq), p) == (if p(x) then [x] else []) + Filter(s, p)
  {
    if s == [] || leq(x, s[0]) {
      assert ([x] + s)[1..] == s;
    } else {
      var rest := InsertSorted(x, s[1..], leq);
      InsertSortedStable(x, s[1..], leq, p);
      assert ([s[0]] + rest)[1..] == rest;
      assert [] + Filter(s[1..], p) == Filter(s[1..], p) && [] + Filter(s, p) == Filter(s, p);
      assert !(p(x) && p(s[0]));
    }
  }

  /** Elements that compare as equal keep their order. */
  lemma {:induction false} SortByStable<T(!new)>(s: seq<T>, leq: (T, T) -> bool, p: T -> bool)
    requires forall y, z :: p(y) && p(z) ==> leq(y, z)
    ensures Filter(SortBy(s, leq), p) == Filter(s, p)
  {
    if s != [] {
      SortByStable(s[1..], leq, p);
      InsertSortedStable(s[0], SortBy(s[1..], leq), leq, p);
    }
  }

  /** Under an antisymmetric ordering there is one sorted permutation, so any correct sort,
      stable or not, returns it. */
  lemma {:induction false} SortedUnique<T(!new)>(s: seq<T>, t: seq<T>, leq: (T, T) -> bool)
    requires Ordering(leq)
    requires forall x, y :: leq(x, y) && leq(y, x) ==> x == y
    requires Sorted(s, leq) && Sorted(t, leq) && multiset(s) == multiset(t)
    ensures s == t
  {
    SameLength(s, t);
    if s != [] {
      SameFirst(s, t, leq);
      SameRest(s, t);
      SortedTail(s, leq);
      SortedTail(t, leq);
      SortedUnique(s[1..], t[1..], leq);
    }
  }

  lemma SameLength<T>(s: seq<T>, t: seq<T>)
    requires multiset(s) == multiset(t)
    ensures |s| == |t|
  {
    assert |s| == |multiset(s)| && |t| == |multiset(t)|;
  }

  /** Equal first elements leave the same elements, and sequences that differ in the rest only. */
  lemma SameRest<T>(s: seq<T>, t: seq<T>)
    requires s != [] && t != [] && s[0] == t[0] && multiset(s) == multiset(t)
    ensures multiset(s[1..]) == multiset(t[1..])
    ensures s[1..] == t[1..] ==> s == t
  {
    DropFirst(s);
    DropFirst(t);
    assert s == [s[0]] + s[1..] && t == [t[0]] + t[1..];
  }

  lemma SortedTail<T>(s: seq<T>, leq: (T, T) -> bool)
    requires Sorted(s, leq) && s != []
    ensures Sorted(s[1..], leq)
  {}

  lemma SameFirst<T(!new)>(s: seq<T>, t: seq<T>, leq: (T, T) -> bool)
    requires Ordering(leq)
    requires forall x, y :: leq(x, y) && leq(y, x) ==> x == y
    requires Sorted(s, leq) && Sorted(t, leq) && s != [] && t != [] && multiset(s) == multiset(t)
    ensures s[0] == t[0]
  {
    FirstLeast(s, t, leq);
    FirstLeast(t, s, leq);
  }

  lemma FirstLeast<T(!new)>(s: seq<T>, t: seq<T>, leq: (T, T) -> bool)
    requires Ordering(leq) && Sorted(s, leq)
    requires s != [] && t != [] && multiset(s) == multiset(t)
    ensures leq(s[0], t[0])
  {
    assert t[0] in multiset(s);
    var i :| 0 <= i < |s| && s[i] == t[0];
    assert leq(s[0], s[0]);
  }

  lemma DropFirst<T>(s: seq<T>)
    requires s != []
    ensures multiset(s[1..]) == multiset(s) - multiset{s[0]}
  {
    assert s == [s[0]] + s[1..];
  }
}
