/** Python's stable `sorted(xs, key=...)` on integer keys. */
module Sorting {

  /** `x` goes after every element whose key is not larger. */
  function InsertBy<T>(xs: seq<T>, x: T, key: T -> int): seq<T> {
    if xs == [] || key(xs[|xs| - 1]) <= key(x) then xs + [x]
    else InsertBy(xs[..|xs| - 1], x, key) + [xs[|xs| - 1]]
  }

  function SortBy<T>(xs: seq<T>, key: T -> int): seq<T> {
    if xs == [] then [] else InsertBy(SortBy(xs[..|xs| - 1], key), xs[|xs| - 1], key)
  }

  predicate Ascending<T>(xs: seq<T>, key: T -> int) {
    forall i, j | 0 <= i < j < |xs| :: key(xs[i]) <= key(xs[j])
  }

  predicate Strict<T>(xs: seq<T>, key: T -> int) {
    forall i, j | 0 <= i < j < |xs| :: key(xs[i]) < key(xs[j])
  }

  predicate DistinctKeys<T>(xs: seq<T>, key: T -> int) {
    forall i, j | 0 <= i < j < |xs| :: key(xs[i]) != key(xs[j])
  }

  function Map<T, U>(f: T -> U, xs: seq<T>): (ys: seq<U>)
    ensures |ys| == |xs| && forall i | 0 <= i < |xs| :: ys[i] == f(xs[i])
  {
    if xs == [] then [] else Map(f, xs[..|xs| - 1]) + [f(xs[|xs| - 1])]
  }

  lemma {:induction false} InsertByContents<T>(xs: seq<T>, x: T, key: T -> int)
    ensures multiset(InsertBy(xs, x, key)) == multiset(xs) + multiset{x}
  {
    if xs != [] && key(xs[|xs| - 1]) > key(x) {
      var front := xs[..|xs| - 1];
      InsertByContents(front, x, key);
      assert xs == front + [xs[|xs| - 1]];
    }
  }

  lemma {:induction false} InsertByAscending<T>(xs: seq<T>, x: T, key: T -> int)
    requires Ascending(xs, key)
    ensures Ascending(InsertBy(xs, x, key), key)
  {
    if xs != [] && key(xs[|xs| - 1]) > key(x) {
      var front, last := xs[..|xs| - 1], xs[|xs| - 1];
      InsertByAscending(front, x, key);
      InsertByContents(front, x, key);
      var inner := InsertBy(front, x, key);
      forall i | 0 <= i < |inner|
        ensures key(inner[i]) <= key(last)
      {
        assert inner[i] in multiset(inner);
        assert inner[i] in front || inner[i] == x;
      }
    }
  }

  lemma {:induction false} SortKeepsContents<T>(xs: seq<T>, key: T -> int)
    ensures multiset(SortBy(xs, key)) == multiset(xs)
  {
    if xs != [] {
      var front := xs[..|xs| - 1];
      SortKeepsContents(front, key);
      InsertByContents(SortBy(front, key), xs[|xs| - 1], key);
      assert xs == front + [xs[|xs| - 1]];
    }
  }

  lemma {:induction false} SortIsSorted<T>(xs: seq<T>, key: T -> int)
    ensures multiset(SortBy(xs, key)) == multiset(xs)
    ensures Ascending(SortBy(xs, key), key)
  {
    hide InsertBy;
    SortKeepsContents(xs, key);
    if xs != [] {
      var front := xs[..|xs| - 1];
      SortIsSorted(front, key);
      InsertByAscending(SortBy(front, key), xs[|xs| - 1], key);
    }
  }

  lemma {:induction false} SortOfSorted<T>(xs: seq<T>, key: T -> int)
    requires Ascending(xs, key)
    ensures SortBy(xs, key) == xs
  {
    if xs != [] {
      SortOfSorted(xs[..|xs| - 1], key);
      assert xs == xs[..|xs| - 1] + [xs[|xs| - 1]];
    }
  }

  lemma {:induction false} InsertByStrict<T>(xs: seq<T>, x: T, key: T -> int)
    requires Strict(xs, key) && forall i | 0 <= i < |xs| :: key(xs[i]) != key(x)
    ensures Strict(InsertBy(xs, x, key), key)
  {
    if xs != [] && key(xs[|xs| - 1]) > key(x) {
      var front, last := xs[..|xs| - 1], xs[|xs| - 1];
      InsertByStrict(front, x, key);
      InsertByContents(front, x, key);
      var inner := InsertBy(front, x, key);
      forall i | 0 <= i < |inner|
        ensures key(inner[i]) < key(last)
      {
        assert inner[i] in multiset(inner);
        assert inner[i] in front || inner[i] == x;
      }
    }
  }

  lemma {:induction false} SortOfDistinctIsStrict<T>(xs: seq<T>, key: T -> int)
    requires DistinctKeys(xs, key)
    ensures Strict(SortBy(xs, key), key)
  {
    if xs != [] {
      var front, last := xs[..|xs| - 1], xs[|xs| - 1];
      SortOfDistinctIsStrict(front, key);
      SortIsSorted(front, key);
      var sorted := SortBy(front, key);
      forall i | 0 <= i < |sorted|
        ensures key(sorted[i]) != key(last)
      {
        assert sorted[i] in multiset(sorted);
        assert sorted[i] in front;
      }
      InsertByStrict(sorted, last, key);
    }
  }

  lemma {:induction false} InsertByMap<T>(f: T -> T, xs: seq<T>, x: T, key: T -> int)
    requires forall y :: key(f(y)) == key(y)
    ensures InsertBy(Map(f, xs), f(x), key) == Map(f, InsertBy(xs, x, key))
  {
    if xs != [] {
      var front := xs[..|xs| - 1];
      assert Map(f, xs)[..|xs| - 1] == Map(f, front);
      if key(xs[|xs| - 1]) > key(x) {
        InsertByMap(f, front, x, key);
      }
    }
  }

  /** Sorting commutes with a map that leaves the keys alone. */
  lemma {:induction false} SortOfMap<T>(f: T -> T, xs: seq<T>, key: T -> int)
    requires forall y :: key(f(y)) == key(y)
    ensures SortBy(Map(f, xs), key) == Map(f, SortBy(xs, key))
  {
    if xs != [] {
      var front := xs[..|xs| - 1];
      assert Map(f, xs)[..|xs| - 1] == Map(f, front);
      SortOfMap(f, front, key);
      InsertByMap(f, SortBy(front, key), xs[|xs| - 1], key);
    }
  }
}
