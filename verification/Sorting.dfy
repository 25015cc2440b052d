/** Stable sorting by a comparator, as Go's sort package is used here.

    A comparator need not be a sensible order: the sort is then still a
    permutation, and nothing more is claimed. */
module Sorting {

  /** Asymmetric, and anything between two ordered elements is ordered with one of them. */
  ghost predicate StrictWeakOn<T(!new)>(less: (T, T) -> bool, xs: seq<T>) {
    && (forall x, y :: x in xs && y in xs && less(x, y) ==> !less(y, x))
    && (forall x, y, z :: x in xs && y in xs && z in xs && less(x, z) ==> less(x, y) || less(y, z))
  }

  /** No element precedes one that the comparator puts before it. */
  ghost predicate InOrder<T>(less: (T, T) -> bool, xs: seq<T>) {
    forall i, j :: 0 <= i < j < |xs| ==> !less(xs[j], xs[i])
  }

  /** x placed after every element that is not greater. */
  function Insert<T>(less: (T, T) -> bool, xs: seq<T>, x: T): (r: seq<T>)
    ensures |r| == |xs| + 1
  {
    if xs != [] && less(x, xs[|xs| - 1]) then Insert(less, xs[..|xs| - 1], x) + [xs[|xs| - 1]]
    else xs + [x]
  }

  function Sort<T>(less: (T, T) -> bool, xs: seq<T>): (r: seq<T>)
    ensures |r| == |xs|
  {
    if xs == [] then [] else Insert(less, Sort(less, xs[..|xs| - 1]), xs[|xs| - 1])
  }

  lemma {:induction false} InsertPermutes<T>(less: (T, T) -> bool, xs: seq<T>, x: T)
    ensures multiset(Insert(less, xs, x)) == multiset(xs) + multiset{x}
  {
    if xs != [] && less(x, xs[|xs| - 1]) {
      InsertPermutes(less, xs[..|xs| - 1], x);
      assert xs == xs[..|xs| - 1] + [xs[|xs| - 1]];
    }
  }

  lemma {:induction false} SortPermutes<T>(less: (T, T) -> bool, xs: seq<T>)
    ensures multiset(Sort(less, xs)) == multiset(xs)
  {
    if xs != [] {
      SortPermutes(less, xs[..|xs| - 1]);
      InsertPermutes(less, Sort(less, xs[..|xs| - 1]), xs[|xs| - 1]);
      assert xs == xs[..|xs| - 1] + [xs[|xs| - 1]];
    }
  }

  lemma SameElements<T>(xs: seq<T>, ys: seq<T>, x: T)
    requires multiset(xs) == multiset(ys)
    ensures x in xs <==> x in ys
  {
    assert x in xs <==> x in multiset(xs);
    assert x in ys <==> x in multiset(ys);
  }

  lemma {:induction false} InsertKeepsOrder<T(!new)>(less: (T, T) -> bool, xs: seq<T>, x: T, all: seq<T>)
    requires StrictWeakOn(less, all) && x in all && (forall y <- xs :: y in all) && InOrder(less, xs)
    ensures InOrder(less, Insert(less, xs, x))
  {
    if xs != [] {
      var init, last := xs[..|xs| - 1], xs[|xs| - 1];
      assert last in xs;
      if less(x, last) {
        InsertKeepsOrder(less, init, x, all);
        InsertPermutes(less, init, x);
        forall i | 0 <= i < |init| + 1
          ensures !less(last, Insert(less, init, x)[i])
        {
          var y := Insert(less, init, x)[i];
          assert y in multiset(Insert(less, init, x));
          if y != x {
            assert y in init;
          }
        }
      } else {
        forall i | 0 <= i < |xs|
          ensures !less(x, xs[i])
        {
          assert xs[i] in xs;
        }
      }
    }
  }

  lemma {:induction false} SortOrders<T(!new)>(less: (T, T) -> bool, xs: seq<T>, all: seq<T>)
    requires StrictWeakOn(less, all) && forall y <- xs :: y in all
    ensures InOrder(less, Sort(less, xs))
  {
    if xs != [] {
      var init, last := xs[..|xs| - 1], xs[|xs| - 1];
      SortOrders(less, init, all);
      SortPermutes(less, init);
      forall y <- Sort(less, init) ensures y in all {
        SameElements(Sort(less, init), init, y);
      }
      assert last in xs;
      InsertKeepsOrder(less, Sort(less, init), last, all);
    }
  }

  /** Passing one greater element on the way down. */
  lemma InsertPasses<T>(less: (T, T) -> bool, xs: seq<T>, j: nat, x: T)
    requires 0 < j <= |xs| && less(x, xs[j - 1])
    ensures Insert(less, xs[..j], x) + xs[j..] == Insert(less, xs[..j - 1], x) + xs[j - 1..]
  {
    assert xs[..j][..j - 1] == xs[..j - 1];
    assert xs[j - 1..] == [xs[j - 1]] + xs[j..];
  }

  /** One round of the sort: a[i] sinks past the greater elements before it. */
  method Sink<T>(a: array<T>, i: nat, less: (T, T) -> bool)
    requires i < a.Length
    modifies a
    ensures a[..i + 1] == Insert(less, old(a[..i]), old(a[i]))
    ensures a[i + 1..] == old(a[i + 1..])
  {
    ghost var sorted, x := a[..i], a[i];
    var j := i;
    assert sorted[..i] == sorted;
    while j > 0 && less(a[j], a[j - 1])
      invariant 0 <= j <= i
      invariant a[j] == x
      invariant forall k :: 0 <= k < j ==> a[k] == sorted[k]
      invariant forall k :: j < k <= i ==> a[k] == sorted[k - 1]
      invariant a[i + 1..] == old(a[i + 1..])
      invariant Insert(less, sorted, x) == Insert(less, sorted[..j], x) + sorted[j..]
    {
      InsertPasses(less, sorted, j, x);
      a[j - 1], a[j] := a[j], a[j - 1];
      j := j - 1;
    }
    assert a[..i + 1] == sorted[..j] + [x] + sorted[j..];
    assert j > 0 ==> sorted[..j][j - 1] == a[j - 1];
  }

  /** The sort in place, as an insertion sort. */
  method InsertionSort<T>(a: array<T>, less: (T, T) -> bool)
    modifies a
    ensures a[..] == Sort(less, old(a[..]))
  {
    ghost var was := a[..];
    for i := 0 to a.Length
      invariant a[..i] == Sort(less, was[..i])
      invariant a[i..] == was[i..]
    {
      assert was[..i + 1][..i] == was[..i] && was[i] == was[i..][0] == a[i..][0];
      assert a[i + 1..] == a[i..][1..] && was[i + 1..] == was[i..][1..];
      Sink(a, i, less);
    }
    assert was[..a.Length] == was && a[..a.Length] == a[..];
  }

  /** A sorted copy, for callers that keep their input. */
  method SortedCopy<T>(xs: seq<T>, less: (T, T) -> bool) returns (r: seq<T>)
    ensures r == Sort(less, xs)
  {
    var a := new T[|xs|](i requires 0 <= i < |xs| => xs[i]);
    assert a[..] == xs;
    InsertionSort(a, less);
    r := a[..];
  }
}
