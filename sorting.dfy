/** Ascending sort of a list of distinct integer keys: what Python's
    `list.sort()` / `sorted()` produce for the keys of a dict. */
module Sorting {

  /** xs lists its elements in strictly increasing order. */
  predicate StrictlyIncreasing(xs: seq<int>) {
    forall i, j :: 0 <= i < j < |xs| ==> xs[i] < xs[j]
  }

  /** xs lists its elements in strictly decreasing order. */
  predicate StrictlyDecreasing(xs: seq<int>) {
    forall i, j :: 0 <= i < j < |xs| ==> xs[i] > xs[j]
  }

  /** xs has no repeated element. */
  predicate Distinct<T(==)>(xs: seq<T>) {
    forall i, j :: 0 <= i < j < |xs| ==> xs[i] != xs[j]
  }

  /** Inserts x at its place in an increasing list. */
  function Insert(x: int, xs: seq<int>): (r: seq<int>)
    requires StrictlyIncreasing(xs) && x !in xs
    ensures StrictlyIncreasing(r)
    ensures multiset(r) == multiset(xs) + multiset{x}
  {
    if xs == [] then [x]
    else if x < xs[0] then
      ConsIncreasing(x, xs);
      [x] + xs
    else
      TailAbove(xs);
      var rest := Insert(x, xs[1..]);
      InsertAbove(xs[0], x, xs[1..], rest);
      ConsIncreasing(xs[0], rest);
      HeadKept(xs, rest, x);
      [xs[0]] + rest
  }

  /** Putting the head back in front of the tail with x inserted gives the
      elements of xs and x. */
  lemma HeadKept(xs: seq<int>, rest: seq<int>, x: int)
    requires xs != [] && multiset(rest) == multiset(xs[1..]) + multiset{x}
    ensures multiset([xs[0]] + rest) == multiset(xs) + multiset{x}
  {
    assert xs == [xs[0]] + xs[1..];
  }

  /** The tail of an increasing list is increasing and above its head. */
  lemma TailAbove(xs: seq<int>)
    requires StrictlyIncreasing(xs) && xs != []
    ensures StrictlyIncreasing(xs[1..])
    ensures forall y :: y in xs[1..] ==> xs[0] < y
  {
    forall y | y in xs[1..] ensures xs[0] < y {
      var i :| 0 <= i < |xs[1..]| && xs[1..][i] == y;
      assert xs[i + 1] == y;
    }
  }

  lemma InsertAbove(a: int, x: int, tail: seq<int>, rest: seq<int>)
    requires a < x && (forall y :: y in tail ==> a < y)
    requires multiset(rest) == multiset(tail) + multiset{x}
    ensures forall y :: y in rest ==> a < y
  {
    forall y | y in rest
      ensures a < y
    {
      assert y in multiset(tail) + multiset{x};
      if y != x {
        assert y in multiset(tail);
        assert y in tail;
      }
    }
  }

  /** A head below the first element of an increasing list keeps it
      increasing. */
  lemma ConsIncreasing(a: int, xs: seq<int>)
    requires StrictlyIncreasing(xs) && (xs == [] || a < xs[0])
    ensures StrictlyIncreasing([a] + xs)
  {
  }

  /** The elements of a list without repetitions, in ascending order. */
  function Sort(xs: seq<int>): (r: seq<int>)
    requires Distinct(xs)
    ensures StrictlyIncreasing(r)
    ensures multiset(r) == multiset(xs)
  {
    if xs == [] then []
    else
      var last := xs[|xs| - 1];
      assert xs == xs[..|xs| - 1] + [last];
      var rest := Sort(xs[..|xs| - 1]);
      assert last !in multiset(rest);
      Insert(last, rest)
  }

  /** The elements of a list without repetitions, in descending order. */
  function SortDescending(xs: seq<int>): (r: seq<int>)
    requires Distinct(xs)
    ensures StrictlyDecreasing(r)
    ensures multiset(r) == multiset(xs)
  {
    Reverse(Sort(xs))
  }

  function Reverse<T>(xs: seq<T>): (r: seq<T>)
    ensures |r| == |xs| && forall i :: 0 <= i < |xs| ==> r[i] == xs[|xs| - 1 - i]
    ensures multiset(r) == multiset(xs)
  {
    if xs == [] then []
    else
      assert xs == [xs[0]] + xs[1..];
      Reverse(xs[1..]) + [xs[0]]
  }

  /** A list without repetitions holds each of its elements once. */
  lemma {:induction false} DistinctOnce<T>(xs: seq<T>)
    requires Distinct(xs)
    ensures forall z :: multiset(xs)[z] == if z in xs then 1 else 0
  {
    if xs != [] {
      assert Distinct(xs[1..]) by {
        forall i, j | 0 <= i < j < |xs[1..]| ensures xs[1..][i] != xs[1..][j] {
          assert xs[1..][i] == xs[i + 1] && xs[1..][j] == xs[j + 1];
        }
      }
      DistinctOnce(xs[1..]);
      assert xs == [xs[0]] + xs[1..];
      assert xs[0] !in xs[1..] by {
        forall i | 0 <= i < |xs[1..]| ensures xs[1..][i] != xs[0] {
          assert xs[1..][i] == xs[i + 1];
        }
      }
    }
  }

  /** Two lists without repetitions that hold the same elements are
      permutations of each other. */
  lemma SameElementsPermutation<T>(xs: seq<T>, ys: seq<T>)
    requires Distinct(xs) && Distinct(ys)
    requires forall z :: z in xs <==> z in ys
    ensures multiset(xs) == multiset(ys)
  {
    DistinctOnce(xs);
    DistinctOnce(ys);
    assert forall z :: multiset(xs)[z] == multiset(ys)[z];
  }
}
