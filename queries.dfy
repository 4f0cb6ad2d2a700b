/** The LINQ queries the services run against a table, over sequences: a
    table column is projected with a sequence comprehension (`Select`), and
    `Find`, `FirstOrDefault`, `SingleOrDefault` and `Any` become `IndexOf`
    and membership. */
module Queries {
  import opened Wrappers

  /** The position of the first occurrence of `x` in `xs`, if any. */
  function IndexOf<T(==)>(xs: seq<T>, x: T): (r: Option<nat>)
    ensures r.None? <==> x !in xs
    ensures r.Some? ==> r.value < |xs| && xs[r.value] == x && x !in xs[..r.value]
  {
    if |xs| == 0 then None
    else if xs[0] == x then Some(0)
    else
      match IndexOf(xs[1..], x)
      case None => None
      case Some(k) =>
        assert xs[..k + 1] == [xs[0]] + xs[1..][..k];
        Some(k + 1)
  }

  /** No value occurs twice: the column is a key of the table. */
  predicate Distinct<T(==)>(xs: seq<T>) {
    forall i, j | 0 <= i < j < |xs| :: xs[i] != xs[j]
  }

  /** In a key column, the first occurrence of a value is its only one. */
  lemma DistinctIndexOf<T>(xs: seq<T>, k: nat)
    requires Distinct(xs) && k < |xs|
    ensures IndexOf(xs, xs[k]) == Some(k)
  {
  }

  /** Appending a value absent from a key column keeps it a key column. */
  lemma DistinctAppend<T>(xs: seq<T>, x: T)
    requires Distinct(xs) && x !in xs
    ensures Distinct(xs + [x])
  {
    forall i, j | 0 <= i < j < |xs + [x]|
      ensures (xs + [x])[i] != (xs + [x])[j]
    {
      if j == |xs| {
        assert (xs + [x])[i] == xs[i];
      }
    }
  }

  /** How many elements of `xs` equal `x` (a `foreach` counting exact matches). */
  function Occurrences<T(==)>(xs: seq<T>, x: T): (r: nat)
    ensures r <= |xs|
  {
    if |xs| == 0 then 0
    else
      Occurrences(xs[..|xs| - 1], x) + (if xs[|xs| - 1] == x then 1 else 0)
  }

  /** One more element: the count grows by one exactly when it is a match. */
  lemma OccurrencesStep<T>(xs: seq<T>, i: nat, x: T)
    requires i < |xs|
    ensures Occurrences(xs[..i + 1], x) == Occurrences(xs[..i], x) + (if xs[i] == x then 1 else 0)
  {
    assert xs[..i + 1][..i] == xs[..i];
  }

  /** The sum of the values, accumulated from the front. */
  function Sum(xs: seq<int>): int {
    if |xs| == 0 then 0 else Sum(xs[..|xs| - 1]) + xs[|xs| - 1]
  }

  /** A sum of values in `[lo, hi]` lies in `[lo * n, hi * n]`. */
  lemma {:induction false} SumBounds(xs: seq<int>, lo: int, hi: int)
    requires forall i | 0 <= i < |xs| :: lo <= xs[i] <= hi
    ensures lo * |xs| <= Sum(xs) <= hi * |xs|
  {
    if |xs| > 0 {
      SumBounds(xs[..|xs| - 1], lo, hi);
    }
  }
}
