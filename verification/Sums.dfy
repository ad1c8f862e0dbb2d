/** Sums and counts over sequences, and how they change with one element. */
module Sums {

  /** The sum of f over the first n elements. */
  function SumFirst<T>(xs: seq<T>, f: T -> nat, n: nat): nat
    requires n <= |xs|
  {
    if n == 0 then 0 else SumFirst(xs, f, n - 1) + f(xs[n - 1])
  }

  function Sum<T>(xs: seq<T>, f: T -> nat): nat {
    SumFirst(xs, f, |xs|)
  }

  lemma {:induction false} SumSame<T>(xs: seq<T>, ys: seq<T>, f: T -> nat, n: nat)
    requires n <= |xs| && n <= |ys| && forall k :: 0 <= k < n ==> ys[k] == xs[k]
    ensures SumFirst(ys, f, n) == SumFirst(xs, f, n)
  {
    if n > 0 { SumSame(xs, ys, f, n - 1); }
  }

  lemma {:induction false} SumFirstUpdate<T>(xs: seq<T>, i: nat, x: T, f: T -> nat, n: nat)
    requires i < n <= |xs|
    ensures SumFirst(xs[i := x], f, n) == SumFirst(xs, f, n) - f(xs[i]) + f(x)
  {
    if i == n - 1 {
      SumSame(xs, xs[i := x], f, i);
    } else {
      SumFirstUpdate(xs, i, x, f, n - 1);
    }
  }

  lemma SumUpdate<T>(xs: seq<T>, i: nat, x: T, f: T -> nat)
    requires i < |xs|
    ensures Sum(xs[i := x], f) == Sum(xs, f) - f(xs[i]) + f(x)
  {
    SumFirstUpdate(xs, i, x, f, |xs|);
  }

  lemma SumAppend<T>(xs: seq<T>, x: T, f: T -> nat)
    ensures Sum(xs + [x], f) == Sum(xs, f) + f(x)
  {
    SumSame(xs, xs + [x], f, |xs|);
  }

  lemma {:induction false} SumCovers<T>(xs: seq<T>, f: T -> nat, i: nat, n: nat)
    requires i < n <= |xs|
    ensures f(xs[i]) <= SumFirst(xs, f, n)
  {
    if i < n - 1 { SumCovers(xs, f, i, n - 1); }
  }

  lemma {:induction false} SumBounded<T>(xs: seq<T>, f: T -> nat, most: nat, n: nat)
    requires n <= |xs| && forall k :: 0 <= k < n ==> f(xs[k]) <= most
    ensures SumFirst(xs, f, n) <= most * n
  {
    if n > 0 {
      SumBounded(xs, f, most, n - 1);
      assert most * n == most * (n - 1) + most;
    }
  }

  // ----- Counting -----

  function Flag<T>(p: T -> bool): T -> nat {
    (x: T) => if p(x) then 1 else 0
  }

  /** How many elements have property p. */
  function Count<T>(xs: seq<T>, p: T -> bool): nat {
    Sum(xs, Flag(p))
  }

  lemma CountUpdate<T>(xs: seq<T>, i: nat, x: T, p: T -> bool)
    requires i < |xs|
    ensures Count(xs[i := x], p) == Count(xs, p) - (if p(xs[i]) then 1 else 0) + (if p(x) then 1 else 0)
  {
    SumUpdate(xs, i, x, Flag(p));
  }

  lemma CountAppend<T>(xs: seq<T>, x: T, p: T -> bool)
    ensures Count(xs + [x], p) == Count(xs, p) + if p(x) then 1 else 0
  {
    SumAppend(xs, x, Flag(p));
  }

  lemma {:induction false} SomeCounted<T>(xs: seq<T>, p: T -> bool, n: nat) returns (i: nat)
    requires n <= |xs| && SumFirst(xs, Flag(p), n) > 0
    ensures i < n && p(xs[i])
  {
    if p(xs[n - 1]) { i := n - 1; } else { i := SomeCounted(xs, p, n - 1); }
  }

  /** Two elements that are counted count for two. */
  lemma TwoCounted<T>(xs: seq<T>, p: T -> bool, i: nat, j: nat)
    requires i < j < |xs| && p(xs[i]) && p(xs[j])
    ensures Count(xs, p) >= 2
  {
    SumTwo(xs, Flag(p), i, j, |xs|);
  }

  lemma {:induction false} SumTwo<T>(xs: seq<T>, f: T -> nat, i: nat, j: nat, n: nat)
    requires i < j < n <= |xs|
    ensures f(xs[i]) + f(xs[j]) <= SumFirst(xs, f, n)
  {
    if j < n - 1 {
      SumTwo(xs, f, i, j, n - 1);
    } else {
      SumCovers(xs, f, i, n - 1);
    }
  }
}
