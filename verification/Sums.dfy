/** Sums of a weight over a sequence, and how they react to the updates a process table sees. */
module Sums {

  function Sum<T>(xs: seq<T>, weight: T -> nat): nat {
    if xs == [] then 0 else weight(xs[0]) + Sum(xs[1..], weight)
  }

  lemma {:induction false} SumAppend<T>(xs: seq<T>, ys: seq<T>, weight: T -> nat)
    ensures Sum(xs + ys, weight) == Sum(xs, weight) + Sum(ys, weight)
  {
    if xs == [] {
      assert xs + ys == ys;
    } else {
      assert (xs + ys)[1..] == xs[1..] + ys;
      SumAppend(xs[1..], ys, weight);
    }
  }

  lemma SumPush<T>(xs: seq<T>, x: T, weight: T -> nat)
    ensures Sum(xs + [x], weight) == Sum(xs, weight) + weight(x)
  {
    SumAppend(xs, [x], weight);
    assert Sum([x], weight) == weight(x);
  }

  lemma SumSplit<T>(xs: seq<T>, i: nat, weight: T -> nat)
    requires i < |xs|
    ensures Sum(xs, weight) == Sum(xs[..i], weight) + weight(xs[i]) + Sum(xs[i + 1..], weight)
  {
    assert xs == xs[..i] + xs[i..];
    assert xs[i..][1..] == xs[i + 1..];
    SumAppend(xs[..i], xs[i..], weight);
  }

  lemma SumUpdate<T>(xs: seq<T>, i: nat, x: T, weight: T -> nat)
    requires i < |xs|
    ensures Sum(xs[i := x], weight) + weight(xs[i]) == Sum(xs, weight) + weight(x)
  {
    SumSplit(xs, i, weight);
    SumSplit(xs[i := x], i, weight);
    assert xs[i := x][..i] == xs[..i];
    assert xs[i := x][i + 1..] == xs[i + 1..];
  }

  lemma SumRemove<T>(xs: seq<T>, i: nat, weight: T -> nat)
    requires i < |xs|
    ensures Sum(xs[..i] + xs[i + 1..], weight) + weight(xs[i]) == Sum(xs, weight)
  {
    SumSplit(xs, i, weight);
    SumAppend(xs[..i], xs[i + 1..], weight);
  }

  /** An element counted by the weight makes the sum positive. */
  lemma SumAtLeast<T>(xs: seq<T>, i: nat, weight: T -> nat)
    requires i < |xs|
    ensures weight(xs[i]) <= Sum(xs, weight)
  {
    SumSplit(xs, i, weight);
  }

  /** A sum of weights bounded by b is bounded by b times the length. */
  lemma {:induction false} SumBound<T>(xs: seq<T>, weight: T -> nat, b: nat)
    requires forall i :: 0 <= i < |xs| ==> weight(xs[i]) <= b
    ensures Sum(xs, weight) <= b * |xs|
  {
    if xs != [] {
      SumBound(xs[1..], weight, b);
    }
  }

  lemma {:induction false} SumZero<T>(xs: seq<T>, weight: T -> nat)
    requires forall i :: 0 <= i < |xs| ==> weight(xs[i]) == 0
    ensures Sum(xs, weight) == 0
  {
    if xs != [] {
      SumZero(xs[1..], weight);
    }
  }

  lemma MultisetRemove<T>(xs: seq<T>, i: nat)
    requires i < |xs|
    ensures multiset(xs[..i] + xs[i + 1..]) == multiset(xs) - multiset{xs[i]}
  {
    assert xs == xs[..i] + ([xs[i]] + xs[i + 1..]);
  }

  /** A sum does not depend on the order of the sequence. */
  lemma {:induction false} SumPermutation<T>(xs: seq<T>, ys: seq<T>, weight: T -> nat)
    requires multiset(xs) == multiset(ys)
    ensures Sum(xs, weight) == Sum(ys, weight)
    decreases |xs|
  {
    if xs == [] {
      assert |multiset(ys)| == 0;
    } else {
      assert xs[0] in multiset(ys);
      var i :| 0 <= i < |ys| && ys[i] == xs[0];
      MultisetRemove(xs, 0);
      MultisetRemove(ys, i);
      assert xs[..0] + xs[1..] == xs[1..];
      SumPermutation(xs[1..], ys[..i] + ys[i + 1..], weight);
      SumRemove(ys, i, weight);
    }
  }
}
