/** Strictly ascending sequences of integers: insertion and bisection. */
module Sorted {
  predicate Ascending(xs: seq<int>) {
    forall i, j :: 0 <= i < j < |xs| ==> xs[i] < xs[j]
  }

  /** `k` splits `xs` into the elements below `x` and the others. */
  predicate Splits(xs: seq<int>, k: nat, x: int) {
    k <= |xs| && (forall i :: 0 <= i < k ==> xs[i] < x) && (forall i :: k <= i < |xs| ==> xs[i] >= x)
  }

  /** The bisection of `std::lower_bound` over `len` elements from `first`. */
  function Bisect(xs: seq<int>, x: int, first: nat, len: nat): (k: nat)
    requires first + len <= |xs|
    ensures first <= k <= first + len
    decreases len
  {
    if len == 0 then first
    else
      var half := len / 2;
      if xs[first + half] < x
      then Bisect(xs, x, first + half + 1, len - half - 1)
      else Bisect(xs, x, first, half)
  }

  function LowerBound(xs: seq<int>, x: int): (k: nat)
    ensures k <= |xs|
  {
    Bisect(xs, x, 0, |xs|)
  }

  /** On an ascending sequence the bisection finds the partition point. */
  lemma {:induction false} BisectSplits(xs: seq<int>, x: int, first: nat, len: nat)
    requires Ascending(xs) && first + len <= |xs|
    requires forall i :: 0 <= i < first ==> xs[i] < x
    requires forall i :: first + len <= i < |xs| ==> xs[i] >= x
    ensures Splits(xs, Bisect(xs, x, first, len), x)
    decreases len
  {
    if len > 0 {
      var half := len / 2;
      if xs[first + half] < x {
        BisectSplits(xs, x, first + half + 1, len - half - 1);
      } else {
        BisectSplits(xs, x, first, half);
      }
    }
  }

  lemma LowerBoundSplits(xs: seq<int>, x: int)
    requires Ascending(xs)
    ensures Splits(xs, LowerBound(xs, x), x)
    ensures x in xs <==> LowerBound(xs, x) < |xs| && xs[LowerBound(xs, x)] == x
  {
    BisectSplits(xs, x, 0, |xs|);
  }

  lemma InsertAscending(xs: seq<int>, k: nat, x: int)
    requires Ascending(xs) && Splits(xs, k, x) && x !in xs
    ensures Ascending(xs[..k] + [x] + xs[k..])
  {
    assert forall i :: k <= i < |xs| ==> xs[i] in xs;
  }

  lemma TailAscending(xs: seq<int>)
    requires Ascending(xs) && xs != []
    ensures Ascending(xs[1..])
    ensures forall x :: x in xs[1..] ==> xs[0] < x
  {
  }

  lemma ShiftAscending(xs: seq<int>, ys: seq<int>, d: int)
    requires |xs| == |ys| && forall i :: 0 <= i < |xs| ==> ys[i] == xs[i] + d
    ensures Ascending(xs) <==> Ascending(ys)
  {
    if Ascending(xs) {
      assert forall i, j :: 0 <= i < j < |ys| ==> xs[i] < xs[j] && ys[i] < ys[j];
    }
    if Ascending(ys) {
      assert forall i, j :: 0 <= i < j < |xs| ==> ys[i] < ys[j] && xs[i] < xs[j];
    }
  }
}
