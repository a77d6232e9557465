/** Counting the occurrences of an element, and lists without repeats. */
module Counting {

  function Bit(b: bool): (n: nat)
  {
    if b then 1 else 0
  }

  ghost predicate Distinct<T>(xs: seq<T>)
  {
    forall i, j | 0 <= i < j < |xs| :: xs[i] != xs[j]
  }

  lemma DistinctFirst<T>(xs: seq<T>)
    requires xs != []
    ensures Distinct(xs) <==> xs[0] !in xs[1..] && Distinct(xs[1..])
  {
    var tail := xs[1..];
    assert forall i | 0 <= i < |tail| :: tail[i] == xs[i + 1];
    if xs[0] !in tail && Distinct(tail) {
      forall i, j | 0 <= i < j < |xs|
        ensures xs[i] != xs[j]
      {
        assert xs[j] == tail[j - 1];
        if i > 0 { assert xs[i] == tail[i - 1]; }
      }
    }
  }

  lemma DistinctAppend<T>(xs: seq<T>, x: T)
    requires Distinct(xs) && x !in xs
    ensures Distinct(xs + [x])
  {
  }

  function Count<T(==)>(xs: seq<T>, x: T): (n: nat)
  {
    if xs == [] then 0 else Bit(xs[0] == x) + Count(xs[1..], x)
  }

  /** How many of the first n answers are no. */
  function Refusals(answers: nat -> bool, n: nat): (k: nat)
  {
    if n == 0 then 0 else Refusals(answers, n - 1) + if answers(n - 1) then 0 else 1
  }

  ghost predicate AllGranted(answers: nat -> bool)
  {
    forall i: nat :: answers(i)
  }

  lemma {:induction false} NothingRefused(answers: nat -> bool, n: nat)
    requires AllGranted(answers)
    ensures Refusals(answers, n) == 0
  {
    if n > 0 {
      NothingRefused(answers, n - 1);
    }
  }

  lemma {:induction false} CountAppend<T>(xs: seq<T>, ys: seq<T>, x: T)
    ensures Count(xs + ys, x) == Count(xs, x) + Count(ys, x)
  {
    if xs == [] {
      assert xs + ys == ys;
    } else {
      CountAppend(xs[1..], ys, x);
      assert (xs + ys)[1..] == xs[1..] + ys;
    }
  }
}
