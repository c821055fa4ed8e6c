/** Finite sums over sequences, and how one changed element moves them. */
module Sums {

  function Sum<T>(f: T -> int, xs: seq<T>): int {
    if xs == [] then 0 else f(xs[0]) + Sum(f, xs[1..])
  }

  lemma {:induction false} SumAppend<T>(f: T -> int, xs: seq<T>, x: T)
    ensures Sum(f, xs + [x]) == Sum(f, xs) + f(x)
  {
    if xs == [] {
      assert xs + [x] == [x];
    } else {
      assert (xs + [x])[1..] == xs[1..] + [x];
      SumAppend(f, xs[1..], x);
    }
  }

  lemma {:induction false} SumUpdate<T>(f: T -> int, xs: seq<T>, i: nat, x: T)
    requires i < |xs|
    ensures Sum(f, xs[i := x]) == Sum(f, xs) - f(xs[i]) + f(x)
  {
    if i == 0 {
      assert xs[0 := x][1..] == xs[1..];
    } else {
      assert xs[i := x][1..] == xs[1..][i - 1 := x];
      SumUpdate(f, xs[1..], i - 1, x);
    }
  }

  lemma {:induction false} SumSame<T>(f: T -> int, g: T -> int, xs: seq<T>)
    requires forall x :: x in xs ==> f(x) == g(x)
    ensures Sum(f, xs) == Sum(g, xs)
  {
    if xs != [] {
      SumSame(f, g, xs[1..]);
    }
  }

  lemma {:induction false} SumOfZeros<T>(f: T -> int, xs: seq<T>)
    requires forall x :: x in xs ==> f(x) == 0
    ensures Sum(f, xs) == 0
  {
    if xs != [] {
      SumOfZeros(f, xs[1..]);
    }
  }
}
