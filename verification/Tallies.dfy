/** Adding up a number for every element of a sequence. */
module Tallies {
  function Tally<T>(xs: seq<T>, f: T -> nat): nat {
    if xs == [] then 0 else f(xs[0]) + Tally(xs[1..], f)
  }

  lemma {:induction false} TallyUpdate<T>(xs: seq<T>, i: nat, x: T, f: T -> nat)
    requires i < |xs|
    ensures Tally(xs[i := x], f) + f(xs[i]) == Tally(xs, f) + f(x)
  {
    if i > 0 {
      assert xs[i := x][1..] == xs[1..][i - 1 := x];
      TallyUpdate(xs[1..], i - 1, x, f);
    } else {
      assert xs[i := x][1..] == xs[1..];
    }
  }

  /** The same number for every element. */
  lemma {:induction false} TallyConstant<T>(xs: seq<T>, c: nat, f: T -> nat)
    requires forall i :: 0 <= i < |xs| ==> f(xs[i]) == c
    ensures Tally(xs, f) == c * |xs|
  {
    if xs != [] {
      TallyConstant(xs[1..], c, f);
      assert c * |xs| == c + c * (|xs| - 1);
    }
  }
}
