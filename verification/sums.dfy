/** Sums of a natural-number measure over the elements of a sequence. */
module Sums {

  function Sum<T>(xs: seq<T>, f: T -> nat): nat {
    if xs == [] then 0 else Sum(xs[..|xs| - 1], f) + f(xs[|xs| - 1])
  }

  lemma {:induction false} SumUpdate<T>(xs: seq<T>, f: T -> nat, i: nat, x: T)
    requires i < |xs|
    ensures Sum(xs[i := x], f) + f(xs[i]) == Sum(xs, f) + f(x)
  {
    var n := |xs| - 1;
    if i == n {
      assert xs[i := x][..n] == xs[..n];
    } else {
      assert xs[i := x][..n] == xs[..n][i := x];
      SumUpdate(xs[..n], f, i, x);
    }
  }

  lemma {:induction false} SumSome<T>(xs: seq<T>, f: T -> nat, i: nat)
    requires i < |xs|
    ensures f(xs[i]) <= Sum(xs, f)
  {
    if i < |xs| - 1 {
      SumSome(xs[..|xs| - 1], f, i);
    }
  }

  lemma {:induction false} SumNone<T>(xs: seq<T>, f: T -> nat)
    requires forall i | 0 <= i < |xs| :: f(xs[i]) == 0
    ensures Sum(xs, f) == 0
  {
    if xs != [] {
      SumNone(xs[..|xs| - 1], f);
    }
  }

  lemma {:induction false} SumSame<T>(xs: seq<T>, ys: seq<T>, f: T -> nat)
    requires |xs| == |ys| && forall i | 0 <= i < |xs| :: f(xs[i]) == f(ys[i])
    ensures Sum(xs, f) == Sum(ys, f)
  {
    if xs != [] {
      SumSame(xs[..|xs| - 1], ys[..|ys| - 1], f);
    }
  }

  /** A measure of at most one per element reaches the length only if it is one everywhere. */
  lemma {:induction false} SumFull<T>(xs: seq<T>, f: T -> nat)
    requires forall i | 0 <= i < |xs| :: f(xs[i]) <= 1
    ensures Sum(xs, f) <= |xs|
    ensures Sum(xs, f) == |xs| ==> forall i | 0 <= i < |xs| :: f(xs[i]) == 1
  {
    if xs != [] {
      SumFull(xs[..|xs| - 1], f);
    }
  }

  lemma {:induction false} SumOnes<T>(xs: seq<T>, f: T -> nat)
    requires forall i | 0 <= i < |xs| :: f(xs[i]) == 1
    ensures Sum(xs, f) == |xs|
  {
    if xs != [] {
      SumOnes(xs[..|xs| - 1], f);
    }
  }

  /** The positions where the measure is one. */
  function Where<T>(xs: seq<T>, f: T -> nat): set<nat> {
    set i: nat | i < |xs| && f(xs[i]) == 1
  }

  /** Such a sum is the number of positions where the measure is one. */
  lemma {:induction false} SumCounts<T>(xs: seq<T>, f: T -> nat)
    requires forall i | 0 <= i < |xs| :: f(xs[i]) <= 1
    ensures Sum(xs, f) == |Where(xs, f)|
  {
    if xs == [] {
      assert Where(xs, f) == {};
    } else {
      var n := |xs| - 1;
      var before := Where(xs[..n], f);
      SumCounts(xs[..n], f);
      assert Where(xs, f) == if f(xs[n]) == 1 then before + {n} else before;
    }
  }
}
