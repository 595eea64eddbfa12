/** Counting and summing over a sequence: the two folds the planners are built from. */
module Folds {
  /** How many elements satisfy `p`. */
  function Count<T>(p: T -> bool, xs: seq<T>): (n: nat)
    ensures n <= |xs|
  {
    if |xs| == 0 then 0 else Count(p, xs[..|xs| - 1]) + (if p(xs[|xs| - 1]) then 1 else 0)
  }

  /** The sum of `f` over the elements. */
  function Sum<T>(f: T -> nat, xs: seq<T>): nat {
    if |xs| == 0 then 0 else Sum(f, xs[..|xs| - 1]) + f(xs[|xs| - 1])
  }

  lemma CountSnoc<T>(p: T -> bool, xs: seq<T>, i: nat)
    requires i < |xs|
    ensures Count(p, xs[..i + 1]) == Count(p, xs[..i]) + (if p(xs[i]) then 1 else 0)
  {
    assert xs[..i + 1][..i] == xs[..i];
  }

  lemma SumSnoc<T>(f: T -> nat, xs: seq<T>, i: nat)
    requires i < |xs|
    ensures Sum(f, xs[..i + 1]) == Sum(f, xs[..i]) + f(xs[i])
  {
    assert xs[..i + 1][..i] == xs[..i];
  }

  lemma Whole<T>(xs: seq<T>)
    ensures xs[..|xs|] == xs
  {
  }

  /** No element is counted exactly when none satisfies `p`. */
  lemma {:induction false} CountNone<T>(p: T -> bool, xs: seq<T>)
    ensures Count(p, xs) == 0 <==> forall j :: 0 <= j < |xs| ==> !p(xs[j])
  {
    if |xs| > 0 {
      var n := |xs| - 1;
      CountNone(p, xs[..n]);
      assert forall j :: 0 <= j < n ==> xs[..n][j] == xs[j];
    }
  }

  /** Every element is counted exactly when every one satisfies `p`. */
  lemma {:induction false} CountEvery<T>(p: T -> bool, xs: seq<T>)
    ensures Count(p, xs) == |xs| <==> forall j :: 0 <= j < |xs| ==> p(xs[j])
  {
    if |xs| > 0 {
      var n := |xs| - 1;
      CountEvery(p, xs[..n]);
      assert forall j :: 0 <= j < n ==> xs[..n][j] == xs[j];
    }
  }

  /** When exactly one of three tests holds of each element, the three counts add up to the length. */
  lemma {:induction false} CountThree<T>(p: T -> bool, q: T -> bool, r: T -> bool, xs: seq<T>)
    requires forall j :: 0 <= j < |xs| ==>
      (if p(xs[j]) then 1 else 0) + (if q(xs[j]) then 1 else 0) + (if r(xs[j]) then 1 else 0) == 1
    ensures Count(p, xs) + Count(q, xs) + Count(r, xs) == |xs|
  {
    if |xs| > 0 {
      var n := |xs| - 1;
      assert forall j :: 0 <= j < n ==> xs[..n][j] == xs[j];
      CountThree(p, q, r, xs[..n]);
    }
  }

  /** A sum is zero exactly when every term is. */
  lemma {:induction false} SumZero<T>(f: T -> nat, xs: seq<T>)
    ensures Sum(f, xs) == 0 <==> forall j :: 0 <= j < |xs| ==> f(xs[j]) == 0
  {
    if |xs| > 0 {
      var n := |xs| - 1;
      SumZero(f, xs[..n]);
      assert forall j :: 0 <= j < n ==> xs[..n][j] == xs[j];
    }
  }

  /** Termwise smaller, sum smaller. */
  lemma {:induction false} SumLe<T>(f: T -> nat, g: T -> nat, xs: seq<T>)
    requires forall j :: 0 <= j < |xs| ==> f(xs[j]) <= g(xs[j])
    ensures Sum(f, xs) <= Sum(g, xs)
  {
    if |xs| > 0 {
      var n := |xs| - 1;
      assert forall j :: 0 <= j < n ==> xs[..n][j] == xs[j];
      SumLe(f, g, xs[..n]);
    }
  }

  /** Termwise equal, sum equal. */
  lemma {:induction false} SumSame<T>(f: T -> nat, g: T -> nat, xs: seq<T>)
    requires forall j :: 0 <= j < |xs| ==> f(xs[j]) == g(xs[j])
    ensures Sum(f, xs) == Sum(g, xs)
  {
    if |xs| > 0 {
      var n := |xs| - 1;
      assert forall j :: 0 <= j < n ==> xs[..n][j] == xs[j];
      SumSame(f, g, xs[..n]);
    }
  }

  /** Every term `c`: the sum is `|xs| * c`. */
  lemma {:induction false} SumConst<T>(f: T -> nat, xs: seq<T>, c: nat)
    requires forall j :: 0 <= j < |xs| ==> f(xs[j]) == c
    ensures Sum(f, xs) == |xs| * c
  {
    if |xs| > 0 {
      var n := |xs| - 1;
      assert forall j :: 0 <= j < n ==> xs[..n][j] == xs[j];
      SumConst(f, xs[..n], c);
    }
  }

  /** The sum of termwise sums is the sum of the sums. */
  lemma {:induction false} SumAdd<T>(f: T -> nat, g: T -> nat, h: T -> nat, xs: seq<T>)
    requires forall j :: 0 <= j < |xs| ==> h(xs[j]) == f(xs[j]) + g(xs[j])
    ensures Sum(h, xs) == Sum(f, xs) + Sum(g, xs)
  {
    if |xs| > 0 {
      var n := |xs| - 1;
      assert forall j :: 0 <= j < n ==> xs[..n][j] == xs[j];
      SumAdd(f, g, h, xs[..n]);
    }
  }
}
