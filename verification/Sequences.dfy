/** Sums of sequences, and sequences without repetition. */
module Sequences {

  ghost predicate Distinct<T>(xs: seq<T>) {
    forall i, j :: 0 <= i < j < |xs| ==> xs[i] != xs[j]
  }

  function Sum(xs: seq<int>): (r: int)
    ensures (forall i :: 0 <= i < |xs| ==> xs[i] >= 0) ==> r >= 0
  {
    if xs == [] then 0 else Sum(xs[..|xs| - 1]) + xs[|xs| - 1]
  }

  lemma {:induction false} SumNone(xs: seq<int>)
    ensures Sum(xs[..0]) == 0
  {}

  lemma {:induction false} SumNext(xs: seq<int>, i: nat)
    requires i < |xs|
    ensures Sum(xs[..i + 1]) == Sum(xs[..i]) + xs[i]
  {
    assert xs[..i + 1][..i] == xs[..i];
  }

  lemma {:induction false} SumGrows(xs: seq<int>, i: nat, j: nat)
    requires i <= j <= |xs| && forall k :: 0 <= k < |xs| ==> xs[k] >= 0
    ensures Sum(xs[..i]) <= Sum(xs[..j])
    decreases j
  {
    if i < j {
      SumGrows(xs, i, j - 1);
      assert xs[..j][..j - 1] == xs[..j - 1];
    }
  }

  lemma {:induction false} SumWithout(xs: seq<int>, p: nat)
    requires p < |xs|
    ensures Sum(xs) == Sum(xs[..p] + xs[p + 1..]) + xs[p]
  {
    var ys := xs[..p] + xs[p + 1..];
    if p == |xs| - 1 {
      assert ys == xs[..p];
    } else {
      var init := xs[..|xs| - 1];
      SumWithout(init, p);
      assert ys[..|ys| - 1] == init[..p] + init[p + 1..] && ys[|ys| - 1] == xs[|xs| - 1];
    }
  }
}
