/** Sums over a sequence, and that they do not depend on its order. */
module Sequences {
  lemma RemoveAt<T>(s: seq<T>, k: nat)
    requires k < |s|
    ensures multiset(s[..k] + s[k + 1..]) == multiset(s) - multiset{s[k]}
  {
    assert s == s[..k] + [s[k]] + s[k + 1..];
  }

  lemma PermutationRest<T>(xs: seq<T>, ys: seq<T>, k: nat)
    requires multiset(xs) == multiset(ys)
    requires |xs| > 0 && k < |ys| && ys[k] == xs[|xs| - 1]
    ensures multiset(xs[..|xs| - 1]) == multiset(ys[..k] + ys[k + 1..])
  {
    RemoveAt(xs, |xs| - 1);
    RemoveAt(ys, k);
    assert xs[..|xs| - 1] + xs[|xs|..] == xs[..|xs| - 1];
  }

  function SumOf<T(!new)>(f: T -> nat, xs: seq<T>): nat {
    if |xs| == 0 then 0 else SumOf(f, xs[..|xs| - 1]) + f(xs[|xs| - 1])
  }

  lemma {:induction false} SumOfSnoc<T(!new)>(f: T -> nat, xs: seq<T>, x: T)
    ensures SumOf(f, xs + [x]) == SumOf(f, xs) + f(x)
  {
    assert (xs + [x])[..|xs|] == xs;
  }

  lemma {:induction false} SumOfConcat<T(!new)>(f: T -> nat, xs: seq<T>, ys: seq<T>)
    ensures SumOf(f, xs + ys) == SumOf(f, xs) + SumOf(f, ys)
  {
    if |ys| == 0 {
      assert xs + ys == xs;
    } else {
      var n := |ys| - 1;
      assert (xs + ys)[..|xs| + n] == xs + ys[..n];
      SumOfConcat(f, xs, ys[..n]);
    }
  }

  lemma {:induction false} SumOfRemove<T(!new)>(f: T -> nat, xs: seq<T>, k: nat)
    requires k < |xs|
    ensures SumOf(f, xs) == f(xs[k]) + SumOf(f, xs[..k] + xs[k + 1..])
  {
    assert xs == xs[..k] + [xs[k]] + xs[k + 1..];
    SumOfConcat(f, xs[..k] + [xs[k]], xs[k + 1..]);
    SumOfSnoc(f, xs[..k], xs[k]);
    SumOfConcat(f, xs[..k], xs[k + 1..]);
  }

  lemma {:induction false} SumOfPermutation<T(!new)>(f: T -> nat, xs: seq<T>, ys: seq<T>)
    requires multiset(xs) == multiset(ys)
    ensures SumOf(f, xs) == SumOf(f, ys)
    decreases |xs|
  {
    assert |multiset(xs)| == |multiset(ys)|;
    if |xs| > 0 {
      assert xs[|xs| - 1] in multiset(ys);
      var k :| 0 <= k < |ys| && ys[k] == xs[|xs| - 1];
      PermutationRest(xs, ys, k);
      SumOfPermutation(f, xs[..|xs| - 1], ys[..k] + ys[k + 1..]);
      SumOfRemove(f, ys, k);
    }
  }
}
