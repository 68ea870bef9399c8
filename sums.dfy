/**
 * Summation of a sequence under a measure: the `reduce((sum, x) => sum + f(x), 0)` of the
 * source and the SQL SUM of the ledger. The sum peels the last element, so the sum of a
 * prefix s[..k+1] unfolds to the sum of s[..k] plus f(s[k]).
 */
module Sums {

  function Sum<T>(s: seq<T>, f: T -> real): real
    decreases |s|
  {
    if |s| == 0 then 0.0 else Sum(s[..|s| - 1], f) + f(s[|s| - 1])
  }

  lemma {:induction false} SumAppend<T>(a: seq<T>, b: seq<T>, f: T -> real)
    ensures Sum(a + b, f) == Sum(a, f) + Sum(b, f)
    decreases |b|
  {
    if |b| == 0 {
      assert a + b == a;
    } else {
      var b' := b[..|b| - 1];
      assert (a + b)[..|a + b| - 1] == a + b';
      SumAppend(a, b', f);
    }
  }

  lemma SumSingleton<T>(x: T, f: T -> real)
    ensures Sum([x], f) == f(x)
  {
    assert [x][..0] == [];
  }

  lemma SumCons<T>(x: T, s: seq<T>, f: T -> real)
    ensures Sum([x] + s, f) == f(x) + Sum(s, f)
  {
    SumAppend([x], s, f);
    SumSingleton(x, f);
  }

  /** The sum of the whole sequence as a prefix, and of the empty prefix. */
  lemma SumWhole<T>(s: seq<T>, f: T -> real)
    ensures Sum(s[..|s|], f) == Sum(s, f)
    ensures Sum(s[..0], f) == 0.0
  {
    assert s[..|s|] == s;
  }

  /** Sum of a prefix one longer. */
  lemma SumPrefixStep<T>(s: seq<T>, k: nat, f: T -> real)
    requires k < |s|
    ensures Sum(s[..k + 1], f) == Sum(s[..k], f) + f(s[k])
  {
    assert s[..k + 1][..k] == s[..k];
  }

  /** Two measures that agree on every element have the same sum. */
  lemma {:induction false} SumCongruent<T>(s: seq<T>, f: T -> real, g: T -> real)
    requires forall i :: 0 <= i < |s| ==> f(s[i]) == g(s[i])
    ensures Sum(s, f) == Sum(s, g)
    decreases |s|
  {
    if |s| > 0 {
      SumCongruent(s[..|s| - 1], f, g);
    }
  }

  lemma {:induction false} SumNonNegative<T>(s: seq<T>, f: T -> real)
    requires forall i :: 0 <= i < |s| ==> f(s[i]) >= 0.0
    ensures Sum(s, f) >= 0.0
    decreases |s|
  {
    if |s| > 0 {
      SumNonNegative(s[..|s| - 1], f);
    }
  }

  /** Under a non-negative measure the prefix sums grow with the prefix. */
  lemma {:induction false} PrefixSumMonotone<T>(s: seq<T>, f: T -> real, i: nat, j: nat)
    requires i <= j <= |s|
    requires forall k :: 0 <= k < |s| ==> f(s[k]) >= 0.0
    ensures Sum(s[..i], f) <= Sum(s[..j], f)
    decreases j - i
  {
    if i < j {
      PrefixSumMonotone(s, f, i, j - 1);
      SumPrefixStep(s, j - 1, f);
    }
  }
}
