/** Left-to-right sums over sequences, the shape of JavaScript's `reduce((sum, x) => sum + f(x), 0)`. */
module Sums {

  /** `s.reduce((acc, x) => acc + f(x), 0)`, folding from the first element to the last. */
  function Sum<T>(s: seq<T>, f: T -> real): real
  {
    if s == [] then 0.0 else Sum(s[..|s| - 1], f) + f(s[|s| - 1])
  }

  /** Summing the first `k + 1` elements adds element `k` to the sum of the first `k`. */
  lemma PrefixSumStep<T>(s: seq<T>, f: T -> real, k: nat)
    requires k < |s|
    ensures Sum(s[..k + 1], f) == Sum(s[..k], f) + f(s[k])
  {
    assert s[..k + 1][..k] == s[..k];
  }

  /** Removing element `k` from the sum subtracts exactly its term. */
  lemma {:induction false} SumRemove<T>(s: seq<T>, f: T -> real, k: nat)
    requires k < |s|
    ensures Sum(s, f) == Sum(s[..k] + s[k + 1..], f) + f(s[k])
  {
    var n := |s| - 1;
    if k < n {
      var u := s[..n];
      SumRemove(u, f, k);
      assert u[..k] + u[k + 1..] == (s[..k] + s[k + 1..])[..n - 1];
      assert (s[..k] + s[k + 1..])[n - 1] == s[n];
    } else {
      assert s[..k] + s[k + 1..] == s[..n];
    }
  }

  /** The sum does not depend on the order of the elements. */
  lemma {:induction false} SumPermutation<T>(s: seq<T>, t: seq<T>, f: T -> real)
    requires multiset(s) == multiset(t)
    ensures Sum(s, f) == Sum(t, f)
  {
    if s != [] {
      var n := |s| - 1;
      var x := s[n];
      assert s == s[..n] + [x];
      assert x in multiset(t);
      var k :| 0 <= k < |t| && t[k] == x;
      var rest := t[..k] + t[k + 1..];
      assert t == t[..k] + [x] + t[k + 1..];
      assert multiset(t) == multiset(rest) + multiset{x};
      assert multiset(s) == multiset(s[..n]) + multiset{x};
      assert multiset(s[..n]) == multiset(s) - multiset{x};
      assert multiset(rest) == multiset(t) - multiset{x};
      SumPermutation(s[..n], rest, f);
      SumRemove(t, f, k);
    } else {
      assert |t| == |multiset(t)| == 0;
    }
  }

  /** A part of a positive whole, divided by it, lies in [0, 1]. */
  lemma RatioBounds(n: real, w: real)
    requires 0.0 <= n <= w && 0.0 < w
    ensures 0.0 <= n / w <= 1.0
    ensures n == w ==> n / w == 1.0
    ensures n == 0.0 ==> n / w == 0.0
  {
    var q := n / w;
    assert q * w == n;
    assert (1.0 - q) * w == w - n;
  }
}
