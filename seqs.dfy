/** Prefixes of sequences: JavaScript's `slice(0, n)` and Python's `xs[:n]`,
    used for every truncation and every cap in the model. */
module Seqs {

  /** The first `n` elements of `xs`, or all of `xs` when it is shorter. */
  function Take<T>(xs: seq<T>, n: nat): (r: seq<T>)
    ensures r <= xs
    ensures |r| == if |xs| <= n then |xs| else n
  {
    if |xs| <= n then xs else xs[..n]
  }

  lemma TakeCons<T>(x: T, xs: seq<T>, n: nat)
    requires n > 0
    ensures Take([x] + xs, n) == [x] + Take(xs, n - 1)
  {
    if |xs| > n - 1 {
      assert ([x] + xs)[..n] == [x] + xs[..n - 1];
    }
  }

  /** Taking from a concatenation: once `a` alone fills the budget `b` is
      never reached, otherwise all of `a` and the rest of the budget from `b`. */
  lemma TakeAppend<T>(a: seq<T>, b: seq<T>, n: nat)
    ensures |a| >= n ==> Take(a + b, n) == Take(a, n)
    ensures |a| < n ==> Take(a + b, n) == a + Take(b, n - |a|)
  {
    if |a| >= n {
      assert (a + b)[..n] == a[..n];
    } else if |a + b| > n {
      assert (a + b)[..n] == a + b[..n - |a|];
    }
  }

  lemma AppendAssoc<T>(a: seq<T>, b: seq<T>, c: seq<T>)
    ensures (a + b) + c == a + (b + c)
  {
  }
}
