/** Counting and repetition over sequences, the vocabulary in which the
    "once per matching entry" behaviour of tag association is stated. */
module Sequences {

  /** How many times `x` occurs in `xs`. */
  function Count<T(==)>(xs: seq<T>, x: T): nat
  {
    if xs == [] then 0
    else Count(xs[..|xs| - 1], x) + (if xs[|xs| - 1] == x then 1 else 0)
  }

  /** `n` copies of `x`. */
  function Repeat<T>(x: T, n: nat): (r: seq<T>)
    ensures |r| == n
    ensures forall k :: 0 <= k < n ==> r[k] == x
  {
    if n == 0 then [] else Repeat(x, n - 1) + [x]
  }

  lemma {:induction false} CountAppend<T>(a: seq<T>, b: seq<T>, x: T)
    ensures Count(a + b, x) == Count(a, x) + Count(b, x)
    decreases |b|
  {
    if b == [] {
      assert a + b == a;
    } else {
      var b' := b[..|b| - 1];
      assert (a + b)[..|a + b| - 1] == a + b';
      CountAppend(a, b', x);
    }
  }

  lemma {:induction false} CountRepeat<T>(y: T, n: nat, x: T)
    ensures Count(Repeat(y, n), x) == if y == x then n else 0
  {
    if n > 0 {
      assert Repeat(y, n)[..n - 1] == Repeat(y, n - 1);
      CountRepeat(y, n - 1, x);
    }
  }

  /** `x` occurs in `xs` exactly when it is counted at least once. */
  lemma {:induction false} CountPositive<T>(xs: seq<T>, x: T)
    ensures Count(xs, x) > 0 <==> x in xs
  {
    if xs != [] {
      var xs' := xs[..|xs| - 1];
      CountPositive(xs', x);
      assert xs == xs' + [xs[|xs| - 1]];
    }
  }
}
