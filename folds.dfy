/**
 * The two shapes of the builder's loops, independent of what one step does:
 * a left fold (a state threaded through the elements in order) and a flat
 * map (each element contributing a run of results, appended in order).
 */
module Folds {
  /** `f` applied to the elements of `xs` one after the other, starting from `s`. */
  function FoldLeft<S, X>(f: (S, X) -> S, s: S, xs: seq<X>): S
  {
    if |xs| == 0 then s else f(FoldLeft(f, s, xs[..|xs| - 1]), xs[|xs| - 1])
  }

  /** Folding over `a + b` is folding over `a`, then over `b` from where `a` left off. */
  lemma {:induction false} FoldLeftConcat<S, X>(f: (S, X) -> S, s: S, a: seq<X>, b: seq<X>)
    ensures FoldLeft(f, s, a + b) == FoldLeft(f, FoldLeft(f, s, a), b)
  {
    if |b| == 0 {
      assert a + b == a;
    } else {
      assert (a + b)[..|a + b| - 1] == a + b[..|b| - 1];
      FoldLeftConcat(f, s, a, b[..|b| - 1]);
    }
  }

  /** A state that no step changes is the result of every fold from it. */
  lemma {:induction false} FoldLeftFixed<S, X>(f: (S, X) -> S, s: S, xs: seq<X>)
    requires forall x :: f(s, x) == s
    ensures FoldLeft(f, s, xs) == s
  {
    if |xs| > 0 {
      FoldLeftFixed(f, s, xs[..|xs| - 1]);
    }
  }

  /** Once a prefix of `xs` has led to a state no step changes, the rest of `xs` changes nothing. */
  lemma FoldLeftPrefixFixed<S, X>(f: (S, X) -> S, s: S, done: seq<X>, all: seq<X>)
    requires done <= all
    requires forall x :: f(FoldLeft(f, s, done), x) == FoldLeft(f, s, done)
    ensures FoldLeft(f, s, all) == FoldLeft(f, s, done)
  {
    var rest := all[|done|..];
    assert all == done + rest;
    FoldLeftConcat(f, s, done, rest);
    FoldLeftFixed(f, FoldLeft(f, s, done), rest);
  }

  /** The results of `f` on the elements of `xs`, appended in order. */
  function FlatMap<X, Y>(f: X -> seq<Y>, xs: seq<X>): seq<Y>
  {
    if |xs| == 0 then [] else FlatMap(f, xs[..|xs| - 1]) + f(xs[|xs| - 1])
  }

  /** The flat map of `a + b` is that of `a` followed by that of `b`. */
  lemma {:induction false} FlatMapConcat<X, Y>(f: X -> seq<Y>, a: seq<X>, b: seq<X>)
    ensures FlatMap(f, a + b) == FlatMap(f, a) + FlatMap(f, b)
  {
    if |b| == 0 {
      assert a + b == a;
    } else {
      var init := b[..|b| - 1];
      assert (a + b)[..|a + b| - 1] == a + init;
      FlatMapConcat(f, a, init);
    }
  }

  /** The flat map of a prefix is a prefix of the flat map. */
  lemma FlatMapPrefix<X, Y>(f: X -> seq<Y>, a: seq<X>, b: seq<X>)
    requires a <= b
    ensures FlatMap(f, a) <= FlatMap(f, b)
  {
    var rest := b[|a|..];
    assert b == a + rest;
    FlatMapConcat(f, a, rest);
  }

  /** Taking one more element appends it. */
  lemma TakeSnoc<X>(xs: seq<X>, k: nat)
    requires k < |xs|
    ensures xs[..k + 1] == xs[..k] + [xs[k]]
  {
  }
}
