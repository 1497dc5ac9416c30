/**
 Iteration and left folds over sequences, with the facts about them that do not depend on
 what is being folded.  Keeping them generic keeps bit-vector terms out of the inductions.
 */
module Folds {

  /** f applied n times. */
  function Iterate<T>(f: T -> T, x: T, n: nat): T {
    if n == 0 then x else Iterate(f, f(x), n - 1)
  }

  /** Left fold; the last element is folded in last, so appending one element is one unfolding. */
  function Fold<S, B>(f: (S, B) -> S, s: S, bs: seq<B>): S {
    if bs == [] then s else f(Fold(f, s, bs[..|bs| - 1]), bs[|bs| - 1])
  }

  lemma {:induction false} IterateAdd<T>(f: T -> T, x: T, m: nat, n: nat)
    ensures Iterate(f, x, m + n) == Iterate(f, Iterate(f, x, m), n)
    decreases m
  {
    if m > 0 {
      IterateAdd(f, f(x), m - 1, n);
    }
  }

  /** Iteration follows any chain of successive values. */
  lemma {:induction false} IterateChain<T>(f: T -> T, xs: seq<T>)
    requires xs != []
    requires forall i :: 0 <= i < |xs| - 1 ==> f(xs[i]) == xs[i + 1]
    ensures Iterate(f, xs[0], |xs| - 1) == xs[|xs| - 1]
    decreases |xs|
  {
    if |xs| > 1 {
      IterateChain(f, xs[1..]);
    }
  }

  /** An operation that f commutes with is preserved by any number of applications. */
  lemma {:induction false} IterateHomomorphism<T(!new)>(f: T -> T, op: (T, T) -> T, x: T, y: T, n: nat)
    requires forall a, b :: f(op(a, b)) == op(f(a), f(b))
    ensures Iterate(f, op(x, y), n) == op(Iterate(f, x, n), Iterate(f, y, n))
    decreases n
  {
    if n > 0 {
      IterateHomomorphism(f, op, f(x), f(y), n - 1);
    }
  }

  lemma {:induction false} IterateInjective<T(!new)>(f: T -> T, x: T, y: T, n: nat)
    requires forall a, b :: f(a) == f(b) ==> a == b
    requires Iterate(f, x, n) == Iterate(f, y, n)
    ensures x == y
    decreases n
  {
    if n > 0 {
      IterateInjective(f, f(x), f(y), n - 1);
    }
  }

  /**
   Iterating g over a state with a pending word added in is folding f over the elements the word
   is made of, when each g takes one element out of the pending word.
   */
  lemma {:induction false} IterateIsFold<S(!new), B>(
    g: S -> S, f: (S, B) -> S, op: (S, S) -> S, s: S, ws: seq<S>, bs: seq<B>)
    requires |ws| == |bs| + 1
    requires forall a, i :: 0 <= i < |bs| ==> g(op(a, ws[i])) == op(f(a, bs[i]), ws[i + 1])
    ensures Iterate(g, op(s, ws[0]), |bs|) == op(Fold(f, s, bs), ws[|bs|])
    decreases |bs|
  {
    if bs != [] {
      var n := |bs| - 1;
      IterateIsFold(g, f, op, s, ws[..n + 1], bs[..n]);
      IterateAdd(g, op(s, ws[0]), n, 1);
    }
  }

  /** Folding over a concatenation is folding over its parts in turn. */
  lemma {:induction false} FoldConcat<S, B>(f: (S, B) -> S, s: S, xs: seq<B>, ys: seq<B>)
    ensures Fold(f, s, xs + ys) == Fold(f, Fold(f, s, xs), ys)
    decreases |ys|
  {
    if ys == [] {
      assert xs + ys == xs;
    } else {
      var init := ys[..|ys| - 1];
      FoldConcat(f, s, xs, init);
      assert (xs + ys)[..|xs + ys| - 1] == xs + init;
    }
  }

  /** A step that is injective in the state keeps different states different. */
  lemma {:induction false} FoldInjective<S(!new), B(!new)>(f: (S, B) -> S, s: S, t: S, bs: seq<B>)
    requires forall a, c, b :: f(a, b) == f(c, b) ==> a == c
    requires Fold(f, s, bs) == Fold(f, t, bs)
    ensures s == t
    decreases |bs|
  {
    if bs != [] {
      FoldInjective(f, s, t, bs[..|bs| - 1]);
    }
  }

  /** Combining two runs element by element, when the step commutes with both combinations. */
  lemma {:induction false} FoldHomomorphism<S(!new), B(!new)>(
    f: (S, B) -> S, opS: (S, S) -> S, opB: (B, B) -> B, s: S, t: S, xs: seq<B>, ys: seq<B>)
    requires |xs| == |ys|
    requires forall a, c, x, y :: f(opS(a, c), opB(x, y)) == opS(f(a, x), f(c, y))
    ensures Fold(f, opS(s, t), Zip(opB, xs, ys)) == opS(Fold(f, s, xs), Fold(f, t, ys))
    decreases |xs|
  {
    if xs != [] {
      var n := |xs| - 1;
      FoldHomomorphism(f, opS, opB, s, t, xs[..n], ys[..n]);
      assert Zip(opB, xs, ys)[..n] == Zip(opB, xs[..n], ys[..n]);
    }
  }

  function Zip<B>(op: (B, B) -> B, xs: seq<B>, ys: seq<B>): seq<B>
    requires |xs| == |ys|
  {
    seq(|xs|, i requires 0 <= i < |xs| => op(xs[i], ys[i]))
  }

  /** Right fold: the word a short window of elements amounts to. */
  function FoldRight<S, B>(join: (B, S) -> S, zero: S, bs: seq<B>): S {
    if bs == [] then zero else join(bs[0], FoldRight(join, zero, bs[1..]))
  }

  /**
   A window of at most k elements acts on the state like its word added in before |bs| rounds g,
   when one round takes the first element out of such a word.
   */
  lemma {:induction false} FoldOfWindow<S(!new), B(!new)>(
    f: (S, B) -> S, g: S -> S, op: (S, S) -> S, join: (B, S) -> S, zero: S, k: nat, s: S, bs: seq<B>)
    requires |bs| <= k
    requires forall a, b, rest: seq<B> {:trigger join(b, FoldRight(join, zero, rest)), f(a, b)} :: |rest| < k ==>
      g(op(a, join(b, FoldRight(join, zero, rest)))) == op(f(a, b), FoldRight(join, zero, rest))
    ensures op(Fold(f, s, bs), zero) == Iterate(g, op(s, FoldRight(join, zero, bs)), |bs|)
    decreases |bs|
  {
    if bs != [] {
      FoldConcat(f, s, [bs[0]], bs[1..]);
      assert bs == [bs[0]] + bs[1..];
      FoldOfWindow(f, g, op, join, zero, k, f(s, bs[0]), bs[1..]);
    }
  }

  lemma {:induction false} FoldRightInjective<S(!new), B(!new)>(
    join: (B, S) -> S, zero: S, k: nat, xs: seq<B>, ys: seq<B>)
    requires |xs| == |ys| <= k
    requires forall a, b, us: seq<B>, vs: seq<B>
      {:trigger join(a, FoldRight(join, zero, us)), join(b, FoldRight(join, zero, vs))} ::
      |us| == |vs| < k && join(a, FoldRight(join, zero, us)) == join(b, FoldRight(join, zero, vs))
      ==> a == b && FoldRight(join, zero, us) == FoldRight(join, zero, vs)
    requires FoldRight(join, zero, xs) == FoldRight(join, zero, ys)
    ensures xs == ys
    decreases |xs|
  {
    if xs != [] {
      FoldRightInjective(join, zero, k, xs[1..], ys[1..]);
      assert xs == [xs[0]] + xs[1..] && ys == [ys[0]] + ys[1..];
    }
  }

  /** Windows of at most k elements that lead one state to the same state are the same window. */
  lemma {:induction false} WindowInjective<S(!new), B(!new)>(
    f: (S, B) -> S, g: S -> S, op: (S, S) -> S, join: (B, S) -> S, zero: S, k: nat, s: S, xs: seq<B>, ys: seq<B>)
    requires |xs| == |ys| <= k
    requires forall a, b, rest: seq<B> {:trigger join(b, FoldRight(join, zero, rest)), f(a, b)} :: |rest| < k ==>
      g(op(a, join(b, FoldRight(join, zero, rest)))) == op(f(a, b), FoldRight(join, zero, rest))
    requires forall a, b, us: seq<B>, vs: seq<B>
      {:trigger join(a, FoldRight(join, zero, us)), join(b, FoldRight(join, zero, vs))} ::
      |us| == |vs| < k && join(a, FoldRight(join, zero, us)) == join(b, FoldRight(join, zero, vs))
      ==> a == b && FoldRight(join, zero, us) == FoldRight(join, zero, vs)
    requires forall a, b :: g(a) == g(b) ==> a == b
    requires forall a, b, c :: op(a, b) == op(a, c) ==> b == c
    requires Fold(f, s, xs) == Fold(f, s, ys)
    ensures xs == ys
  {
    FoldOfWindow(f, g, op, join, zero, k, s, xs);
    FoldOfWindow(f, g, op, join, zero, k, s, ys);
    IterateInjective(g, op(s, FoldRight(join, zero, xs)), op(s, FoldRight(join, zero, ys)), |xs|);
    FoldRightInjective(join, zero, k, xs, ys);
  }
}
