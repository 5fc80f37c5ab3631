/** `Array.prototype.flatMap` and small facts about sequence prefixes. */
module Sequences {

  /** `xs.flatMap(f)`: the results of `f` on each element, concatenated in order. */
  function FlatMap<A, B>(xs: seq<A>, f: A -> seq<B>): seq<B>
  {
    if |xs| == 0 then [] else FlatMap(xs[..|xs| - 1], f) + f(xs[|xs| - 1])
  }

  /** Flat-mapping a concatenation concatenates the flat-maps. */
  lemma {:induction false} FlatMapAppend<A, B>(xs: seq<A>, ys: seq<A>, f: A -> seq<B>)
    ensures FlatMap(xs + ys, f) == FlatMap(xs, f) + FlatMap(ys, f)
  {
    if |ys| == 0 {
      assert xs + ys == xs;
    } else {
      var init := ys[..|ys| - 1];
      FlatMapAppend(xs, init, f);
      assert (xs + ys)[..|xs + ys| - 1] == xs + init;
    }
  }

  /** An element is in the flat-map exactly when some element's result holds it. */
  lemma {:induction false} FlatMapHas<A, B>(xs: seq<A>, f: A -> seq<B>, y: B)
    ensures y in FlatMap(xs, f) <==> exists i :: 0 <= i < |xs| && y in f(xs[i])
  {
    if |xs| > 0 {
      var init := xs[..|xs| - 1];
      FlatMapHas(init, f, y);
      if exists i :: 0 <= i < |init| && y in f(init[i]) {
        var i :| 0 <= i < |init| && y in f(init[i]);
        assert xs[i] == init[i];
      }
      if exists i :: 0 <= i < |xs| && y in f(xs[i]) {
        var i :| 0 <= i < |xs| && y in f(xs[i]);
        if i < |init| {
          assert init[i] == xs[i];
        }
      }
    }
  }

  /** The flat-map of one more element of a prefix. */
  lemma FlatMapPrefix<A, B>(xs: seq<A>, i: nat, f: A -> seq<B>)
    requires i < |xs|
    ensures FlatMap(xs[..i + 1], f) == FlatMap(xs[..i], f) + f(xs[i])
  {
    assert xs[..i + 1][..i] == xs[..i];
  }

  /** The flat-map of one element is that element's result. */
  lemma FlatMapSingleton<A, B>(x: A, f: A -> seq<B>)
    ensures FlatMap([x], f) == f(x)
  {
    assert [x][..0] == [];
  }

  /** The flat-map of two elements is their results in order. */
  lemma FlatMapTwo<A, B>(x: A, y: A, f: A -> seq<B>)
    ensures FlatMap([x, y], f) == f(x) + f(y)
  {
    assert [x, y][..1] == [x];
    FlatMapSingleton(x, f);
  }

  /** A prefix one longer is the prefix and the next element. */
  lemma PrefixSnoc<T>(s: seq<T>, j: nat)
    requires j < |s|
    ensures s[..j + 1] == s[..j] + [s[j]]
  {
  }
}
