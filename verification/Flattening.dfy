/** Concatenating what each element of a slice contributes. */
module Flattening {
  import opened Ordering

  function FlatMap<T, U>(f: T -> seq<U>, xs: seq<T>): seq<U> {
    if xs == [] then [] else FlatMap(f, xs[..|xs| - 1]) + f(xs[|xs| - 1])
  }

  lemma FlatMapStep<T, U>(f: T -> seq<U>, xs: seq<T>, i: nat)
    requires i < |xs|
    ensures FlatMap(f, xs[..i + 1]) == FlatMap(f, xs[..i]) + f(xs[i])
  {
    assert xs[..i + 1][..i] == xs[..i];
  }

  lemma {:induction false} FlatMapConcat<T, U>(f: T -> seq<U>, xs: seq<T>, ys: seq<T>)
    ensures FlatMap(f, xs + ys) == FlatMap(f, xs) + FlatMap(f, ys)
  {
    if ys == [] {
      assert xs + ys == xs;
    } else {
      var last := |ys| - 1;
      assert (xs + ys)[..|xs + ys| - 1] == xs + ys[..last];
      FlatMapConcat(f, xs, ys[..last]);
      assert FlatMap(f, xs) + FlatMap(f, ys[..last]) + f(ys[last])
             == FlatMap(f, xs) + (FlatMap(f, ys[..last]) + f(ys[last]));
    }
  }

  lemma FlatMapOne<T, U>(f: T -> seq<U>, x: T)
    ensures FlatMap(f, [x]) == f(x)
  {
    assert [x][..0] == [];
  }

  /** An element is contributed by some element of the slice. */
  lemma {:induction false} FlatMapContains<T, U>(f: T -> seq<U>, xs: seq<T>, u: U)
    ensures u in FlatMap(f, xs) <==> exists x | x in xs :: u in f(x)
  {
    if xs == [] {
    } else {
      var last := |xs| - 1;
      FlatMapContains(f, xs[..last], u);
      assert xs == xs[..last] + [xs[last]];
    }
  }

  lemma TakenOutContribute<T, U>(f: T -> seq<U>, before: seq<T>, x: T, after: seq<T>)
    ensures multiset(FlatMap(f, before + [x] + after)) == multiset(FlatMap(f, before + after)) + multiset(f(x))
  {
    FlatMapConcat(f, before + [x], after);
    FlatMapConcat(f, before, [x]);
    FlatMapConcat(f, before, after);
    FlatMapOne(f, x);
  }

  /** The order of the slice only reorders what it contributes. */
  lemma {:induction false} FlatMapPermutes<T, U>(f: T -> seq<U>, xs: seq<T>, ys: seq<T>)
    requires multiset(xs) == multiset(ys)
    ensures multiset(FlatMap(f, xs)) == multiset(FlatMap(f, ys))
  {
    if xs == [] {
      SameMembers(xs, ys);
    } else {
      var rest := xs[1..];
      assert xs == [xs[0]] + rest;
      var before, after := TakeOut(xs[0], rest, ys);
      FlatMapPermutes(f, rest, before + after);
      TakenOutContribute(f, before, xs[0], after);
      TakenOutContribute(f, [], xs[0], rest);
      assert [] + [xs[0]] + rest == xs && [] + rest == rest;
    }
  }

  /** Slices that contribute the same up to order, element by element, contribute the same up to order. */
  lemma {:induction false} FlatMapAlike<T, U>(f: T -> seq<U>, g: T -> seq<U>, xs: seq<T>)
    requires forall x | x in xs :: multiset(f(x)) == multiset(g(x))
    ensures multiset(FlatMap(f, xs)) == multiset(FlatMap(g, xs))
  {
    if xs != [] {
      FlatMapAlike(f, g, xs[..|xs| - 1]);
    }
  }

  /** Flattening twice is flattening once what each element contributes in the end. */
  lemma {:induction false} FlatMapTwice<T, U, V>(f: T -> seq<U>, g: U -> seq<V>, h: T -> seq<V>, xs: seq<T>)
    requires forall x | x in xs :: FlatMap(g, f(x)) == h(x)
    ensures FlatMap(g, FlatMap(f, xs)) == FlatMap(h, xs)
  {
    if xs != [] {
      FlatMapTwice(f, g, h, xs[..|xs| - 1]);
      FlatMapConcat(g, FlatMap(f, xs[..|xs| - 1]), f(xs[|xs| - 1]));
    }
  }
}
