/** Counting the elements of a slice that satisfy a predicate. */
module Counting {

  function Min(a: int, b: int): int { if a <= b then a else b }

  function Max(a: int, b: int): int { if a >= b then a else b }

  function Count<T>(xs: seq<T>, p: T -> bool): nat {
    if xs == [] then 0 else Count(xs[..|xs| - 1], p) + (if p(xs[|xs| - 1]) then 1 else 0)
  }

  lemma CountStep<T>(xs: seq<T>, i: nat, p: T -> bool)
    requires i < |xs|
    ensures Count(xs[..i + 1], p) == Count(xs[..i], p) + (if p(xs[i]) then 1 else 0)
  {
    assert xs[..i + 1][..i] == xs[..i];
  }

  lemma {:induction false} CountConcat<T>(xs: seq<T>, ys: seq<T>, p: T -> bool)
    ensures Count(xs + ys, p) == Count(xs, p) + Count(ys, p)
  {
    if ys == [] {
      assert xs + ys == xs;
    } else {
      assert (xs + ys)[..|xs + ys| - 1] == xs + ys[..|ys| - 1];
      CountConcat(xs, ys[..|ys| - 1], p);
    }
  }

  lemma {:induction false} CountPositive<T>(xs: seq<T>, p: T -> bool)
    ensures Count(xs, p) > 0 <==> exists x | x in xs :: p(x)
  {
    if xs == [] {
    } else {
      var last := |xs| - 1;
      assert xs == xs[..last] + [xs[last]];
      CountPositive(xs[..last], p);
    }
  }

  lemma {:induction false} CountWeakens<T>(xs: seq<T>, p: T -> bool, q: T -> bool)
    requires forall x | x in xs :: p(x) ==> q(x)
    ensures Count(xs, p) <= Count(xs, q)
  {
    if xs == [] {
    } else {
      CountWeakens(xs[..|xs| - 1], p, q);
    }
  }

  /** A count does not depend on the order of the slice. */
  lemma {:induction false} CountPermutes<T>(xs: seq<T>, ys: seq<T>, p: T -> bool)
    requires multiset(xs) == multiset(ys)
    ensures Count(xs, p) == Count(ys, p)
  {
    assert |multiset(xs)| == |multiset(ys)|;
    if xs == [] {
    } else {
      var last := |xs| - 1;
      assert xs[last] in multiset(ys);
      var j :| 0 <= j < |ys| && ys[j] == xs[last];
      var rest := ys[..j] + ys[j + 1..];
      assert ys == ys[..j] + ([ys[j]] + ys[j + 1..]);
      assert xs == xs[..last] + [xs[last]];
      assert multiset(rest) == multiset(ys) - multiset{ys[j]};
      CountPermutes(xs[..last], rest, p);
      CountConcat(ys[..j], ys[j + 1..], p);
      CountConcat(ys[..j], [ys[j]] + ys[j + 1..], p);
      CountConcat([ys[j]], ys[j + 1..], p);
    }
  }

  /** Inserting an element adds it to the count, wherever it goes. */
  lemma {:induction false} CountInsert<T>(xs: seq<T>, at: nat, x: T, p: T -> bool)
    requires at <= |xs|
    ensures Count(xs[..at] + [x] + xs[at..], p) == Count(xs, p) + (if p(x) then 1 else 0)
  {
    CountConcat(xs[..at] + [x], xs[at..], p);
    CountConcat(xs[..at], [x], p);
    CountConcat(xs[..at], xs[at..], p);
    assert xs == xs[..at] + xs[at..];
  }
}
