/**
 Comparison of strings by code point, the stable sort of a slice, and the facts that
 make a sorted slice independent of the order it was built in.
 */
module Ordering {

  /** True iff lessOrEqual is reflexive, transitive and relates any two values. */
  ghost predicate TotalPreorder<T(!new)>(lessOrEqual: (T, T) -> bool) {
    && (forall x :: lessOrEqual(x, x))
    && (forall x, y :: lessOrEqual(x, y) || lessOrEqual(y, x))
    && (forall x, y, z :: lessOrEqual(x, y) && lessOrEqual(y, z) ==> lessOrEqual(x, z))
  }

  /** True iff every element is at most every later one. */
  ghost predicate SortedBy<T>(xs: seq<T>, lessOrEqual: (T, T) -> bool) {
    forall i, j | 0 <= i < j < |xs| :: lessOrEqual(xs[i], xs[j])
  }

  /** True iff elements of xs that the order does not separate are equal. */
  ghost predicate Separates<T>(xs: multiset<T>, lessOrEqual: (T, T) -> bool) {
    forall x, y | x in xs && y in xs && lessOrEqual(x, y) && lessOrEqual(y, x) :: x == y
  }

  function Apply<T, U>(f: T -> U, xs: seq<T>): (ys: seq<U>)
    ensures |ys| == |xs| && forall i | 0 <= i < |xs| :: ys[i] == f(xs[i])
  {
    seq(|xs|, i requires 0 <= i < |xs| => f(xs[i]))
  }

  // ----- The stable sort

  function Insert<T>(x: T, ys: seq<T>, lessOrEqual: (T, T) -> bool): seq<T> {
    if ys == [] || lessOrEqual(x, ys[0]) then [x] + ys else [ys[0]] + Insert(x, ys[1..], lessOrEqual)
  }

  function StableSort<T>(xs: seq<T>, lessOrEqual: (T, T) -> bool): seq<T> {
    if xs == [] then [] else Insert(xs[0], StableSort(xs[1..], lessOrEqual), lessOrEqual)
  }

  lemma {:induction false} InsertPermutes<T>(x: T, ys: seq<T>, lessOrEqual: (T, T) -> bool)
    ensures multiset(Insert(x, ys, lessOrEqual)) == multiset{x} + multiset(ys)
  {
    if ys == [] || lessOrEqual(x, ys[0]) {
    } else {
      InsertPermutes(x, ys[1..], lessOrEqual);
      assert ys == [ys[0]] + ys[1..];
    }
  }

  lemma {:induction false} SortPermutes<T>(xs: seq<T>, lessOrEqual: (T, T) -> bool)
    ensures multiset(StableSort(xs, lessOrEqual)) == multiset(xs)
    ensures |StableSort(xs, lessOrEqual)| == |xs|
  {
    if xs == [] {
    } else {
      SortPermutes(xs[1..], lessOrEqual);
      InsertPermutes(xs[0], StableSort(xs[1..], lessOrEqual), lessOrEqual);
      assert xs == [xs[0]] + xs[1..];
    }
    assert |multiset(StableSort(xs, lessOrEqual))| == |multiset(xs)|;
  }

  lemma {:induction false} InsertKeepsOrder<T(!new)>(x: T, ys: seq<T>, lessOrEqual: (T, T) -> bool)
    requires TotalPreorder(lessOrEqual) && SortedBy(ys, lessOrEqual)
    ensures SortedBy(Insert(x, ys, lessOrEqual), lessOrEqual)
  {
    if ys == [] || lessOrEqual(x, ys[0]) {
    } else {
      InsertKeepsOrder(x, ys[1..], lessOrEqual);
      InsertPermutes(x, ys[1..], lessOrEqual);
      var rest := Insert(x, ys[1..], lessOrEqual);
      forall k | 0 <= k < |rest| ensures lessOrEqual(ys[0], rest[k]) {
        assert rest[k] in multiset(rest);
      }
    }
  }

  lemma {:induction false} SortOrders<T(!new)>(xs: seq<T>, lessOrEqual: (T, T) -> bool)
    requires TotalPreorder(lessOrEqual)
    ensures SortedBy(StableSort(xs, lessOrEqual), lessOrEqual)
  {
    if xs == [] {
    } else {
      SortOrders(xs[1..], lessOrEqual);
      InsertKeepsOrder(xs[0], StableSort(xs[1..], lessOrEqual), lessOrEqual);
    }
  }

  /** A slice that is sorted already is left as it is. */
  lemma {:induction false} SortFixesSorted<T>(xs: seq<T>, lessOrEqual: (T, T) -> bool)
    requires SortedBy(xs, lessOrEqual)
    ensures StableSort(xs, lessOrEqual) == xs
  {
    if xs == [] {
    } else {
      SortFixesSorted(xs[1..], lessOrEqual);
      assert xs == [xs[0]] + xs[1..];
    }
  }

  lemma HeadTaken<T>(xs: seq<T>)
    requires xs != []
    ensures xs[0] in multiset(xs) && multiset(xs[1..]) == multiset(xs) - multiset{xs[0]}
  {
    assert xs == [xs[0]] + xs[1..];
  }

  lemma HeadIsLeast<T>(xs: seq<T>, x: T, lessOrEqual: (T, T) -> bool)
    requires SortedBy(xs, lessOrEqual) && x in multiset(xs)
    ensures xs != [] && (x == xs[0] || lessOrEqual(xs[0], x))
  {
    var i :| 0 <= i < |xs| && xs[i] == x;
  }

  lemma SameHead<T>(xs: seq<T>, ys: seq<T>, lessOrEqual: (T, T) -> bool)
    requires SortedBy(xs, lessOrEqual) && SortedBy(ys, lessOrEqual) && xs != []
    requires multiset(xs) == multiset(ys) && Separates(multiset(xs), lessOrEqual)
    ensures ys != [] && xs[0] == ys[0]
    ensures multiset(xs[1..]) == multiset(ys[1..])
  {
    HeadTaken(xs);
    HeadIsLeast(ys, xs[0], lessOrEqual);
    HeadTaken(ys);
    HeadIsLeast(xs, ys[0], lessOrEqual);
  }

  /** Two sorted slices of the same elements are equal when the order separates them. */
  lemma {:induction false} SortedUnique<T>(xs: seq<T>, ys: seq<T>, lessOrEqual: (T, T) -> bool)
    requires SortedBy(xs, lessOrEqual) && SortedBy(ys, lessOrEqual)
    requires multiset(xs) == multiset(ys) && Separates(multiset(xs), lessOrEqual)
    ensures xs == ys
  {
    if xs == [] {
      assert |multiset(xs)| == |multiset(ys)|;
    } else {
      SameHead(xs, ys, lessOrEqual);
      assert multiset(xs[1..]) <= multiset(xs) by { assert xs == [xs[0]] + xs[1..]; }
      SortedUnique(xs[1..], ys[1..], lessOrEqual);
      assert xs == [xs[0]] + xs[1..] && ys == [ys[0]] + ys[1..];
    }
  }

  /** Sorting forgets the order of a slice whose elements the order separates. */
  lemma SortForgetsOrder<T(!new)>(xs: seq<T>, ys: seq<T>, lessOrEqual: (T, T) -> bool)
    requires TotalPreorder(lessOrEqual)
    requires multiset(xs) == multiset(ys) && Separates(multiset(xs), lessOrEqual)
    ensures StableSort(xs, lessOrEqual) == StableSort(ys, lessOrEqual)
  {
    SortPermutes(xs, lessOrEqual);
    SortPermutes(ys, lessOrEqual);
    SortOrders(xs, lessOrEqual);
    SortOrders(ys, lessOrEqual);
    SortedUnique(StableSort(xs, lessOrEqual), StableSort(ys, lessOrEqual), lessOrEqual);
  }

  lemma {:induction false} InsertApply<T, U>(f: T -> U, x: T, ys: seq<T>, le: (T, T) -> bool, leImage: (U, U) -> bool)
    requires forall y | y in ys :: le(x, y) == leImage(f(x), f(y))
    ensures Apply(f, Insert(x, ys, le)) == Insert(f(x), Apply(f, ys), leImage)
  {
    if ys == [] {
    } else if le(x, ys[0]) {
      assert leImage(f(x), Apply(f, ys)[0]);
    } else {
      InsertApply(f, x, ys[1..], le, leImage);
      assert Apply(f, ys)[1..] == Apply(f, ys[1..]);
    }
  }

  /** Sorting commutes with a map that carries one order to the other. */
  lemma {:induction false} SortApply<T, U>(f: T -> U, xs: seq<T>, le: (T, T) -> bool, leImage: (U, U) -> bool)
    requires forall x, y | x in xs && y in xs :: le(x, y) == leImage(f(x), f(y))
    ensures Apply(f, StableSort(xs, le)) == StableSort(Apply(f, xs), leImage)
  {
    if xs == [] {
    } else {
      SortApply(f, xs[1..], le, leImage);
      SortPermutes(xs[1..], le);
      forall y | y in StableSort(xs[1..], le) ensures le(xs[0], y) == leImage(f(xs[0]), f(y)) {
        assert y in multiset(xs[1..]);
      }
      InsertApply(f, xs[0], StableSort(xs[1..], le), le, leImage);
      assert Apply(f, xs)[1..] == Apply(f, xs[1..]);
    }
  }

  /** The first i + 1 elements are the first i and the next. */
  lemma TakeOneMore<T>(xs: seq<T>, i: nat)
    requires i < |xs|
    ensures xs[..i + 1] == xs[..i] + [xs[i]] && xs[..i + 1][..i] == xs[..i]
  {
  }

  /** Some element of a slice has a property exactly when the last has it, or one before. */
  lemma SomeStep<T>(xs: seq<T>, p: T -> bool)
    requires xs != []
    ensures (exists x | x in xs :: p(x)) <==> (exists x | x in xs[..|xs| - 1] :: p(x)) || p(xs[|xs| - 1])
  {
    assert xs == xs[..|xs| - 1] + [xs[|xs| - 1]];
  }

  /** What holds at the start and is kept by each step holds in the end. */
  lemma {:induction false} StepByStep(holds: nat -> bool, count: nat)
    requires holds(0) && forall k: nat | k < count && holds(k) :: holds(k + 1)
    ensures holds(count)
  {
    if count > 0 {
      StepByStep(holds, count - 1);
    }
  }

  lemma ConcatAssociates<T>(xs: seq<T>, ys: seq<T>, zs: seq<T>)
    ensures xs + ys + zs == xs + (ys + zs)
  {
  }

  /** Two arrangements of a slice have the same elements. */
  lemma SameMembers<T>(xs: seq<T>, ys: seq<T>)
    requires multiset(xs) == multiset(ys)
    ensures forall x :: x in xs <==> x in ys
    ensures xs == [] <==> ys == []
  {
    forall x ensures x in xs <==> x in ys {
      assert x in multiset(xs) <==> x in multiset(ys);
    }
    assert |multiset(xs)| == |multiset(ys)|;
  }

  lemma ApplyConcat<T, U>(f: T -> U, xs: seq<T>, ys: seq<T>)
    ensures Apply(f, xs + ys) == Apply(f, xs) + Apply(f, ys)
  {
  }

  /** An element can be taken out of either of two arrangements of a slice. */
  lemma TakeOut<T>(x: T, xs: seq<T>, ys: seq<T>) returns (before: seq<T>, after: seq<T>)
    requires multiset([x] + xs) == multiset(ys)
    ensures ys == before + [x] + after && multiset(before + after) == multiset(xs)
  {
    assert x in multiset([x] + xs);
    var j :| 0 <= j < |ys| && ys[j] == x;
    before, after := ys[..j], ys[j + 1..];
    assert ys == before + [x] + after;
    assert multiset(ys) == multiset(before) + multiset{x} + multiset(after);
    assert multiset(xs) == multiset([x] + xs) - multiset{x};
    assert multiset(before + after) == multiset(before) + multiset(after);
  }

  lemma {:induction false} ApplyPermutes<T, U>(f: T -> U, xs: seq<T>, ys: seq<T>)
    requires multiset(xs) == multiset(ys)
    ensures multiset(Apply(f, xs)) == multiset(Apply(f, ys))
  {
    if xs == [] {
      assert |multiset(xs)| == |multiset(ys)|;
    } else {
      assert xs == [xs[0]] + xs[1..];
      var before, after := TakeOut(xs[0], xs[1..], ys);
      ApplyPermutes(f, xs[1..], before + after);
      ApplyConcat(f, [xs[0]], xs[1..]);
      ApplyConcat(f, before + [xs[0]], after);
      ApplyConcat(f, before, [xs[0]]);
      ApplyConcat(f, before, after);
    }
  }

  // ----- Comparison of strings

  /** The sign of the first difference of two sequences; a proper prefix comes first. */
  function Compare(a: seq<int>, b: seq<int>): (sign: int)
    ensures sign in {-1, 0, 1}
  {
    if a == [] then (if b == [] then 0 else -1)
    else if b == [] then 1
    else if a[0] < b[0] then -1
    else if a[0] > b[0] then 1
    else Compare(a[1..], b[1..])
  }

  function CodePoints(text: string): (points: seq<int>)
    ensures |points| == |text|
  {
    seq(|text|, i requires 0 <= i < |text| => text[i] as int)
  }

  /** Comparison of two strings by code point, which is their order by UTF-8 bytes. */
  function CompareStrings(a: string, b: string): int {
    Compare(CodePoints(a), CodePoints(b))
  }

  lemma {:induction false} CompareIdentifies(a: seq<int>, b: seq<int>)
    ensures Compare(a, b) == 0 <==> a == b
    ensures Compare(a, b) == -Compare(b, a)
  {
    if a != [] && b != [] && a[0] == b[0] {
      CompareIdentifies(a[1..], b[1..]);
      assert a == [a[0]] + a[1..] && b == [b[0]] + b[1..];
    }
  }

  lemma {:induction false} CompareTransitive(a: seq<int>, b: seq<int>, c: seq<int>)
    requires Compare(a, b) <= 0 && Compare(b, c) <= 0
    ensures Compare(a, c) <= 0
  {
    if a != [] && b != [] && c != [] && a[0] == b[0] == c[0] {
      CompareTransitive(a[1..], b[1..], c[1..]);
    }
  }

  lemma CompareStringsIdentifies(a: string, b: string)
    ensures CompareStrings(a, b) == 0 <==> a == b
    ensures CompareStrings(a, b) == -CompareStrings(b, a)
  {
    CompareIdentifies(CodePoints(a), CodePoints(b));
    if CodePoints(a) == CodePoints(b) {
      forall i | 0 <= i < |a| ensures a[i] == b[i] {
        assert CodePoints(a)[i] == CodePoints(b)[i];
      }
    }
  }

  lemma CompareStringsTransitive(a: string, b: string, c: string)
    requires CompareStrings(a, b) <= 0 && CompareStrings(b, c) <= 0
    ensures CompareStrings(a, c) <= 0
  {
    CompareTransitive(CodePoints(a), CodePoints(b), CodePoints(c));
  }

  /** The first text is a proper prefix of the second, or has the smaller character where they first differ. */
  ghost predicate Precedes(a: string, b: string) {
    exists k: nat | k <= |a| && k <= |b| ::
      a[..k] == b[..k] && (k == |a| < |b| || (k < |a| && k < |b| && a[k] < b[k]))
  }

  lemma {:induction false} CompareIff(a: string, b: string)
    ensures Compare(CodePoints(a), CodePoints(b)) < 0 <==> Precedes(a, b)
  {
    if a == "" || b == "" || a[0] != b[0] {
      if a == "" && b != "" {
        assert a[..0] == b[..0];
      } else if a != "" && b != "" && a[0] < b[0] {
        assert a[..0] == b[..0];
      }
    } else {
      assert CodePoints(a)[1..] == CodePoints(a[1..]) && CodePoints(b)[1..] == CodePoints(b[1..]);
      CompareIff(a[1..], b[1..]);
      PrecedesBehind(a, b);
    }
  }

  lemma PrecedesBehind(a: string, b: string)
    requires a != "" && b != "" && a[0] == b[0]
    ensures Precedes(a, b) <==> Precedes(a[1..], b[1..])
  {
    if k: nat :| k <= |a| && k <= |b| && a[..k] == b[..k] && (k == |a| < |b| || (k < |a| && k < |b| && a[k] < b[k])) {
      assert a[1..][..k - 1] == a[..k][1..] && b[1..][..k - 1] == b[..k][1..];
      assert k < |a| && k < |b| ==> a[1..][k - 1] == a[k] && b[1..][k - 1] == b[k];
    }
    var x, y := a[1..], b[1..];
    if k: nat :| k <= |x| && k <= |y| && x[..k] == y[..k] && (k == |x| < |y| || (k < |x| && k < |y| && x[k] < y[k])) {
      assert a[..k + 1] == [a[0]] + x[..k] && b[..k + 1] == [b[0]] + y[..k];
      assert k < |x| && k < |y| ==> a[k + 1] == x[k] && b[k + 1] == y[k];
    }
  }

  /** A string compares as smaller exactly when it comes first. */
  lemma CompareStringsIff(a: string, b: string)
    ensures CompareStrings(a, b) < 0 <==> Precedes(a, b)
    ensures CompareStrings(a, b) <= 0 <==> !Precedes(b, a)
  {
    CompareIff(a, b);
    CompareIff(b, a);
    CompareStringsIdentifies(a, b);
  }

  /** A sort by a text of each element puts none behind one whose text it comes before. */
  lemma SortAscends<T(!new)>(xs: seq<T>, lessOrEqual: (T, T) -> bool, text: T -> string, i: nat, j: nat)
    requires forall x, y :: lessOrEqual(x, y) <==> CompareStrings(text(x), text(y)) <= 0
    requires i < j < |StableSort(xs, lessOrEqual)|
    ensures !Precedes(text(StableSort(xs, lessOrEqual)[j]), text(StableSort(xs, lessOrEqual)[i]))
  {
    forall x, y ensures lessOrEqual(x, x) && (lessOrEqual(x, y) || lessOrEqual(y, x)) {
      CompareStringsIdentifies(text(x), text(y));
      CompareStringsIdentifies(text(x), text(x));
    }
    forall x, y, z | lessOrEqual(x, y) && lessOrEqual(y, z) ensures lessOrEqual(x, z) {
      CompareStringsTransitive(text(x), text(y), text(z));
    }
    SortOrders(xs, lessOrEqual);
    var sorted := StableSort(xs, lessOrEqual);
    CompareStringsIff(text(sorted[i]), text(sorted[j]));
  }
}
