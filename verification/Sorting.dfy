/** The stable sort of the source's standard library, and what it keeps. */
module Sorting {

  /** Puts `x` before the first element it is not after. */
  function Insert<T(!new)>(x: T, xs: seq<T>, cmp: (T, T) -> int): seq<T> {
    if xs == [] || cmp(x, xs[0]) <= 0 then [x] + xs else [xs[0]] + Insert(x, xs[1..], cmp)
  }

  /** The stable sort by a comparator. */
  function Sort<T(!new)>(xs: seq<T>, cmp: (T, T) -> int): seq<T> {
    if xs == [] then [] else Insert(xs[0], Sort(xs[1..], cmp), cmp)
  }

  ghost predicate Ordered<T(!new)>(xs: seq<T>, cmp: (T, T) -> int) {
    forall i, j :: 0 <= i < j < |xs| ==> cmp(xs[i], xs[j]) <= 0
  }

  ghost predicate Total<T(!new)>(cmp: (T, T) -> int) {
    forall a, b :: cmp(a, b) > 0 ==> cmp(b, a) <= 0
  }

  ghost predicate Transitive<T(!new)>(cmp: (T, T) -> int) {
    forall a, b, c :: cmp(a, b) <= 0 && cmp(b, c) <= 0 ==> cmp(a, c) <= 0
  }

  /** A comparator that never contradicts itself. */
  ghost predicate Consistent<T(!new)>(cmp: (T, T) -> int) {
    Total(cmp) && Transitive(cmp)
  }

  ghost predicate DistinctBy<T(!new), K>(xs: seq<T>, key: T -> K) {
    forall i, j :: 0 <= i < j < |xs| ==> key(xs[i]) != key(xs[j])
  }

  lemma {:induction false} InsertPermutes<T(!new)>(x: T, xs: seq<T>, cmp: (T, T) -> int)
    ensures multiset(Insert(x, xs, cmp)) == multiset(xs) + multiset{x}
    decreases |xs|
  {
    if xs != [] && cmp(x, xs[0]) > 0 {
      assert xs == [xs[0]] + xs[1..];
      InsertPermutes(x, xs[1..], cmp);
    }
  }

  /** Sorting only rearranges. */
  lemma {:induction false} SortPermutes<T(!new)>(xs: seq<T>, cmp: (T, T) -> int)
    ensures multiset(Sort(xs, cmp)) == multiset(xs)
    decreases |xs|
  {
    if xs != [] {
      assert xs == [xs[0]] + xs[1..];
      SortPermutes(xs[1..], cmp);
      InsertPermutes(xs[0], Sort(xs[1..], cmp), cmp);
    }
  }

  lemma SortMembers<T(!new)>(xs: seq<T>, cmp: (T, T) -> int)
    ensures |Sort(xs, cmp)| == |xs|
    ensures forall x :: x in Sort(xs, cmp) <==> x in xs
  {
    SortPermutes(xs, cmp);
    assert |multiset(Sort(xs, cmp))| == |multiset(xs)|;
    forall x ensures x in Sort(xs, cmp) <==> x in xs {
      assert x in multiset(Sort(xs, cmp)) <==> x in multiset(xs);
    }
  }

  lemma FrontOrders<T(!new)>(x: T, xs: seq<T>, cmp: (T, T) -> int)
    requires Transitive(cmp) && Ordered(xs, cmp) && (xs == [] || cmp(x, xs[0]) <= 0)
    ensures Ordered([x] + xs, cmp)
  {
    forall k | 0 <= k < |xs| ensures cmp(x, xs[k]) <= 0 {
      if k > 0 {
        assert cmp(xs[0], xs[k]) <= 0;
      }
    }
  }

  lemma {:induction false} InsertOrders<T(!new)>(x: T, xs: seq<T>, cmp: (T, T) -> int)
    requires Total(cmp) && Transitive(cmp) && Ordered(xs, cmp)
    ensures Ordered(Insert(x, xs, cmp), cmp)
    decreases |xs|
  {
    if xs == [] || cmp(x, xs[0]) <= 0 {
      FrontOrders(x, xs, cmp);
    } else {
      var rest := Insert(x, xs[1..], cmp);
      InsertOrders(x, xs[1..], cmp);
      InsertPermutes(x, xs[1..], cmp);
      LeastInFront(xs[0], x, xs, rest, cmp);
    }
  }

  lemma LeastInFront<T(!new)>(first: T, x: T, xs: seq<T>, rest: seq<T>, cmp: (T, T) -> int)
    requires xs != [] && first == xs[0] && Ordered(xs, cmp) && cmp(first, x) <= 0
    requires Ordered(rest, cmp) && multiset(rest) == multiset(xs[1..]) + multiset{x}
    ensures Ordered([first] + rest, cmp)
  {
    forall k | 0 <= k < |rest| ensures cmp(first, rest[k]) <= 0 {
      assert rest[k] in multiset(rest);
      if rest[k] != x {
        assert rest[k] in xs[1..];
        var j :| 0 <= j < |xs[1..]| && xs[1..][j] == rest[k];
        assert cmp(xs[0], xs[j + 1]) <= 0;
      }
    }
  }

  /** With a consistent comparator the result is in order. */
  lemma {:induction false} SortOrders<T(!new)>(xs: seq<T>, cmp: (T, T) -> int)
    requires Consistent(cmp)
    ensures Ordered(Sort(xs, cmp), cmp)
    decreases |xs|
  {
    if xs != [] {
      SortOrders(xs[1..], cmp);
      InsertOrders(xs[0], Sort(xs[1..], cmp), cmp);
    }
  }

  lemma {:induction false} InsertDistinct<T(!new), K>(x: T, xs: seq<T>, cmp: (T, T) -> int, key: T -> K)
    requires DistinctBy(xs, key) && forall k :: 0 <= k < |xs| ==> key(xs[k]) != key(x)
    ensures DistinctBy(Insert(x, xs, cmp), key)
    decreases |xs|
  {
    if xs != [] && cmp(x, xs[0]) > 0 {
      var rest := Insert(x, xs[1..], cmp);
      InsertDistinct(x, xs[1..], cmp, key);
      InsertPermutes(x, xs[1..], cmp);
      forall k | 0 <= k < |rest| ensures key(rest[k]) != key(xs[0]) {
        assert rest[k] in multiset(rest);
      }
    }
  }

  /** Distinct keys stay distinct. */
  lemma {:induction false} SortDistinct<T(!new), K>(xs: seq<T>, cmp: (T, T) -> int, key: T -> K)
    requires DistinctBy(xs, key)
    ensures DistinctBy(Sort(xs, cmp), key)
    decreases |xs|
  {
    if xs != [] {
      SortDistinct(xs[1..], cmp, key);
      SortMembers(xs[1..], cmp);
      forall k | 0 <= k < |Sort(xs[1..], cmp)| ensures key(Sort(xs[1..], cmp)[k]) != key(xs[0]) {
        assert Sort(xs[1..], cmp)[k] in xs[1..];
      }
      InsertDistinct(xs[0], Sort(xs[1..], cmp), cmp, key);
    }
  }

  function Filter<T(!new)>(xs: seq<T>, p: T -> bool): seq<T> {
    if xs == [] then [] else (if p(xs[0]) then [xs[0]] else []) + Filter(xs[1..], p)
  }

  lemma {:induction false} InsertFilters<T(!new)>(x: T, xs: seq<T>, cmp: (T, T) -> int, p: T -> bool)
    requires p(x) ==> forall k :: 0 <= k < |xs| && p(xs[k]) ==> cmp(x, xs[k]) <= 0
    ensures Filter(Insert(x, xs, cmp), p) == (if p(x) then [x] else []) + Filter(xs, p)
    decreases |xs|
  {
    if xs == [] || cmp(x, xs[0]) <= 0 {
      assert ([x] + xs)[1..] == xs;
    } else {
      var rest := Insert(x, xs[1..], cmp);
      InsertFilters(x, xs[1..], cmp, p);
      assert ([xs[0]] + rest)[1..] == rest;
    }
  }

  /** The sort is stable: what the comparator does not tell apart keeps its order. */
  lemma {:induction false} SortIsStable<T(!new)>(xs: seq<T>, cmp: (T, T) -> int, p: T -> bool)
    requires forall x, y :: p(x) && p(y) ==> cmp(x, y) <= 0
    ensures Filter(Sort(xs, cmp), p) == Filter(xs, p)
    decreases |xs|
  {
    if xs != [] {
      SortIsStable(xs[1..], cmp, p);
      InsertFilters(xs[0], Sort(xs[1..], cmp), cmp, p);
    }
  }

  lemma {:induction false} FilterOfPrefix<T(!new)>(xs: seq<T>, p: T -> bool, n: nat)
    requires n <= |xs| && (forall k :: 0 <= k < n ==> p(xs[k])) && (forall k :: n <= k < |xs| ==> !p(xs[k]))
    ensures Filter(xs, p) == xs[..n]
    decreases |xs|
  {
    if xs != [] {
      FilterOfPrefix(xs[1..], p, if n > 0 then n - 1 else 0);
      assert n > 0 ==> xs[..n] == [xs[0]] + xs[1..][..n - 1];
    }
  }

  function Leading<T(!new)>(xs: seq<T>, p: T -> bool): (n: nat)
    ensures n <= |xs| && forall k :: 0 <= k < n ==> p(xs[k])
    ensures n < |xs| ==> !p(xs[n])
  {
    if xs == [] || !p(xs[0]) then 0 else 1 + Leading(xs[1..], p)
  }

  /** Elements that are equal and before all others come first, in the order they had. */
  lemma FirstOnesKeepOrder<T(!new)>(xs: seq<T>, cmp: (T, T) -> int, p: T -> bool)
    requires Consistent(cmp)
    requires forall x, y :: p(x) && p(y) ==> cmp(x, y) <= 0
    requires forall x, y :: x in xs && p(y) && cmp(x, y) <= 0 ==> p(x)
    ensures var sorted, first := Sort(xs, cmp), Filter(xs, p);
      && |first| <= |sorted| && sorted[..|first|] == first
      && forall k :: |first| <= k < |sorted| ==> !p(sorted[k])
  {
    var sorted := Sort(xs, cmp);
    var n := Leading(sorted, p);
    SortOrders(xs, cmp);
    SortMembers(xs, cmp);
    forall k | n < k < |sorted| ensures !p(sorted[k]) {
      assert sorted[n] in sorted && cmp(sorted[n], sorted[k]) <= 0;
    }
    FilterOfPrefix(sorted, p, n);
    SortIsStable(xs, cmp, p);
  }
}
