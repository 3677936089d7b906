/** Stable sorting by a relation. */
module Ordering {

  /** Whether any two are related, and the relation carries over. */
  ghost predicate Orders<T(!new)>(le: (T, T) -> bool) {
    (forall a, b :: le(a, b) || le(b, a)) && forall a, b, c :: le(a, b) && le(b, c) ==> le(a, c)
  }

  predicate Ordered<T>(xs: seq<T>, le: (T, T) -> bool) { forall i, j :: 0 <= i < j < |xs| ==> le(xs[i], xs[j]) }

  function Place<T>(xs: seq<T>, x: T, le: (T, T) -> bool): seq<T> {
    if xs == [] || le(xs[|xs| - 1], x) then xs + [x] else Place(xs[..|xs| - 1], x, le) + [xs[|xs| - 1]]
  }

  /** Elements the relation does not tell apart stay in the order they came in. */
  function Sorted<T>(xs: seq<T>, le: (T, T) -> bool): seq<T> {
    if xs == [] then [] else Place(Sorted(xs[..|xs| - 1], le), xs[|xs| - 1], le)
  }

  function Take<T>(xs: seq<T>, n: nat): seq<T> { if |xs| <= n then xs else xs[..n] }

  lemma TakenAreThere<T>(xs: seq<T>, n: nat)
    ensures forall x :: x in Take(xs, n) ==> x in xs
  {
  }

  /** The first `limit` elements of a collection: none left out belongs before one listed. */
  ghost predicate Listing<T>(all: multiset<T>, le: (T, T) -> bool, limit: nat, listed: seq<T>) {
    && |listed| == (if |all| <= limit then |all| else limit)
    && multiset(listed) <= all && Ordered(listed, le)
    && forall x, k :: x in all - multiset(listed) && 0 <= k < |listed| ==> le(listed[k], x)
  }

  lemma SplitLast<T>(xs: seq<T>)
    requires xs != []
    ensures xs == xs[..|xs| - 1] + [xs[|xs| - 1]] && multiset(xs) == multiset(xs[..|xs| - 1]) + multiset{xs[|xs| - 1]}
  {
    assert xs == xs[..|xs| - 1] + [xs[|xs| - 1]];
  }

  lemma {:induction false} PlaceKeepsElements<T>(xs: seq<T>, x: T, le: (T, T) -> bool)
    ensures multiset(Place(xs, x, le)) == multiset(xs) + multiset{x}
    ensures forall y :: y in Place(xs, x, le) ==> y == x || y in xs
    decreases |xs|
  {
    if xs != [] {
      SplitLast(xs);
      PlaceKeepsElements(xs[..|xs| - 1], x, le);
    }
  }

  lemma {:induction false} PlaceKeepsOrder<T(!new)>(xs: seq<T>, x: T, le: (T, T) -> bool)
    requires Orders(le) && Ordered(xs, le)
    ensures Ordered(Place(xs, x, le), le)
    decreases |xs|
  {
    if xs != [] {
      var n := |xs| - 1;
      if le(xs[n], x) {
        forall i | 0 <= i < n ensures le(xs[i], x) { assert le(xs[i], xs[n]); }
      } else {
        PlaceKeepsOrder(xs[..n], x, le);
        PlaceKeepsElements(xs[..n], x, le);
        BeforeLast(Place(xs[..n], x, le), xs, x, le);
      }
    }
  }

  lemma BeforeLast<T(!new)>(before: seq<T>, xs: seq<T>, x: T, le: (T, T) -> bool)
    requires Orders(le) && xs != [] && Ordered(xs, le) && !le(xs[|xs| - 1], x) && Ordered(before, le)
    requires forall y :: y in before ==> y == x || y in xs[..|xs| - 1]
    ensures Ordered(before + [xs[|xs| - 1]], le)
  {
    var n := |xs| - 1;
    forall i | 0 <= i < |before| ensures le(before[i], xs[n]) {
      assert before[i] in before;
      assert le(x, xs[n]);
    }
  }

  lemma {:induction false} SortedIsOrdered<T(!new)>(xs: seq<T>, le: (T, T) -> bool)
    requires Orders(le)
    ensures Ordered(Sorted(xs, le), le) && multiset(Sorted(xs, le)) == multiset(xs)
    decreases |xs|
  {
    if xs != [] {
      var before := Sorted(xs[..|xs| - 1], le);
      SortedIsOrdered(xs[..|xs| - 1], le);
      PlaceKeepsOrder(before, xs[|xs| - 1], le);
      PlaceKeepsElements(before, xs[|xs| - 1], le);
      SplitLast(xs);
    }
  }

  lemma BeginningIsListing<T>(all: seq<T>, le: (T, T) -> bool, n: nat)
    requires Ordered(all, le)
    ensures Listing(multiset(all), le, n, Take(all, n))
  {
    var listed, left := Take(all, n), all[|Take(all, n)|..];
    assert all == listed + left;
    assert multiset(all) == multiset(listed) + multiset(left);
    assert multiset(all) - multiset(listed) == multiset(left);
    forall x, k | x in left && 0 <= k < |listed| ensures le(listed[k], x) {
      var j :| 0 <= j < |left| && left[j] == x;
      assert all[|listed| + j] == x && all[k] == listed[k];
    }
  }

  lemma SortedIsListing<T(!new)>(xs: seq<T>, le: (T, T) -> bool, n: nat)
    requires Orders(le)
    ensures Listing(multiset(xs), le, n, Take(Sorted(xs, le), n))
  {
    SortedIsOrdered(xs, le);
    BeginningIsListing(Sorted(xs, le), le, n);
  }
}
