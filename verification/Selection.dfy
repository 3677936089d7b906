/** Picking elements of a sequence by a condition, in order. */
module Selection {

  function Picked<T>(xs: seq<T>, p: T -> bool): seq<T> {
    if xs == [] then []
    else
      var before := Picked(xs[..|xs| - 1], p);
      if p(xs[|xs| - 1]) then before + [xs[|xs| - 1]] else before
  }

  /** The places of the elements a condition holds of. */
  function Places<T>(xs: seq<T>, p: T -> bool): seq<nat> {
    if xs == [] then []
    else
      var before := Places(xs[..|xs| - 1], p);
      if p(xs[|xs| - 1]) then before + [|xs| - 1] else before
  }

  /** The elements at these places, which are in order and exactly those the condition holds of. */
  ghost predicate SelectedAt<T>(xs: seq<T>, p: T -> bool, at: seq<nat>, picked: seq<T>) {
    && |at| == |picked|
    && (forall k :: 0 <= k < |at| ==> at[k] < |xs| && picked[k] == xs[at[k]] && p(xs[at[k]]))
    && (forall j, k :: 0 <= j < k < |at| ==> at[j] < at[k])
    && (forall i :: 0 <= i < |xs| && p(xs[i]) ==> i in at)
  }

  /** Exactly the elements a condition holds of, in their order. */
  ghost predicate Selects<T>(xs: seq<T>, p: T -> bool, picked: seq<T>) {
    exists at: seq<nat> :: SelectedAt(xs, p, at, picked)
  }

  function PlaceSet<T>(xs: seq<T>, p: T -> bool): set<nat> { set i: nat | i < |xs| && p(xs[i]) }

  function HowMany<T>(xs: seq<T>, p: T -> bool): nat { |PlaceSet(xs, p)| }

  lemma {:induction false} PickedAt<T>(xs: seq<T>, p: T -> bool)
    ensures SelectedAt(xs, p, Places(xs, p), Picked(xs, p))
  {
    if xs != [] {
      var n := |xs| - 1;
      PickedAt(xs[..n], p);
      var at := Places(xs[..n], p);
      forall i | 0 <= i < n && p(xs[i]) ensures i in at { assert xs[..n][i] == xs[i]; }
    }
  }

  lemma PickedSelects<T>(xs: seq<T>, p: T -> bool)
    ensures Selects(xs, p, Picked(xs, p))
  {
    PickedAt(xs, p);
  }

  lemma {:induction false} PickedHowMany<T>(xs: seq<T>, p: T -> bool)
    ensures |Picked(xs, p)| == HowMany(xs, p)
  {
    if xs != [] {
      var n := |xs| - 1;
      PickedHowMany(xs[..n], p);
      assert PlaceSet(xs, p) == if p(xs[n]) then PlaceSet(xs[..n], p) + {n} else PlaceSet(xs[..n], p);
    }
  }

  lemma PickedAppend<T>(xs: seq<T>, x: T, p: T -> bool)
    ensures Picked(xs + [x], p) == if p(x) then Picked(xs, p) + [x] else Picked(xs, p)
  {
    assert (xs + [x])[..|xs|] == xs;
  }

  lemma {:induction false} PickedOnes<T>(xs: seq<T>, p: T -> bool)
    ensures forall x :: x in Picked(xs, p) <==> x in xs && p(x)
  {
    if xs != [] { PickedOnes(xs[..|xs| - 1], p); }
  }

  /** Picking among what a weaker condition picked. */
  lemma {:induction false} PickedAmong<T(!new)>(xs: seq<T>, p: T -> bool, q: T -> bool)
    requires forall x :: p(x) ==> q(x)
    ensures Picked(Picked(xs, q), p) == Picked(xs, p)
  {
    if xs != [] {
      var x := xs[|xs| - 1];
      PickedAmong(xs[..|xs| - 1], p, q);
      PickedAppend(Picked(xs[..|xs| - 1], q), x, p);
    }
  }

  /** Two conditions pick the same in either order. */
  lemma {:induction false} PickedTwice<T>(xs: seq<T>, p: T -> bool, q: T -> bool)
    ensures Picked(Picked(xs, p), q) == Picked(Picked(xs, q), p)
  {
    if xs != [] {
      var x, init := xs[|xs| - 1], xs[..|xs| - 1];
      PickedTwice(init, p, q);
      PickedAppend(Picked(init, p), x, q);
      PickedAppend(Picked(init, q), x, p);
    }
  }
}
