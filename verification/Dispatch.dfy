/** Which route requests reach when ranks tie. */
module Dispatch {
  import opened Router

  // ---- Where a new route ends up -----------------------------------------------------------

  /** Where a new last route is put: in front of the trailing routes it is more specific than. */
  function Cut(routes: seq<Route>, order: seq<nat>, x: nat): (c: nat)
    requires x < |routes| && forall k :: 0 <= k < |order| ==> order[k] < |routes|
    ensures c <= |order|
    decreases |order|
  {
    if order == [] then 0
    else
      var n := |order| - 1;
      if Compare(Rank(routes[order[n]]), Rank(routes[x])) > 0 then Cut(routes, order[..n], x) else |order|
  }

  lemma {:induction false} CutParts(routes: seq<Route>, order: seq<nat>, x: nat, c: nat)
    requires x < |routes| && (forall k :: 0 <= k < |order| ==> order[k] < |routes|) && c == Cut(routes, order, x)
    ensures forall k :: c <= k < |order| ==> Compare(Rank(routes[order[k]]), Rank(routes[x])) > 0
    ensures c > 0 ==> Compare(Rank(routes[order[c - 1]]), Rank(routes[x])) <= 0
    decreases |order|
  {
    if order != [] {
      var n := |order| - 1;
      if Compare(Rank(routes[order[n]]), Rank(routes[x])) > 0 {
        CutParts(routes, order[..n], x, c);
        forall k | 0 <= k < n ensures order[..n][k] == order[k] {}
      }
    }
  }

  function PutAt(order: seq<nat>, c: nat, x: nat): seq<nat>
    requires c <= |order|
  {
    order[..c] + [x] + order[c..]
  }

  lemma PutThenLast(order: seq<nat>, c: nat, x: nat)
    requires c < |order|
    ensures PutAt(order[..|order| - 1], c, x) + [order[|order| - 1]] == PutAt(order, c, x)
  {
  }

  lemma PutLast(order: seq<nat>, x: nat)
    ensures PutAt(order, |order|, x) == order + [x]
  {
  }

  lemma {:induction false} InsertAtCut(routes: seq<Route>, order: seq<nat>, x: nat)
    requires x < |routes| && forall k :: 0 <= k < |order| ==> order[k] < |routes|
    ensures Insert(routes, order, x) == PutAt(order, Cut(routes, order, x), x)
    decreases |order|
  {
    if order != [] {
      var n := |order| - 1;
      if Compare(Rank(routes[order[n]]), Rank(routes[x])) > 0 {
        InsertAtCut(routes, order[..n], x);
        PutThenLast(order, Cut(routes, order[..n], x), x);
      } else {
        PutLast(order, x);
      }
    } else {
      PutLast(order, x);
    }
  }

  /** One route tried before another. */
  predicate Before(order: seq<nat>, a: nat, b: nat) {
    exists j, k :: 0 <= j < k < |order| && order[j] == a && order[k] == b
  }

  predicate Distinct(order: seq<nat>) { forall j, k :: 0 <= j < k < |order| ==> order[j] != order[k] }

  lemma PutKeepsBefore(order: seq<nat>, c: nat, x: nat, a: nat, b: nat)
    requires c <= |order| && a != x && b != x
    ensures Before(PutAt(order, c, x), a, b) <==> Before(order, a, b)
  {
    var after := PutAt(order, c, x);
    if Before(order, a, b) {
      var j, k :| 0 <= j < k < |order| && order[j] == a && order[k] == b;
      var j', k' := if j < c then j else j + 1, if k < c then k else k + 1;
      assert after[j'] == a && after[k'] == b;
    }
    if Before(after, a, b) {
      var j, k :| 0 <= j < k < |after| && after[j] == a && after[k] == b;
      var j', k' := if j < c then j else j - 1, if k < c then k else k - 1;
      assert order[j'] == a && order[k'] == b;
    }
  }

  lemma PutDistinct(order: seq<nat>, c: nat, x: nat)
    requires c <= |order| && Distinct(order) && x !in order
    ensures Distinct(PutAt(order, c, x))
  {
  }

  /** The order of one route more, by where that route is put. */
  lemma OrderStep(routes: seq<Route>, n: nat, order: seq<nat>) returns (c: nat)
    requires n < |routes| && order == Order(routes, n)
    ensures c <= n && c == Cut(routes, order, n) && Order(routes, n + 1) == PutAt(order, c, n)
  {
    InsertAtCut(routes, order, n);
    c := Cut(routes, order, n);
  }

  lemma {:induction false} OrderIsDistinct(routes: seq<Route>, n: nat, order: seq<nat>)
    requires n <= |routes| && order == Order(routes, n)
    ensures Distinct(order)
    decreases n
  {
    if n > 0 {
      var before := Order(routes, n - 1);
      OrderIsDistinct(routes, n - 1, before);
      OrderMembers(routes, n - 1);
      var c := OrderStep(routes, n - 1, before);
      PutDistinct(before, c, n - 1);
    }
  }

  lemma NextKeepsBefore(routes: seq<Route>, n: nat, order: seq<nat>, after: seq<nat>, a: nat, b: nat)
    requires n < |routes| && order == Order(routes, n) && after == Order(routes, n + 1) && a < n && b < n
    requires Before(order, a, b)
    ensures Before(after, a, b)
  {
    var c := OrderStep(routes, n, order);
    PutKeepsBefore(order, c, n, a, b);
  }

  lemma {:induction false} LaterKeepBefore(routes: seq<Route>, n: nat, m: nat, order: seq<nat>, after: seq<nat>, a: nat, b: nat)
    requires a < n && b < n && n <= m <= |routes| && order == Order(routes, n) && after == Order(routes, m)
    requires Before(order, a, b)
    ensures Before(after, a, b)
    decreases m - n
  {
    if n < m {
      var next := Order(routes, n + 1);
      NextKeepsBefore(routes, n, order, next, a, b);
      assert Before(next, a, b);
      LaterKeepBefore(routes, n + 1, m, next, after, a, b);
    }
  }

  lemma OneIsBefore(order: seq<nat>, a: nat, b: nat)
    requires Distinct(order) && a in order && b in order && a != b
    ensures Before(order, a, b) != Before(order, b, a)
  {
    var j := PlaceOf(order, a);
    var k := PlaceOf(order, b);
    assert j < k ==> Before(order, a, b);
    assert k < j ==> Before(order, b, a);
  }

  /** Routes declared later do not change which of two is tried first. */
  lemma LaterRoutesKeepBefore(routes: seq<Route>, n: nat, m: nat, order: seq<nat>, after: seq<nat>, a: nat, b: nat)
    requires a < n && b < n && a != b && n <= m <= |routes| && order == Order(routes, n) && after == Order(routes, m)
    ensures Before(after, a, b) <==> Before(order, a, b)
  {
    OrderMembers(routes, n);
    OrderMembers(routes, m);
    OrderIsDistinct(routes, n, order);
    OrderIsDistinct(routes, m, after);
    OneIsBefore(order, a, b);
    OneIsBefore(after, a, b);
    if Before(order, a, b) {
      LaterKeepBefore(routes, n, m, order, after, a, b);
    } else {
      LaterKeepBefore(routes, n, m, order, after, b, a);
    }
  }

  lemma PutBefore(order: seq<nat>, c: nat, x: nat, j: nat)
    requires c <= |order| && j < |order| && Distinct(order) && x !in order
    ensures Before(PutAt(order, c, x), x, order[j]) <==> c <= j
  {
    var after, p := PutAt(order, c, x), order[j];
    PutDistinct(order, c, x);
    assert after[c] == x;
    assert after[if j < c then j else j + 1] == p;
  }

  /** Whether x is more specific than every route tried after p. */
  ghost predicate BeatsAllBehind(routes: seq<Route>, order: seq<nat>, p: nat, x: nat)
    requires x < |routes|
  {
    forall y: nat :: y < |routes| && Before(order, p, y) ==> Compare(Rank(routes[y]), Rank(routes[x])) > 0
  }

  /**
   What the sort makes of a more specific route declared after another: it is tried first exactly
   when it is more specific than every route that was tried after the other one by then, and not
   merely tied with one of them.
   */
  lemma OvertakesExactly(routes: seq<Route>, p: nat, x: nat, before: seq<nat>, order: seq<nat>)
    requires p < x < |routes| && Compare(Rank(routes[x]), Rank(routes[p])) < 0
    requires before == Order(routes, x) && order == Order(routes, |routes|)
    ensures Before(order, x, p) <==> BeatsAllBehind(routes, before, p, x)
  {
    var next := Order(routes, x + 1);
    LaterRoutesKeepBefore(routes, x + 1, |routes|, next, order, x, p);
    PutWhere(routes, p, x, before, next);
  }

  lemma PutWhere(routes: seq<Route>, p: nat, x: nat, order: seq<nat>, after: seq<nat>)
    requires p < x < |routes| && Compare(Rank(routes[x]), Rank(routes[p])) < 0
    requires order == Order(routes, x) && after == Order(routes, x + 1)
    ensures Before(after, x, p)
            <==> BeatsAllBehind(routes, order, p, x)
  {
    OrderMembers(routes, x);
    OrderIsDistinct(routes, x, order);
    var c := OrderStep(routes, x, order);
    var j := PlaceOf(order, p);
    PutBefore(order, c, x, j);
    CompareFlips(Rank(routes[x]), Rank(routes[p]));
    AllBehind(routes, order, p, x, j, c);
  }

  lemma AllBehind(routes: seq<Route>, order: seq<nat>, p: nat, x: nat, j: nat, c: nat)
    requires x < |routes| && (forall k :: 0 <= k < |order| ==> order[k] < |routes|) && Distinct(order)
    requires j < |order| && order[j] == p && c == Cut(routes, order, x) && Compare(Rank(routes[p]), Rank(routes[x])) > 0
    ensures c <= j <==> BeatsAllBehind(routes, order, p, x)
  {
    CutParts(routes, order, x, c);
    if c <= j {
      forall y: nat | y < |routes| && Before(order, p, y) ensures Compare(Rank(routes[y]), Rank(routes[x])) > 0 {
        var i, k :| 0 <= i < k < |order| && order[i] == p && order[k] == y;
        assert i == j;
      }
    } else if c - 1 > j {
      assert Before(order, p, order[c - 1]);
    }
  }

  // ---- Which tables send every request to a most specific route ----------------------------

  predicate Fixed(pattern: seq<Segment>) { forall k :: 0 <= k < |pattern| ==> !pattern[k].Tail? }

  /** What one segment of a path must be for two segments of patterns: the text, or any. */
  function Meet(a: Segment, b: Segment): Segment { if a.Lit? then a else b }

  /** Some segment of a path fits both. */
  predicate Compatible(a: Segment, b: Segment) {
    match (a, b)
    case (Lit(s), Lit(t)) => s == t
    case (Lit(s), Param(_)) => s != ""
    case (Param(_), Lit(t)) => t != ""
    case (Param(_), Param(_)) => true
    case _ => false
  }

  /** Some path fits both patterns. */
  predicate Overlap(a: seq<Segment>, b: seq<Segment>) {
    if a == [] || b == [] then a == b == []
    else Compatible(a[0], b[0]) && Overlap(a[1..], b[1..])
  }

  /** A segment that takes whatever two others both take. */
  predicate Takes(q: Segment, m: Segment) {
    if q.Lit? then m == q else q.Param? && m != Lit("")
  }

  /** Every path that fits both patterns fits the other one too. */
  predicate Covers(q: seq<Segment>, a: seq<Segment>, b: seq<Segment>)
    requires |a| == |b|
  {
    |q| == |a| && forall k :: 0 <= k < |q| ==> Takes(q[k], Meet(a[k], b[k]))
  }

  predicate FitsOne(s: Segment, text: string) {
    match s
    case Lit(t) => text == t
    case Param(_) => text != ""
    case Tail(prefix) => prefix <= text
  }

  lemma {:induction false} MatchesEach(pattern: seq<Segment>, path: seq<string>)
    requires Fixed(pattern)
    ensures Matches(pattern, path) <==> |path| == |pattern| && forall k :: 0 <= k < |pattern| ==> FitsOne(pattern[k], path[k])
    decreases |pattern|
  {
    if pattern != [] && path != [] {
      MatchesEach(pattern[1..], path[1..]);
      forall k | 0 <= k < |pattern| - 1 ensures pattern[1..][k] == pattern[k + 1] {}
      forall k | 0 <= k < |path| - 1 ensures path[1..][k] == path[k + 1] {}
      if |path| == |pattern| && FitsOne(pattern[0], path[0])
         && forall k :: 0 <= k < |pattern| - 1 ==> FitsOne(pattern[1..][k], path[1..][k]) {
        forall k | 0 <= k < |pattern| ensures FitsOne(pattern[k], path[k]) {
          if k > 0 { assert FitsOne(pattern[1..][k - 1], path[1..][k - 1]); }
        }
      }
    }
  }

  lemma {:induction false} OverlapEach(a: seq<Segment>, b: seq<Segment>)
    ensures Overlap(a, b) <==> |a| == |b| && forall k :: 0 <= k < |a| ==> Compatible(a[k], b[k])
    decreases |a|
  {
    if a != [] && b != [] {
      OverlapEach(a[1..], b[1..]);
      forall k | 0 <= k < |a| - 1 ensures a[1..][k] == a[k + 1] {}
      forall k | 0 <= k < |b| - 1 ensures b[1..][k] == b[k + 1] {}
      if Overlap(a, b) {
        forall k | 0 <= k < |a| ensures Compatible(a[k], b[k]) {
          if k > 0 { assert Compatible(a[1..][k - 1], b[1..][k - 1]); }
        }
      }
    }
  }

  /** A path that fits both patterns and, where both take anything, is a text no pattern names. */
  function Generic(a: seq<Segment>, b: seq<Segment>, novel: string): seq<string>
    requires |a| == |b|
  {
    seq(|a|, k requires 0 <= k < |a| => if Meet(a[k], b[k]).Lit? then Meet(a[k], b[k]).text else novel)
  }

  /** No text of the pattern is this one. */
  predicate Unnamed(q: seq<Segment>, novel: string) { forall k :: 0 <= k < |q| ==> q[k] != Lit(novel) }

  lemma SharedPath(a: seq<Segment>, b: seq<Segment>, path: seq<string>)
    requires Fixed(a) && Fixed(b) && Matches(a, path) && Matches(b, path)
    ensures Overlap(a, b)
  {
    MatchesEach(a, path);
    MatchesEach(b, path);
    OverlapEach(a, b);
  }

  lemma GenericIsShared(a: seq<Segment>, b: seq<Segment>, novel: string)
    requires Fixed(a) && Fixed(b) && Overlap(a, b) && novel != ""
    ensures |a| == |b| && Matches(a, Generic(a, b, novel)) && Matches(b, Generic(a, b, novel))
  {
    OverlapEach(a, b);
    MatchesEach(a, Generic(a, b, novel));
    MatchesEach(b, Generic(a, b, novel));
  }

  /** A pattern that fits the generic path fits every path the two share. */
  lemma CoversGeneric(q: seq<Segment>, a: seq<Segment>, b: seq<Segment>, novel: string)
    requires Fixed(q) && Fixed(a) && Fixed(b) && Overlap(a, b) && novel != "" && Unnamed(q, novel)
    ensures |a| == |b| && (Covers(q, a, b) <==> Matches(q, Generic(a, b, novel)))
  {
    OverlapEach(a, b);
    var path := Generic(a, b, novel);
    MatchesEach(q, path);
    if |q| == |a| {
      forall k | 0 <= k < |q| ensures Takes(q[k], Meet(a[k], b[k])) <==> FitsOne(q[k], path[k]) {}
    }
  }

  lemma CoversAll(q: seq<Segment>, a: seq<Segment>, b: seq<Segment>, path: seq<string>)
    requires Fixed(q) && Fixed(a) && Fixed(b) && Matches(a, path) && Matches(b, path)
    requires |a| == |b| && Covers(q, a, b)
    ensures Matches(q, path)
  {
    MatchesEach(a, path);
    MatchesEach(b, path);
    MatchesEach(q, path);
    forall k | 0 <= k < |q| ensures FitsOne(q[k], path[k]) { assert Takes(q[k], Meet(a[k], b[k])); }
  }

  lemma NotCovering(q: seq<Segment>, a: seq<Segment>, b: seq<Segment>, path: seq<string>)
    requires Fixed(q) && Fixed(a) && Fixed(b) && Matches(a, path) && Matches(b, path) && |a| == |b|
    requires !Matches(q, path)
    ensures !Covers(q, a, b)
  {
    if Covers(q, a, b) { CoversAll(q, a, b, path); }
  }

  /** The lengths of all texts, added up, so that a longer text is in no pattern. */
  function TextLength(pattern: seq<Segment>): nat {
    if pattern == [] then 0 else (if pattern[0].Lit? then |pattern[0].text| else 0) + TextLength(pattern[1..])
  }

  function TotalLength(routes: seq<Route>): nat {
    if routes == [] then 0 else TextLength(routes[0].pattern) + TotalLength(routes[1..])
  }

  lemma {:induction false} TextIsShort(pattern: seq<Segment>, k: nat)
    requires k < |pattern| && pattern[k].Lit?
    ensures |pattern[k].text| <= TextLength(pattern)
  {
    if k > 0 { TextIsShort(pattern[1..], k - 1); }
  }

  lemma {:induction false} PatternIsShort(routes: seq<Route>, i: nat)
    requires i < |routes|
    ensures TextLength(routes[i].pattern) <= TotalLength(routes)
  {
    if i > 0 { PatternIsShort(routes[1..], i - 1); }
  }

  function Novel(routes: seq<Route>): (text: string)
    ensures text != ""
  {
    seq(TotalLength(routes) + 1, k => 'x')
  }

  lemma NovelIsUnnamed(routes: seq<Route>, i: nat)
    requires i < |routes|
    ensures Unnamed(routes[i].pattern, Novel(routes))
  {
    PatternIsShort(routes, i);
    forall k | 0 <= k < |routes[i].pattern| ensures routes[i].pattern[k] != Lit(Novel(routes)) {
      if routes[i].pattern[k].Lit? { TextIsShort(routes[i].pattern, k); }
    }
  }

  /** Every request that is served is served by a route none that serves it is more specific than. */
  ghost predicate AlwaysMostSpecific(routes: seq<Route>, order: seq<nat>) {
    forall verb: string, path: seq<string>, h: nat, i: nat ::
      h < |routes| && IsDispatch(routes, order, verb, path, Handler(h)) && Serves(routes, i, verb, path) ==>
        Compare(Rank(routes[i]), Rank(routes[h])) >= 0
  }

  /** A route tried before a more specific one of the same method that fits some of the same paths. */
  predicate Inverted(routes: seq<Route>, order: seq<nat>, j: nat, k: nat)
    requires forall i :: 0 <= i < |order| ==> order[i] < |routes|
  {
    && j < k < |order| && routes[order[j]].verb == routes[order[k]].verb
    && Compare(Rank(routes[order[k]]), Rank(routes[order[j]])) < 0
    && Overlap(routes[order[j]].pattern, routes[order[k]].pattern)
  }

  /** A route tried still earlier serves all the requests that the two share. */
  predicate Shielded(routes: seq<Route>, order: seq<nat>, j: nat, k: nat)
    requires forall i :: 0 <= i < |order| ==> order[i] < |routes|
    requires j < |order| && k < |order|
  {
    |routes[order[j]].pattern| == |routes[order[k]].pattern|
    && exists m :: 0 <= m < j && routes[order[m]].verb == routes[order[j]].verb
         && Covers(routes[order[m]].pattern, routes[order[j]].pattern, routes[order[k]].pattern)
  }

  lemma InversionShows(routes: seq<Route>, order: seq<nat>, j: nat, k: nat)
    requires IsOrderOf(routes, order) && forall i :: 0 <= i < |order| ==> order[i] < |routes|
    requires forall i :: 0 <= i < |routes| ==> Fixed(routes[i].pattern)
    requires Inverted(routes, order, j, k) && !Shielded(routes, order, j, k)
    ensures !AlwaysMostSpecific(routes, order)
  {
    var p, x, novel := routes[order[j]], routes[order[k]], Novel(routes);
    GenericIsShared(p.pattern, x.pattern, novel);
    var path := Generic(p.pattern, x.pattern, novel);
    forall m | 0 <= m < j ensures !Serves(routes, order[m], p.verb, path) {
      NovelIsUnnamed(routes, order[m]);
      CoversGeneric(routes[order[m]].pattern, p.pattern, x.pattern, novel);
    }
    assert Serves(routes, order[j], p.verb, path) && Serves(routes, order[k], p.verb, path);
    assert IsDispatch(routes, order, p.verb, path, Handler(order[j]));
  }

  lemma WrongRouteIsInversion(routes: seq<Route>, order: seq<nat>, verb: string, path: seq<string>, h: nat, i: nat)
    requires IsOrderOf(routes, order) && forall k :: 0 <= k < |order| ==> order[k] < |routes|
    requires forall k :: 0 <= k < |routes| ==> Fixed(routes[k].pattern)
    requires h < |routes| && IsDispatch(routes, order, verb, path, Handler(h)) && Serves(routes, i, verb, path)
    requires Compare(Rank(routes[i]), Rank(routes[h])) < 0
    ensures exists j: nat, k: nat :: Inverted(routes, order, j, k) && !Shielded(routes, order, j, k)
  {
    var j :| 0 <= j < |order| && order[j] == h && Serves(routes, h, verb, path)
      && forall m :: 0 <= m < j ==> !Serves(routes, order[m], verb, path);
    var k := PlaceOf(order, i);
    CompareFlips(Rank(routes[i]), Rank(routes[h]));
    assert j < k;
    SharedPath(routes[h].pattern, routes[i].pattern, path);
    assert Inverted(routes, order, j, k);
    OverlapEach(routes[h].pattern, routes[i].pattern);
    forall m | 0 <= m < j && routes[order[m]].verb == verb
      ensures !Covers(routes[order[m]].pattern, routes[h].pattern, routes[i].pattern)
    {
      assert !Serves(routes, order[m], verb, path);
      NotCovering(routes[order[m]].pattern, routes[h].pattern, routes[i].pattern, path);
    }
  }

  /**
   Exactly when a table without wildcards keeps the promise that what is declared first does not
   decide between a literal and a parameter: whatever its routes' depths, and in whatever order they
   are tried, every request reaches a most specific route if and only if every route tried before a
   more specific one it shares requests with has all of those taken by a route tried still earlier.
   */
  lemma MostSpecificExactly(routes: seq<Route>, order: seq<nat>)
    requires IsOrderOf(routes, order) && forall k :: 0 <= k < |order| ==> order[k] < |routes|
    requires forall i :: 0 <= i < |routes| ==> Fixed(routes[i].pattern)
    ensures AlwaysMostSpecific(routes, order)
            <==> forall j: nat, k: nat :: Inverted(routes, order, j, k) ==> Shielded(routes, order, j, k)
  {
    if j: nat, k: nat :| Inverted(routes, order, j, k) && !Shielded(routes, order, j, k) {
      InversionShows(routes, order, j, k);
    } else {
      forall verb: string, path: seq<string>, h: nat, i: nat
        | h < |routes| && IsDispatch(routes, order, verb, path, Handler(h)) && Serves(routes, i, verb, path)
        ensures Compare(Rank(routes[i]), Rank(routes[h])) >= 0
      {
        if Compare(Rank(routes[i]), Rank(routes[h])) < 0 {
          WrongRouteIsInversion(routes, order, verb, path, h, i);
        }
      }
    }
  }

  /** The order the table uses is one of its own routes, so the condition decides for it too. */
  lemma TableIsMostSpecificExactly(routes: seq<Route>)
    requires forall i :: 0 <= i < |routes| ==> Fixed(routes[i].pattern)
    ensures var order := Order(routes, |routes|);
      AlwaysMostSpecific(routes, order)
      <==> forall j: nat, k: nat :: Inverted(routes, order, j, k) ==> Shielded(routes, order, j, k)
  {
    OrderMembers(routes, |routes|);
    MostSpecificExactly(routes, Order(routes, |routes|));
  }

  lemma RankOfOne(r: Route, a: Segment)
    requires r.pattern == [a] && a != Lit("")
    ensures Rank(r) == [if a.Lit? then 2 else if a.Param? then 1 else 0]
  {
    assert r.pattern[1..] == [];
  }

  lemma RankOfTwo(r: Route, a: Segment, b: Segment)
    requires r.pattern == [a, b] && a != Lit("") && b != Lit("")
    ensures Rank(r) == [if a.Lit? then 2 else if a.Param? then 1 else 0, if b.Lit? then 2 else if b.Param? then 1 else 0]
  {
    assert r.pattern[1..] == [b] && [b][1..] == [];
    assert Digits([b]) == [if b.Lit? then 2 else if b.Param? then 1 else 0];
  }

  lemma CompareTails(x: nat, a: seq<nat>, b: seq<nat>)
    ensures Compare([x] + a, [x] + b) == Compare(a, b)
  {
    assert ([x] + a)[1..] == a && ([x] + b)[1..] == b;
  }

  /**
   An ordinary table, whose ties do not carry over: a collection, a literal below it and a parameter
   below it. Nothing in it is inverted, so every request reaches a most specific route.
   */
  lemma AnOrdinaryTableIsMostSpecific(list: Route, below: Route, item: Route)
    requires list.pattern == [Lit("clients")] && below.pattern == [Lit("clients"), Lit("export")]
    requires item.pattern == [Lit("clients"), Param("id")]
    ensures var routes := [list, below, item];
      !TiesAreTransitive(routes) && AlwaysMostSpecific(routes, Order(routes, 3))
  {
    var routes := [list, below, item];
    RankOfOne(list, Lit("clients"));
    RankOfTwo(below, Lit("clients"), Lit("export"));
    RankOfTwo(item, Lit("clients"), Param("id"));
    ThreeRanks();
    OnlyLengthTies(routes);
    InThatOrder(routes);
    OrderMembers(routes, 3);
    NoneInverted(routes);
    MostSpecificExactly(routes, [0, 1, 2]);
  }

  lemma OnlyLengthTies(routes: seq<Route>)
    requires |routes| == 3 && Rank(routes[0]) == [2] && Rank(routes[1]) == [2, 2] && Rank(routes[2]) == [2, 1]
    ensures !TiesAreTransitive(routes)
  {
    ThreeRanks();
    assert Tied(routes[1], routes[0]) && Tied(routes[0], routes[2]) && !Tied(routes[1], routes[2]);
  }

  lemma NoneInverted(routes: seq<Route>)
    requires |routes| == 3 && Rank(routes[0]) == [2] && Rank(routes[1]) == [2, 2] && Rank(routes[2]) == [2, 1]
    ensures forall j: nat, k: nat :: !Inverted(routes, [0, 1, 2], j, k)
  {
    ThreeRanks();
  }

  lemma ThreeRanks()
    ensures Compare([2], [2, 2]) == Compare([2, 2], [2]) == Compare([2], [2, 1]) == Compare([2, 1], [2]) == 0
    ensures Compare([2, 2], [2, 1]) == -1 && Compare([2, 1], [2, 2]) == 1
  {
    CompareTails(2, [], [2]);
    CompareTails(2, [], [1]);
    CompareTails(2, [2], []);
    CompareTails(2, [1], []);
    CompareTails(2, [2], [1]);
    CompareTails(2, [1], [2]);
    assert [2] + [] == [2] && [2] + [2] == [2, 2] && [2] + [1] == [2, 1];
  }

  lemma InThatOrder(routes: seq<Route>)
    requires |routes| == 3 && Rank(routes[0]) == [2] && Rank(routes[1]) == [2, 2] && Rank(routes[2]) == [2, 1]
    ensures Order(routes, 3) == [0, 1, 2]
  {
    ThreeRanks();
    assert Order(routes, 0) == [];
    assert Order(routes, 1) == [0];
    assert Order(routes, 2) == [0, 1];
  }
}
