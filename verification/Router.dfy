/** The ranked router. */
module Router {
  import opened Wrappers

  // ---- Patterns ----------------------------------------------------------------------------

  /** What stands between two slashes of a pattern: fixed text, a parameter, or a prefix and `*` at the end. */
  datatype Segment = Lit(text: string) | Param(name: string) | Tail(prefix: string)

  datatype Route = Route(verb: string, pattern: seq<Segment>)

  /** Whether a pattern matches the segments of a path. */
  predicate Matches(pattern: seq<Segment>, path: seq<string>)
    decreases |pattern|
  {
    if pattern == [] then path == []
    else
      path != [] &&
      match pattern[0]
      case Lit(text) => path[0] == text && Matches(pattern[1..], path[1..])
      case Param(_) => path[0] != "" && Matches(pattern[1..], path[1..])
      case Tail(prefix) => |pattern| == 1 && prefix <= path[0]
  }

  /** One digit for each segment that is not empty: 2 for text, 1 for a parameter, 0 for a wildcard. */
  function Digits(pattern: seq<Segment>): (ds: seq<nat>)
    ensures |ds| <= |pattern|
  {
    if pattern == [] then []
    else
      match pattern[0]
      case Lit(text) => (if text == "" then [] else [2]) + Digits(pattern[1..])
      case Param(_) => [1] + Digits(pattern[1..])
      case Tail(_) => [0] + Digits(pattern[1..])
  }

  // ---- Comparing ranks ---------------------------------------------------------------------

  /** Negative when `a` is the more specific: the first digits that differ decide. */
  function Compare(a: seq<nat>, b: seq<nat>): int {
    if a == [] || b == [] then 0
    else if a[0] != b[0] then b[0] as int - a[0]
    else Compare(a[1..], b[1..])
  }

  method CompareRank(a: seq<nat>, b: seq<nat>) returns (r: int)
    ensures r == Compare(a, b)
  {
    var len := if |a| < |b| then |a| else |b|;
    for i := 0 to len
      invariant Compare(a, b) == Compare(a[i..], b[i..])
    {
      if a[i] != b[i] { return b[i] as int - a[i]; }
    }
    return 0;
  }

  lemma {:induction false} CompareFlips(a: seq<nat>, b: seq<nat>)
    ensures Compare(b, a) == -Compare(a, b)
    decreases |a|
  {
    if a != [] && b != [] && a[0] == b[0] { CompareFlips(a[1..], b[1..]); }
  }

  /** Coming first is always transitive. */
  lemma {:induction false} FirstIsTransitive(a: seq<nat>, b: seq<nat>, c: seq<nat>)
    requires Compare(a, b) < 0 && Compare(b, c) < 0
    ensures Compare(a, c) < 0
    decreases |a|
  {
    if a[0] == b[0] == c[0] { FirstIsTransitive(a[1..], b[1..], c[1..]); }
  }

  /** Two ranks tie exactly when one is a beginning of the other. */
  lemma {:induction false} TieIsPrefix(a: seq<nat>, b: seq<nat>)
    ensures Compare(a, b) == 0 <==> a <= b || b <= a
    decreases |a|
  {
    if a != [] && b != [] {
      if a[0] == b[0] {
        TieIsPrefix(a[1..], b[1..]);
        assert a == [a[0]] + a[1..] && b == [b[0]] + b[1..];
        assert a <= b <==> a[1..] <= b[1..];
        assert b <= a <==> b[1..] <= a[1..];
      }
    }
  }

  function Rank(r: Route): seq<nat> { Digits(r.pattern) }

  ghost predicate Tied(a: Route, b: Route) { Compare(Rank(a), Rank(b)) == 0 }

  /** Ties carry over: what a sort needs to have one answer. */
  ghost predicate TiesAreTransitive(routes: seq<Route>) {
    forall i, j, k ::
      (0 <= i < |routes| && 0 <= j < |routes| && 0 <= k < |routes| && Tied(routes[i], routes[j]) && Tied(routes[j], routes[k]))
      ==> Tied(routes[i], routes[k])
  }

  /** A rank that is a beginning of two ranks that part ways. */
  ghost predicate Forks(routes: seq<Route>, i: int, j: int, k: int) {
    0 <= i < |routes| && 0 <= j < |routes| && 0 <= k < |routes|
    && Rank(routes[j]) <= Rank(routes[i]) && Rank(routes[j]) <= Rank(routes[k]) && !Tied(routes[i], routes[k])
  }

  lemma PrefixChain(a: seq<nat>, b: seq<nat>, c: seq<nat>)
    requires a <= b || b <= a
    requires b <= c || c <= b
    requires !(b <= a && b <= c)
    ensures a <= c || c <= a
  {
    if a <= b && b <= c {
    } else if a <= b && c <= b {
      if |a| <= |c| { assert a == b[..|a|] == c[..|a|]; } else { assert c == b[..|c|] == a[..|c|]; }
    }
  }

  /** Ties carry over in a table exactly when no rank in it is the common beginning of two that part ways. */
  lemma TiesAreTransitiveUnlessForked(routes: seq<Route>)
    ensures TiesAreTransitive(routes) <==> !exists i, j, k :: Forks(routes, i, j, k)
  {
    if i, j, k :| Forks(routes, i, j, k) {
      TieIsPrefix(Rank(routes[i]), Rank(routes[j]));
      TieIsPrefix(Rank(routes[j]), Rank(routes[k]));
      assert Tied(routes[i], routes[j]) && Tied(routes[j], routes[k]);
    } else {
      forall i, j, k | 0 <= i < |routes| && 0 <= j < |routes| && 0 <= k < |routes|
        && Tied(routes[i], routes[j]) && Tied(routes[j], routes[k])
        ensures Tied(routes[i], routes[k])
      {
        var a, b, c := Rank(routes[i]), Rank(routes[j]), Rank(routes[k]);
        TieIsPrefix(a, b);
        TieIsPrefix(b, c);
        TieIsPrefix(a, c);
        if !Tied(routes[i], routes[k]) {
          assert !Forks(routes, i, j, k);
          PrefixChain(a, b, c);
        }
      }
    }
  }

  /** With equally many segments in every pattern it never is. */
  lemma EqualDepthTiesAreTransitive(routes: seq<Route>, depth: nat)
    requires forall i :: 0 <= i < |routes| ==> |Rank(routes[i])| == depth
    ensures TiesAreTransitive(routes)
  {
    forall i, j, k ensures !Forks(routes, i, j, k) {
      if Forks(routes, i, j, k) {
        assert Rank(routes[j]) == Rank(routes[i]) && Rank(routes[j]) == Rank(routes[k]);
        TieIsPrefix(Rank(routes[i]), Rank(routes[k]));
      }
    }
    TiesAreTransitiveUnlessForked(routes);
  }

  function NonEmpty(path: seq<string>): nat {
    if path == [] then 0 else (if path[0] == "" then 0 else 1) + NonEmpty(path[1..])
  }

  /** All the patterns without a wildcard that match one path have the same depth. */
  lemma {:induction false} MatchFixesDepth(pattern: seq<Segment>, path: seq<string>)
    requires Matches(pattern, path) && forall k :: 0 <= k < |pattern| ==> !pattern[k].Tail?
    ensures |Digits(pattern)| == NonEmpty(path)
    decreases |pattern|
  {
    if pattern != [] { MatchFixesDepth(pattern[1..], path[1..]); }
  }

  // ---- Ordering ----------------------------------------------------------------------------

  /** A new last route moves in front of those it is more specific than; ties stay behind. */
  function Insert(routes: seq<Route>, order: seq<nat>, x: nat): (r: seq<nat>)
    requires x < |routes| && forall k :: 0 <= k < |order| ==> order[k] < |routes|
    ensures |r| == |order| + 1 && forall k :: 0 <= k < |r| ==> r[k] < |routes|
    decreases |order|
  {
    if order == [] then [x]
    else
      var n := |order| - 1;
      if Compare(Rank(routes[order[n]]), Rank(routes[x])) > 0 then Insert(routes, order[..n], x) + [order[n]]
      else order + [x]
  }

  lemma {:induction false} InsertMembers(routes: seq<Route>, order: seq<nat>, x: nat)
    requires x < |routes| && forall k :: 0 <= k < |order| ==> order[k] < |routes|
    ensures forall y :: y in Insert(routes, order, x) <==> y in order || y == x
    decreases |order|
  {
    if order != [] {
      InsertMembers(routes, order[..|order| - 1], x);
      assert order == order[..|order| - 1] + [order[|order| - 1]];
    }
  }

  /** The stable order of the first `n` routes, by their places in the table. */
  function Order(routes: seq<Route>, n: nat): (r: seq<nat>)
    requires n <= |routes|
    ensures |r| == n && forall k :: 0 <= k < n ==> r[k] < |routes|
  {
    if n == 0 then [] else Insert(routes, Order(routes, n - 1), n - 1)
  }

  lemma {:induction false} OrderMembers(routes: seq<Route>, n: nat)
    requires n <= |routes|
    ensures forall y: nat :: y in Order(routes, n) <==> y < n
    decreases n
  {
    if n > 0 {
      OrderMembers(routes, n - 1);
      InsertMembers(routes, Order(routes, n - 1), n - 1);
    }
  }

  /** More specific, or as specific and declared before. */
  ghost predicate Ahead(routes: seq<Route>, i: nat, j: nat)
    requires i < |routes| && j < |routes|
  {
    var c := Compare(Rank(routes[i]), Rank(routes[j]));
    c < 0 || (c == 0 && i < j)
  }

  ghost predicate Sorted(routes: seq<Route>, order: seq<nat>)
    requires forall k :: 0 <= k < |order| ==> order[k] < |routes|
  {
    forall i, j :: 0 <= i < j < |order| ==> Ahead(routes, order[i], order[j])
  }

  lemma LastStaysBehind(routes: seq<Route>, order: seq<nat>, x: nat, k: nat)
    requires TiesAreTransitive(routes) && x < |routes| && forall i :: 0 <= i < |order| ==> order[i] < x
    requires Sorted(routes, order) && k < |order|
    requires Compare(Rank(routes[order[|order| - 1]]), Rank(routes[x])) <= 0
    ensures Ahead(routes, order[k], x)
  {
    if k < |order| - 1 {
      assert Ahead(routes, order[k], order[|order| - 1]);
      NotBehind(routes, order[k], order[|order| - 1], x);
    }
  }

  /** Not behind y, and y not behind x: then not behind x. */
  lemma NotBehind(routes: seq<Route>, z: nat, y: nat, x: nat)
    requires TiesAreTransitive(routes) && x < |routes| && y < |routes| && z < |routes|
    requires Compare(Rank(routes[z]), Rank(routes[y])) <= 0 && Compare(Rank(routes[y]), Rank(routes[x])) <= 0
    ensures Compare(Rank(routes[z]), Rank(routes[x])) <= 0
  {
    var a, b, c := Rank(routes[z]), Rank(routes[y]), Rank(routes[x]);
    CompareFlips(a, b);
    CompareFlips(b, c);
    CompareFlips(a, c);
    if Compare(a, b) < 0 {
      if Compare(b, c) < 0 {
        FirstIsTransitive(a, b, c);
      } else if Compare(c, a) < 0 {
        FirstIsTransitive(c, a, b);
      }
    } else if Compare(b, c) < 0 {
      if Compare(c, a) < 0 { FirstIsTransitive(b, c, a); }
    } else {
      assert Tied(routes[z], routes[y]) && Tied(routes[y], routes[x]);
      assert Tied(routes[z], routes[x]);
    }
  }

  lemma SortedThen(routes: seq<Route>, order: seq<nat>, y: nat)
    requires (forall k :: 0 <= k < |order| ==> order[k] < |routes|) && y < |routes|
    requires Sorted(routes, order) && forall k :: 0 <= k < |order| ==> Ahead(routes, order[k], y)
    ensures Sorted(routes, order + [y])
  {
  }

  /** What is put in among routes ahead of `y`, itself ahead of `y`, keeps everything ahead of `y`. */
  lemma InsertedAhead(routes: seq<Route>, order: seq<nat>, x: nat, y: nat)
    requires x < |routes| && y < |routes| && forall k :: 0 <= k < |order| ==> order[k] < |routes|
    requires Ahead(routes, x, y) && forall k :: 0 <= k < |order| ==> Ahead(routes, order[k], y)
    ensures forall i :: 0 <= i < |Insert(routes, order, x)| ==> Ahead(routes, Insert(routes, order, x)[i], y)
  {
    var after := Insert(routes, order, x);
    InsertMembers(routes, order, x);
    forall i | 0 <= i < |after| ensures Ahead(routes, after[i], y) {
      assert after[i] in after;
      if after[i] != x {
        var k :| 0 <= k < |order| && order[k] == after[i];
      }
    }
  }

  lemma {:induction false} InsertKeepsSorted(routes: seq<Route>, order: seq<nat>, x: nat)
    requires TiesAreTransitive(routes) && x < |routes| && forall k :: 0 <= k < |order| ==> order[k] < x
    requires Sorted(routes, order)
    ensures Sorted(routes, Insert(routes, order, x))
    decreases |order|
  {
    if order != [] {
      var n := |order| - 1;
      if Compare(Rank(routes[order[n]]), Rank(routes[x])) > 0 {
        InsertKeepsSorted(routes, order[..n], x);
        CompareFlips(Rank(routes[order[n]]), Rank(routes[x]));
        InsertedAhead(routes, order[..n], x, order[n]);
        var before := Insert(routes, order[..n], x);
        SortedThen(routes, before, order[n]);
      } else {
        forall k | 0 <= k < |order| ensures Ahead(routes, order[k], x) { LastStaysBehind(routes, order, x, k); }
      }
    }
  }

  lemma OrderIsBelow(routes: seq<Route>, n: nat)
    requires n <= |routes|
    ensures forall k :: 0 <= k < |Order(routes, n)| ==> Order(routes, n)[k] < n
  {
    var order := Order(routes, n);
    OrderMembers(routes, n);
    forall k | 0 <= k < |order| ensures order[k] < n { assert order[k] in order; }
  }

  lemma {:induction false} OrderIsSorted(routes: seq<Route>, n: nat, order: seq<nat>)
    requires TiesAreTransitive(routes) && n <= |routes| && order == Order(routes, n)
    ensures Sorted(routes, order)
    decreases n
  {
    if n > 0 {
      var before := Order(routes, n - 1);
      OrderIsSorted(routes, n - 1, before);
      OrderIsBelow(routes, n - 1);
      InsertKeepsSorted(routes, before, n - 1);
    }
  }

  // ---- The router --------------------------------------------------------------------------

  datatype Found = Handler(route: nat) | Allowed(methods: set<string>) | Nothing

  predicate Fits(routes: seq<Route>, i: nat, path: seq<string>) {
    i < |routes| && Matches(routes[i].pattern, path)
  }

  predicate Serves(routes: seq<Route>, i: nat, verb: string, path: seq<string>) {
    Fits(routes, i, path) && routes[i].verb == verb
  }

  function MethodsOf(routes: seq<Route>, path: seq<string>): set<string> {
    set i | 0 <= i < |routes| && Fits(routes, i, path) :: routes[i].verb
  }

  /** The methods of the matching routes among the first `k` of an order. */
  function MethodsAmong(routes: seq<Route>, order: seq<nat>, k: nat, path: seq<string>): set<string>
    requires k <= |order|
  {
    set j | 0 <= j < k && Fits(routes, order[j], path) :: routes[order[j]].verb
  }

  /** What dispatch over an order of the table has to come to: the first route in it that serves the request. */
  ghost predicate IsDispatch(routes: seq<Route>, order: seq<nat>, verb: string, path: seq<string>, r: Found) {
    match r
    case Handler(i) =>
      exists k :: 0 <= k < |order| && order[k] == i && Serves(routes, i, verb, path)
        && forall j :: 0 <= j < k ==> !Serves(routes, order[j], verb, path)
    case Allowed(methods) =>
      && (forall k :: 0 <= k < |order| ==> !Serves(routes, order[k], verb, path))
      && methods != {} && methods == MethodsAmong(routes, order, |order|, path)
    case Nothing => forall k :: 0 <= k < |order| ==> !Fits(routes, order[k], path)
  }

  /** The first `k` routes of an order do not serve a request, and allow these methods. */
  ghost predicate Tried(routes: seq<Route>, order: seq<nat>, k: nat, verb: string, path: seq<string>, allowed: set<string>) {
    && k <= |order|
    && (forall j :: 0 <= j < k ==> !Serves(routes, order[j], verb, path))
    && allowed == MethodsAmong(routes, order, k, path)
  }

  lemma TryNext(routes: seq<Route>, order: seq<nat>, k: nat, verb: string, path: seq<string>, allowed: set<string>)
    requires k < |order| && order[k] < |routes| && Tried(routes, order, k, verb, path, allowed)
    ensures !Fits(routes, order[k], path) ==> Tried(routes, order, k + 1, verb, path, allowed)
    ensures Fits(routes, order[k], path) && routes[order[k]].verb != verb ==>
              Tried(routes, order, k + 1, verb, path, allowed + {routes[order[k]].verb})
  {
  }

  lemma NothingFits(routes: seq<Route>, order: seq<nat>, verb: string, path: seq<string>)
    requires Tried(routes, order, |order|, verb, path, {})
    ensures forall k :: 0 <= k < |order| ==> !Fits(routes, order[k], path)
  {
    assert forall k :: 0 <= k < |order| && Fits(routes, order[k], path) ==>
      routes[order[k]].verb in MethodsAmong(routes, order, |order|, path);
  }

  lemma FoundAt(routes: seq<Route>, order: seq<nat>, k: nat, verb: string, path: seq<string>, allowed: set<string>)
    requires k < |order| && Tried(routes, order, k, verb, path, allowed) && Serves(routes, order[k], verb, path)
    ensures IsDispatch(routes, order, verb, path, Handler(order[k]))
  {
  }

  class Table {
    var routes: seq<Route>
    var ranked: Option<seq<nat>>

    /** The cached order is never stale. */
    ghost predicate Valid()
      reads this
    {
      ranked.Some? ==> ranked.value == Order(routes, |routes|)
    }

    constructor ()
      ensures Valid() && routes == []
    {
      routes, ranked := [], None;
    }

    method Add(route: Route)
      requires Valid()
      modifies this
      ensures Valid() && routes == old(routes) + [route]
    {
      routes := routes + [route];
      ranked := None;
    }

    /** Another table's routes under a prefix; its root answers with and without a trailing slash. */
    method Mount(base: seq<Segment>, child: seq<Route>)
      requires Valid()
      modifies this
      ensures Valid() && routes == old(routes) + Mounted(base, child)
    {
      for k := 0 to |child|
        invariant Valid() && routes == old(routes) + Mounted(base, child[..k])
      {
        var r := child[k];
        assert child[..k + 1][..k] == child[..k];
        ghost var before := Mounted(base, child[..k]);
        if IsRoot(r.pattern) {
          Add(Route(r.verb, base));
          Add(Route(r.verb, base + [Lit("")]));
          assert routes == old(routes) + (before + [Route(r.verb, base), Route(r.verb, base + [Lit("")])]);
        } else {
          Add(Route(r.verb, base + r.pattern));
          assert routes == old(routes) + (before + [Route(r.verb, base + r.pattern)]);
        }
      }
      assert child[..|child|] == child;
    }

    method OrderedRoutes() returns (order: seq<nat>)
      requires Valid()
      modifies this`ranked
      ensures Valid() && order == Order(routes, |routes|)
    {
      if ranked == None { ranked := Some(Order(routes, |routes|)); }
      order := ranked.value;
    }

    method Match(verb: string, path: seq<string>) returns (r: Found)
      requires Valid()
      modifies this`ranked
      ensures Valid() && IsDispatch(routes, Order(routes, |routes|), verb, path, r)
    {
      var allowed: set<string> := {};
      var order := OrderedRoutes();
      for k := 0 to |order|
        invariant Valid() && Tried(routes, order, k, verb, path, allowed)
      {
        var route := routes[order[k]];
        TryNext(routes, order, k, verb, path, allowed);
        if !Matches(route.pattern, path) { continue; }
        if route.verb != verb { allowed := allowed + {route.verb}; continue; }
        FoundAt(routes, order, k, verb, path, allowed);
        return Handler(order[k]);
      }
      if allowed != {} { return Allowed(allowed); }
      NothingFits(routes, order, verb, path);
      return Nothing;
    }
  }

  predicate IsRoot(pattern: seq<Segment>) { pattern == [] || pattern == [Lit("")] }

  function Mounted(base: seq<Segment>, child: seq<Route>): seq<Route> {
    if child == [] then []
    else
      var r := child[|child| - 1];
      Mounted(base, child[..|child| - 1])
      + (if IsRoot(r.pattern) then [Route(r.verb, base), Route(r.verb, base + [Lit("")])]
         else [Route(r.verb, base + r.pattern)])
  }

  /** A mounted table has the child's routes under the prefix, its root as the prefix with and without a slash, and no others. */
  lemma {:induction false} MountedAre(base: seq<Segment>, child: seq<Route>, r: Route)
    ensures r in Mounted(base, child)
            <==> exists k :: 0 <= k < |child| && r.verb == child[k].verb
                   && if child[k].pattern == [] || child[k].pattern == [Lit("")] then r.pattern == base || r.pattern == base + [Lit("")]
                      else r.pattern == base + child[k].pattern
    decreases |child|
  {
    if child != [] {
      MountedAre(base, child[..|child| - 1], r);
      MountedLast(base, child, r);
    }
  }

  lemma MountedLast(base: seq<Segment>, child: seq<Route>, r: Route)
    requires child != []
    ensures var last := child[|child| - 1];
      r in Mounted(base, child)
      <==> r in Mounted(base, child[..|child| - 1])
           || (r.verb == last.verb
               && if last.pattern == [] || last.pattern == [Lit("")] then r.pattern == base || r.pattern == base + [Lit("")]
                  else r.pattern == base + last.pattern)
  {
  }

  // ---- What dispatch means -----------------------------------------------------------------

  /** An order that has every place of the table. */
  ghost predicate IsOrderOf(routes: seq<Route>, order: seq<nat>) {
    forall i: nat :: i in order <==> i < |routes|
  }

  lemma PlaceOf(order: seq<nat>, i: nat) returns (k: nat)
    requires i in order
    ensures k < |order| && order[k] == i
  {
    k :| 0 <= k < |order| && order[k] == i;
  }

  /**
   Whatever order the routes are tried in: a handler is found exactly when a route of the method
   matches, and otherwise the methods allowed are exactly those of the routes that match.
   */
  lemma AnyOrderFindsAHandler(routes: seq<Route>, order: seq<nat>, verb: string, path: seq<string>, r: Found)
    requires IsOrderOf(routes, order) && IsDispatch(routes, order, verb, path, r)
    ensures r.Handler? <==> exists i: nat :: Serves(routes, i, verb, path)
    ensures r.Handler? ==> Serves(routes, r.route, verb, path)
    ensures r.Allowed? ==> r.methods == MethodsOf(routes, path) && verb !in r.methods
    ensures r.Nothing? <==> MethodsOf(routes, path) == {}
  {
    forall i: nat | Fits(routes, i, path) ensures r.Nothing? ==> false {
      if r.Nothing? { var k := PlaceOf(order, i); }
    }
    forall i: nat | Serves(routes, i, verb, path) ensures r.Handler? {
      var k := PlaceOf(order, i);
      assert Fits(routes, order[k], path);
    }
    if r.Allowed? {
      var found := MethodsAmong(routes, order, |order|, path);
      forall m ensures m in found <==> m in MethodsOf(routes, path) {
        if m in found {
          var k :| 0 <= k < |order| && Fits(routes, order[k], path) && routes[order[k]].verb == m;
        }
        if m in MethodsOf(routes, path) {
          var i: nat :| i < |routes| && Fits(routes, i, path) && routes[i].verb == m;
          var k := PlaceOf(order, i);
        }
      }
    } else if r.Handler? {
      assert routes[r.route].verb in MethodsOf(routes, path);
    }
  }

  /**
   In any order a stable sort can leave the table in, a request reaches the most specific of the
   routes that serve it, and the one declared first among those that tie.
   */
  lemma SortedDispatch(routes: seq<Route>, order: seq<nat>, verb: string, path: seq<string>, r: Found, i: nat)
    requires IsOrderOf(routes, order) && (forall k :: 0 <= k < |order| ==> order[k] < |routes|) && Sorted(routes, order)
    requires IsDispatch(routes, order, verb, path, r) && Serves(routes, i, verb, path)
    ensures r.Handler? && Serves(routes, r.route, verb, path)
    ensures r.route == i || Ahead(routes, r.route, i)
  {
    var k := PlaceOf(order, i);
    assert Fits(routes, order[k], path);
  }

  /** With ties that carry over, that is what a table does. */
  lemma MostSpecificRouteWins(routes: seq<Route>, verb: string, path: seq<string>, r: Found, i: nat)
    requires TiesAreTransitive(routes)
    requires IsDispatch(routes, Order(routes, |routes|), verb, path, r)
    requires Serves(routes, i, verb, path)
    ensures r.Handler? && Serves(routes, r.route, verb, path)
    ensures r.route == i || Ahead(routes, r.route, i)
  {
    OrderIsSorted(routes, |routes|, Order(routes, |routes|));
    OrderMembers(routes, |routes|);
    SortedDispatch(routes, Order(routes, |routes|), verb, path, r, i);
  }

  /**
   Without that condition the ranking can fail: a route of another depth declared between two
   others ties with both and keeps them in the order they were declared, so the literal route is
   never reached.
   */
  lemma AnotherDepthHidesALiteral()
    ensures var routes := [
        Route("GET", [Lit("calls"), Param("id")]),
        Route("GET", [Lit("health")]),
        Route("GET", [Lit("calls"), Lit("voicemails")])];
      && Compare(Rank(routes[2]), Rank(routes[0])) < 0
      && !TiesAreTransitive(routes)
      && IsDispatch(routes, Order(routes, 3), "GET", ["calls", "voicemails"], Handler(0))
  {
    var a, b, c := Route("GET", [Lit("calls"), Param("id")]), Route("GET", [Lit("health")]),
                   Route("GET", [Lit("calls"), Lit("voicemails")]);
    var routes := [a, b, c];
    assert Rank(a) == [2, 1] by { assert a.pattern[1..] == [Param("id")] && a.pattern[1..][1..] == []; }
    assert Rank(b) == [2] by { assert b.pattern[1..] == []; }
    assert Rank(c) == [2, 2] by { assert c.pattern[1..] == [Lit("voicemails")] && c.pattern[1..][1..] == []; }
    assert Compare([2, 1], [2]) == Compare([2, 1][1..], [2][1..]) == 0;
    assert Compare([2], [2, 2]) == Compare([2][1..], [2, 2][1..]) == 0;
    assert Compare([2, 2], [2, 1]) == Compare([2, 2][1..], [2, 1][1..]) == -1;
    CompareFlips([2, 2], [2, 1]);
    assert Tied(routes[0], routes[1]) && Tied(routes[1], routes[2]) && !Tied(routes[0], routes[2]);
    assert Order(routes, 1) == [0] by { assert Order(routes, 0) == []; }
    assert Order(routes, 2) == [0, 1];
    assert Order(routes, 3) == [0, 1, 2];
    var path := ["calls", "voicemails"];
    assert path[1..] == ["voicemails"] && path[1..][1..] == [];
    assert a.pattern[1..] == [Param("id")] && a.pattern[1..][1..] == [];
    assert Matches(a.pattern[1..], path[1..]);
    assert Serves(routes, 0, "GET", path);
    assert Order(routes, 3)[0] == 0;
  }

  // ---- What ranks and patterns mean ---------------------------------------------------------

  predicate Plain(pattern: seq<Segment>) { forall k :: 0 <= k < |pattern| ==> pattern[k] != Lit("") }

  function DigitOf(s: Segment): nat { match s case Lit(_) => 2 case Param(_) => 1 case Tail(_) => 0 }

  lemma {:induction false} DigitsAre(pattern: seq<Segment>)
    requires Plain(pattern)
    ensures |Digits(pattern)| == |pattern| && forall k :: 0 <= k < |pattern| ==> Digits(pattern)[k] == DigitOf(pattern[k])
    decreases |pattern|
  {
    if pattern != [] { DigitsAre(pattern[1..]); }
  }

  lemma {:induction false} FirstDifferent(a: seq<nat>, b: seq<nat>, k: nat)
    requires k < |a| && k < |b| && a[..k] == b[..k] && a[k] > b[k]
    ensures Compare(a, b) < 0
    decreases k
  {
    if k > 0 {
      assert a[0] == a[..k][0] == b[..k][0] == b[0];
      assert a[1..][..k - 1] == a[..k][1..] && b[1..][..k - 1] == b[..k][1..];
      FirstDifferent(a[1..], b[1..], k - 1);
    }
  }

  /** Whether fixed text stands here against a parameter or a wildcard, or a parameter against a wildcard. */
  predicate Beats(a: Segment, b: Segment) { (a.Lit? && !b.Lit?) || (a.Param? && b.Tail?) }

  /**
   Literal beats parameter beats wildcard, left to right: where two patterns first differ in kind, the one
   with the better kind comes first.
   */
  lemma BetterKindIsFirst(a: Route, b: Route, k: nat)
    requires Plain(a.pattern) && Plain(b.pattern) && k < |a.pattern| && k < |b.pattern|
    requires forall j :: 0 <= j < k ==> !Beats(a.pattern[j], b.pattern[j]) && !Beats(b.pattern[j], a.pattern[j])
    requires Beats(a.pattern[k], b.pattern[k])
    ensures Compare(Rank(a), Rank(b)) < 0
  {
    DigitsAre(a.pattern);
    DigitsAre(b.pattern);
    assert Rank(a)[..k] == Rank(b)[..k];
    FirstDifferent(Rank(a), Rank(b), k);
  }

  /** A path fits a pattern without wildcards segment by segment: the text, or anything but nothing for a parameter. */
  lemma {:induction false} FitsBySegments(pattern: seq<Segment>, path: seq<string>)
    requires forall k :: 0 <= k < |pattern| ==> !pattern[k].Tail?
    ensures Matches(pattern, path)
            <==> |path| == |pattern|
                 && forall k :: 0 <= k < |pattern| ==> if pattern[k].Lit? then path[k] == pattern[k].text else path[k] != ""
    decreases |pattern|
  {
    if pattern != [] && path != [] {
      FitsBySegments(pattern[1..], path[1..]);
      forall k | 1 <= k < |pattern| && k < |path| ensures pattern[k] == pattern[1..][k - 1] && path[k] == path[1..][k - 1] {}
    }
  }

  /** A wildcard at the end takes whatever begins with its prefix, and all that follows. */
  lemma WildcardTakesTheRest(prefix: string, path: seq<string>)
    ensures Matches([Tail(prefix)], path) <==> path != [] && |prefix| <= |path[0]| && path[0][..|prefix|] == prefix
  {
  }

  /** A literal declared after a parameter is tried before it. */
  lemma LaterLiteralIsFirst(param: Route, literal: Route, k: nat)
    requires Plain(param.pattern) && Plain(literal.pattern) && k < |param.pattern| && k < |literal.pattern|
    requires forall j :: 0 <= j < k ==> param.pattern[j].Lit? == literal.pattern[j].Lit? && param.pattern[j].Param? == literal.pattern[j].Param?
    requires literal.pattern[k].Lit? && param.pattern[k].Param?
    ensures Order([param, literal], 2) == [1, 0]
  {
    var routes := [param, literal];
    BetterKindIsFirst(literal, param, k);
    CompareFlips(Rank(literal), Rank(param));
    assert Order(routes, 0) == [];
    assert Order(routes, 1) == [0];
    assert [0][..0] == [] && Insert(routes, [0], 1) == Insert(routes, [0][..0], 1) + [0];
    assert Order(routes, 2) == Insert(routes, Order(routes, 1), 1);
  }
}
