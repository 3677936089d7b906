/** Temporary passwords, and the policy. */
module Passwords {
  import opened Wrappers

  // ---- Unbiased choices --------------------------------------------------------------------

  type Word = x: int | 0 <= x < 0x1_0000_0000

  /** A value made from random words, and the words that are left. */
  datatype Drawn<+T> = Drawn(value: T, rest: seq<Word>)

  /** The words below this bound are accepted. */
  function Bound(limit: nat): nat
    requires limit > 0
  {
    0xFFFF_FFFF / limit * limit
  }

  /** The first accepted word decides; `None` if the words run out before one is. */
  function Below(words: seq<Word>, limit: nat): (d: Option<Drawn<nat>>)
    requires limit > 0
    ensures d.Some? ==> d.value.value < limit
  {
    if words == [] then None
    else if words[0] < Bound(limit) then Some(Drawn(words[0] % limit, words[1..]))
    else Below(words[1..], limit)
  }

  /** The random words still to come. */
  class Words {
    var left: seq<Word>

    constructor (words: seq<Word>)
      ensures left == words
    {
      left := words;
    }

    method RandomBelow(limit: nat) returns (r: Option<nat>)
      requires limit > 0
      modifies this
      ensures var d := Below(old(left), limit);
        if d == None then r == None else r == Some(d.value.value) && left == d.value.rest
    {
      var max := 0xFFFF_FFFF / limit * limit;
      while left != []
        invariant Below(left, limit) == Below(old(left), limit)
        decreases |left|
      {
        var n := left[0];
        left := left[1..];
        if n < max { return Some(n % limit); }
      }
      return None;
    }

    method PickFrom(letters: string) returns (r: Option<char>)
      requires letters != ""
      modifies this
      ensures var d := Pick(old(left), letters);
        if d == None then r == None else r == Some(d.value.value) && left == d.value.rest
    {
      var k := RandomBelow(|letters|);
      if k == None { return None; }
      return Some(letters[k.value]);
    }
  }

  /** The words below a bound that give one residue. */
  function Preimages(bound: nat, limit: nat, r: nat): set<int>
    requires limit > 0
  {
    set n | 0 <= n < bound && n % limit == r
  }

  lemma OneMoreRow(q: nat, limit: nat, r: nat)
    requires limit > 0 && r < limit
    ensures Preimages((q + 1) * limit, limit, r) == Preimages(q * limit, limit, r) + {q * limit + r}
  {
    assert (q + 1) * limit == q * limit + limit;
    forall n | q * limit <= n < q * limit + limit ensures n % limit == n - q * limit {
      Remainder(n, q, limit);
    }
    Remainder(q * limit + r, q, limit);
  }

  lemma Remainder(n: int, q: int, limit: nat)
    requires limit > 0 && q * limit <= n < q * limit + limit
    ensures n % limit == n - q * limit
  {
    var d := n / limit;
    assert n == d * limit + n % limit;
    Between(q - d, limit);
    Between(d - q, limit);
    assert (q - d) * limit == q * limit - d * limit;
    assert (d - q) * limit == d * limit - q * limit;
  }

  lemma Between(k: int, limit: nat)
    ensures k >= 1 ==> k * limit >= limit
  {
    if k >= 1 {
      assert (k - 1) * limit >= 0;
      assert k * limit == (k - 1) * limit + limit;
    }
  }

  lemma {:induction false} RowsOf(q: nat, limit: nat, r: nat)
    requires limit > 0 && r < limit
    ensures |Preimages(q * limit, limit, r)| == q
    decreases q
  {
    if q == 0 {
      assert Preimages(0, limit, r) == {};
    } else {
      RowsOf(q - 1, limit, r);
      OneMoreRow(q - 1, limit, r);
      assert (q - 1) * limit + r !in Preimages((q - 1) * limit, limit, r);
    }
  }

  /** Every value below the limit comes from exactly as many accepted words as any other. */
  lemma ChoicesAreUnbiased(limit: nat, r: nat)
    requires limit > 0 && r < limit
    ensures Bound(limit) <= 0xFFFF_FFFF
    ensures |Preimages(Bound(limit), limit, r)| == 0xFFFF_FFFF / limit
  {
    RowsOf(0xFFFF_FFFF / limit, limit, r);
    assert 0xFFFF_FFFF == 0xFFFF_FFFF / limit * limit + 0xFFFF_FFFF % limit;
  }

  // ---- Generating --------------------------------------------------------------------------

  const UPPER := "ABCDEFGHJKLMNPQRSTUVWXYZ"
  const LOWER := "abcdefghijkmnopqrstuvwxyz"
  const DIGIT := "23456789"
  const SYMBOL := "!@#$%&*?-+"

  function Pick(words: seq<Word>, letters: string): (d: Option<Drawn<char>>)
    requires letters != ""
    ensures d.Some? ==> d.value.value in letters
  {
    var k := Below(words, |letters|);
    if k == None then None else Some(Drawn(letters[k.value.value], k.value.rest))
  }

  predicate NoneEmpty(sets: seq<string>) { forall k :: 0 <= k < |sets| ==> sets[k] != "" }

  /** One character from each set, in order. */
  function PickEach(words: seq<Word>, sets: seq<string>): Option<Drawn<string>>
    requires NoneEmpty(sets)
    decreases |sets|
  {
    if sets == [] then Some(Drawn("", words))
    else
      var n := |sets| - 1;
      var before := PickEach(words, sets[..n]);
      if before == None then None
      else
        var c := Pick(before.value.rest, sets[n]);
        if c == None then None else Some(Drawn(before.value.value + [c.value.value], c.value.rest))
  }

  function Swap<T>(s: seq<T>, i: nat, j: nat): (r: seq<T>)
    requires i < |s| && j < |s|
    ensures |r| == |s|
  {
    s[i := s[j]][j := s[i]]
  }

  lemma SwapKeepsElements<T>(s: seq<T>, i: nat, j: nat)
    requires i < |s| && j < |s|
    ensures multiset(Swap(s, i, j)) == multiset(s)
  {
  }

  /** The shuffle from position `i` down. */
  function Shuffle(s: string, words: seq<Word>, i: nat): (d: Option<Drawn<string>>)
    requires i < |s|
    decreases i
  {
    if i == 0 then Some(Drawn(s, words))
    else
      var j := Below(words, i + 1);
      if j == None then None else Shuffle(Swap(s, i, j.value.value), j.value.rest, i - 1)
  }

  /** A shuffle only changes the order. */
  lemma {:induction false} ShuffleKeeps(s: string, words: seq<Word>, i: nat)
    requires i < |s|
    ensures var d := Shuffle(s, words, i); d.Some? ==> |d.value.value| == |s| && multiset(d.value.value) == multiset(s)
    decreases i
  {
    if i > 0 && Below(words, i + 1).Some? {
      var j := Below(words, i + 1).value;
      SwapKeepsElements(s, i, j.value);
      ShuffleKeeps(Swap(s, i, j.value), j.rest, i - 1);
    }
  }

  lemma ShuffleStep(s: string, words: seq<Word>, i: nat)
    requires 0 < i < |s|
    ensures Shuffle(s, words, i) ==
      var j := Below(words, i + 1);
      if j == None then None else Shuffle(Swap(s, i, j.value.value), j.value.rest, i - 1)
  {
  }

  function Wanted(length: int): nat { if length > 12 then length else 12 }

  function Repeat(letters: string, n: nat): (r: seq<string>)
    ensures |r| == n && forall k :: 0 <= k < n ==> r[k] == letters
  {
    seq(n, k => letters)
  }

  /** Where each character of a password of the wanted length is drawn from. */
  function Sets(n: nat): (r: seq<string>)
    requires n >= 4
    ensures |r| == n && NoneEmpty(r)
  {
    [UPPER, LOWER, DIGIT, SYMBOL] + Repeat(UPPER + LOWER + DIGIT + SYMBOL, n - 4)
  }

  lemma {:induction false} PickedFromEach(words: seq<Word>, sets: seq<string>)
    requires NoneEmpty(sets)
    ensures var d := PickEach(words, sets);
      d.Some? ==> |d.value.value| == |sets| && forall k :: 0 <= k < |sets| ==> d.value.value[k] in sets[k]
    decreases |sets|
  {
    if sets != [] { PickedFromEach(words, sets[..|sets| - 1]); }
  }

  /** A temporary password: characters drawn one class after the other, then shuffled. */
  function Temporary(words: seq<Word>, length: int): Option<Drawn<string>> {
    var drawn := PickEach(words, Sets(Wanted(length)));
    if drawn == None || drawn.value.value == "" then None
    else Shuffle(drawn.value.value, drawn.value.rest, |drawn.value.value| - 1)
  }

  lemma PickOne(words: seq<Word>, sets: seq<string>, letters: string)
    requires NoneEmpty(sets) && letters != ""
    ensures PickEach(words, sets + [letters]) ==
      var before := PickEach(words, sets);
      if before == None then None
      else
        var c := Pick(before.value.rest, letters);
        if c == None then None else Some(Drawn(before.value.value + [c.value.value], c.value.rest))
  {
    assert (sets + [letters])[..|sets|] == sets;
  }

  lemma {:induction false} PickFails(words: seq<Word>, sets: seq<string>, more: seq<string>)
    requires NoneEmpty(sets + more) && NoneEmpty(sets) && PickEach(words, sets) == None
    ensures PickEach(words, sets + more) == None
    decreases |more|
  {
    if more == [] {
      assert sets + more == sets;
    } else {
      assert (sets + more)[..|sets + more| - 1] == sets + more[..|more| - 1];
      PickFails(words, sets, more[..|more| - 1]);
    }
  }

  /** One more character, drawn from the next set. */
  method DrawNext(random: Words, ghost words: seq<Word>, ghost sets: seq<string>, chars: string, letters: string)
    returns (r: Option<string>)
    requires NoneEmpty(sets) && |chars| < |sets| && letters == sets[|chars|]
    requires PickEach(words, sets[..|chars|]) == Some(Drawn(chars, random.left))
    modifies random
    ensures r == None ==> PickEach(words, sets) == None
    ensures r.Some? ==> |r.value| == |chars| + 1 && PickEach(words, sets[..|chars| + 1]) == Some(Drawn(r.value, random.left))
  {
    ghost var k := |chars|;
    assert sets[..k + 1] == sets[..k] + [letters];
    PickOne(words, sets[..k], letters);
    var c := random.PickFrom(letters);
    if c == None {
      assert sets == sets[..k + 1] + sets[k + 1..];
      PickFails(words, sets[..k + 1], sets[k + 1..]);
      return None;
    }
    return Some(chars + [c.value]);
  }

  lemma TemporaryFrom(words: seq<Word>, length: int, chars: string, rest: seq<Word>)
    requires PickEach(words, Sets(Wanted(length))) == Some(Drawn(chars, rest)) && chars != ""
    ensures Temporary(words, length) == Shuffle(chars, rest, |chars| - 1)
  {
  }

  /** The characters of a password before they are shuffled: one a class, then filled to the length. */
  method DrawAll(random: Words, length: int) returns (r: Option<string>)
    modifies random
    ensures var d := PickEach(old(random.left), Sets(Wanted(length)));
      if r == None then d == None else r.value != "" && d == Some(Drawn(r.value, random.left))
  {
    ghost var words, sets := random.left, Sets(Wanted(length));
    var all := UPPER + LOWER + DIGIT + SYMBOL;
    var chars := "";
    var classes := [UPPER, LOWER, DIGIT, SYMBOL];
    for k := 0 to 4
      invariant |chars| == k && PickEach(words, sets[..k]) == Some(Drawn(chars, random.left))
    {
      var more := DrawNext(random, words, sets, chars, classes[k]);
      if more == None { return None; }
      chars := more.value;
    }
    while |chars| < Wanted(length)
      invariant 4 <= |chars| <= Wanted(length)
      invariant PickEach(words, sets[..|chars|]) == Some(Drawn(chars, random.left))
    {
      var more := DrawNext(random, words, sets, chars, all);
      if more == None { return None; }
      chars := more.value;
    }
    assert sets[..|chars|] == sets;
    return Some(chars);
  }

  method ToArray(chars: string) returns (a: array<char>)
    ensures fresh(a) && a[..] == chars
  {
    a := new char[|chars|](k requires 0 <= k < |chars| => chars[k]);
  }

  method GenerateTemporaryPassword(random: Words, length: int) returns (r: Option<string>)
    modifies random
    ensures r == var d := Temporary(old(random.left), length); if d == None then None else Some(d.value.value)
  {
    ghost var words := random.left;
    var drawn := DrawAll(random, length);
    if drawn == None { return None; }
    TemporaryFrom(words, length, drawn.value, random.left);
    var a := ToArray(drawn.value);
    r := ShuffleInPlace(a, random);
  }

  /** The shuffle, in place, and the text of the result. */
  method ShuffleInPlace(a: array<char>, random: Words) returns (r: Option<string>)
    requires a.Length > 0
    modifies a, random
    ensures r == var d := Shuffle(old(a[..]), old(random.left), a.Length - 1);
                 if d == None then None else Some(d.value.value)
  {
    var i := a.Length - 1;
    while i > 0
      invariant 0 <= i < a.Length
      invariant Shuffle(a[..], random.left, i) == Shuffle(old(a[..]), old(random.left), a.Length - 1)
    {
      ghost var before, words := a[..], random.left;
      ShuffleStep(before, words, i);
      var j := random.RandomBelow(i + 1);
      if j == None { return None; }
      a[i], a[j.value] := a[j.value], a[i];
      assert a[..] == Swap(before, i, j.value);
      i := i - 1;
    }
    return Some(a[..]);
  }

  // ---- The shuffle is fair -----------------------------------------------------------------

  /** Indices a shuffle may draw, for positions `|js|` down to 1. */
  predicate Indices(js: seq<nat>) { forall k :: 0 <= k < |js| ==> js[k] <= |js| - k }

  /** The shuffle with its indices given, for positions `|js|` down to 1. */
  function Shuffled<T>(s: seq<T>, js: seq<nat>): (r: seq<T>)
    requires |js| < |s| && Indices(js)
    ensures |r| == |s|
    decreases |js|
  {
    if js == [] then s
    else
      assert Indices(js[1..]) by { forall k | 0 <= k < |js| - 1 ensures js[1..][k] == js[k + 1] {} }
      Shuffled(Swap(s, |js|, js[0]), js[1..])
  }

  predicate AllDifferent<T(==)>(s: seq<T>) { forall i, j :: 0 <= i < j < |s| ==> s[i] != s[j] }

  lemma {:induction false} SettledAbove<T>(s: seq<T>, js: seq<nat>)
    requires |js| < |s| && Indices(js)
    ensures Shuffled(s, js)[|js| + 1..] == s[|js| + 1..]
    decreases |js|
  {
    if js != [] {
      assert Indices(js[1..]) by { forall k | 0 <= k < |js| - 1 ensures js[1..][k] == js[k + 1] {} }
      var t := Swap(s, |js|, js[0]);
      SettledAbove(t, js[1..]);
      assert t[|js|..][1..] == s[|js| + 1..];
    }
  }

  lemma SettledAt<T>(s: seq<T>, js: seq<nat>)
    requires 0 < |js| < |s| && Indices(js)
    ensures Indices(js[1..]) && Shuffled(s, js)[|js|] == s[js[0]]
  {
    assert Indices(js[1..]) by { forall k | 0 <= k < |js| - 1 ensures js[1..][k] == js[k + 1] {} }
    var t := Swap(s, |js|, js[0]);
    SettledAbove(t, js[1..]);
    assert Shuffled(t, js[1..])[|js|] == t[|js|..][0];
  }

  /** Different indices give different orders. */
  lemma {:induction false} IndicesAreInjective<T>(s: seq<T>, js: seq<nat>, ks: seq<nat>)
    requires AllDifferent(s) && |js| == |ks| < |s| && Indices(js) && Indices(ks)
    requires Shuffled(s, js) == Shuffled(s, ks)
    ensures js == ks
    decreases |js|
  {
    if js != [] {
      SettledAt(s, js);
      SettledAt(s, ks);
      assert js[0] == ks[0];
      IndicesAreInjective(Swap(s, |js|, js[0]), js[1..], ks[1..]);
      assert js == [js[0]] + js[1..] && ks == [ks[0]] + ks[1..];
    }
  }

  lemma SplitElements<T>(s: seq<T>, n: nat)
    requires n < |s|
    ensures multiset(s[..n + 1]) == multiset(s[..n]) + multiset{s[n]}
  {
    assert s[..n + 1] == s[..n] + [s[n]];
  }

  lemma SameBelow<T>(t: seq<T>, target: seq<T>, n: nat)
    requires n < |t| && n < |target| && t[n] == target[n]
    requires multiset(t[..n + 1]) == multiset(target[..n + 1])
    ensures multiset(t[..n]) == multiset(target[..n])
  {
    SplitElements(t, n);
    SplitElements(target, n);
    assert multiset(t[..n]) == multiset(t[..n + 1]) - multiset{t[n]};
    assert multiset(target[..n]) == multiset(target[..n + 1]) - multiset{target[n]};
  }

  lemma SwappedIntoPlace<T>(s: seq<T>, target: seq<T>, n: nat, j: nat)
    requires 0 < n < |s| == |target| && j <= n && s[j] == target[n]
    requires multiset(s[..n + 1]) == multiset(target[..n + 1]) && s[n + 1..] == target[n + 1..]
    ensures multiset(Swap(s, n, j)[..n]) == multiset(target[..n]) && Swap(s, n, j)[n..] == target[n..]
  {
    var t := Swap(s, n, j);
    assert t[n] == target[n];
    assert multiset(t[..n + 1]) == multiset(s[..n + 1]) by {
      assert t[..n + 1] == Swap(s[..n + 1], n, j);
      SwapKeepsElements(s[..n + 1], n, j);
    }
    SameBelow(t, target, n);
    forall k | n <= k < |s| ensures t[k] == target[k] {
      if k > n { assert t[k] == s[n + 1..][k - n - 1] == target[n + 1..][k - n - 1]; }
    }
  }

  /** Every order of the elements comes from some indices. */
  lemma {:induction false} EveryOrderIsReached<T>(s: seq<T>, target: seq<T>, n: nat) returns (js: seq<nat>)
    requires n < |s| == |target|
    requires multiset(s[..n + 1]) == multiset(target[..n + 1]) && s[n + 1..] == target[n + 1..]
    ensures |js| == n && Indices(js) && Shuffled(s, js) == target
    decreases n
  {
    if n == 0 {
      assert s[..1] == [s[0]] && target[..1] == [target[0]];
      assert multiset(s[..1])[s[0]] == 1;
      assert s[0] == target[0];
      assert s == s[..1] + s[1..] && target == target[..1] + target[1..];
      js := [];
    } else {
      assert target[n] in multiset(target[..n + 1]) by { SplitElements(target, n); }
      assert target[n] in s[..n + 1];
      var j: nat :| j <= n && s[j] == target[n];
      var t := Swap(s, n, j);
      SwappedIntoPlace(s, target, n, j);
      var ks := EveryOrderIsReached(t, target, n - 1);
      js := [j] + ks;
      assert js[1..] == ks;
    }
  }

  /**
   With all elements different, the index choices and the orders of the elements correspond one
   to one: equally likely choices make every order equally likely.
   */
  lemma ShuffleIsFair<T>(s: seq<T>, target: seq<T>)
    requires s != [] && AllDifferent(s) && multiset(s) == multiset(target)
    ensures exists js: seq<nat> :: |js| == |s| - 1 && Indices(js) && Shuffled(s, js) == target
    ensures forall js: seq<nat>, ks: seq<nat> ::
              |js| == |ks| == |s| - 1 && Indices(js) && Indices(ks) && Shuffled(s, js) == target == Shuffled(s, ks)
              ==> js == ks
  {
    assert |s| == |multiset(s)| == |target|;
    var n := |s| - 1;
    assert s[..n + 1] == s && target[..n + 1] == target && s[n + 1..] == target[n + 1..];
    var js := EveryOrderIsReached(s, target, n);
    forall js: seq<nat>, ks: seq<nat> |
      |js| == |ks| == |s| - 1 && Indices(js) && Indices(ks) && Shuffled(s, js) == target == Shuffled(s, ks)
      ensures js == ks
    {
      IndicesAreInjective(s, js, ks);
    }
  }

  // ---- The policy --------------------------------------------------------------------------

  datatype Problem = TooShort | TooLong | NoLower | NoUpper | NoDigit | TooCommon | ReusesIdentity

  datatype Policy = Policy(minLength: int, requireMixed: bool, forbidCommon: bool, identity: seq<Option<string>>)

  const DEFAULT := Policy(10, true, true, [])

  const COMMON: set<string> := {
    "password", "password1", "password123", "12345678", "123456789", "qwerty123", "welcome1", "admin@123",
    "letmein1", "iloveyou", "abc12345", "changeme", "passw0rd", "finance123", "company123" }

  predicate IsLower(c: char) { 'a' <= c <= 'z' }

  predicate IsUpper(c: char) { 'A' <= c <= 'Z' }

  predicate IsDigit(c: char) { '0' <= c <= '9' }

  predicate HasLower(s: string) { exists k :: 0 <= k < |s| && IsLower(s[k]) }

  predicate HasUpper(s: string) { exists k :: 0 <= k < |s| && IsUpper(s[k]) }

  predicate HasDigit(s: string) { exists k :: 0 <= k < |s| && IsDigit(s[k]) }

  predicate HasOther(s: string) { exists k :: 0 <= k < |s| && !IsLower(s[k]) && !IsUpper(s[k]) && !IsDigit(s[k]) }

  function ToLower(s: string): (r: string)
    ensures |r| == |s|
  {
    seq(|s|, k requires 0 <= k < |s| => if IsUpper(s[k]) then s[k] - 'A' + 'a' else s[k])
  }

  predicate IsAt(s: string, part: string, k: nat) { k + |part| <= |s| && s[k..k + |part|] == part }

  predicate Includes(s: string, part: string) { exists k :: 0 <= k <= |s| && IsAt(s, part, k) }

  /** The part of an address before the first '@'. */
  function LocalPart(s: string): string {
    if s == "" || s[0] == '@' then "" else [s[0]] + LocalPart(s[1..])
  }

  predicate Reuses(value: string, part: Option<string>) {
    part.Some? && |LocalPart(part.value)| >= 4 && Includes(ToLower(value), ToLower(LocalPart(part.value)))
  }

  predicate Violates(value: string, policy: Policy, p: Problem) {
    match p
    case TooShort => |value| < policy.minLength
    case TooLong => |value| > 256
    case NoLower => policy.requireMixed && !HasLower(value)
    case NoUpper => policy.requireMixed && !HasUpper(value)
    case NoDigit => policy.requireMixed && !HasDigit(value)
    case TooCommon => policy.forbidCommon && ToLower(value) in COMMON
    case ReusesIdentity => exists k :: 0 <= k < |policy.identity| && Reuses(value, policy.identity[k])
  }

  function Rank(p: Problem): nat {
    match p
    case TooShort => 0
    case TooLong => 1
    case NoLower => 2
    case NoUpper => 3
    case NoDigit => 4
    case TooCommon => 5
    case ReusesIdentity => 6
  }

  const ALL := [TooShort, TooLong, NoLower, NoUpper, NoDigit, TooCommon, ReusesIdentity]

  /** The problems among the first `n` kinds. */
  function Problems(value: string, policy: Policy, n: nat): seq<Problem>
    requires n <= 7
  {
    if n == 0 then []
    else if Violates(value, policy, ALL[n - 1]) then Problems(value, policy, n - 1) + [ALL[n - 1]]
    else Problems(value, policy, n - 1)
  }

  /** Exactly the problems of a rank below `n`, each once and in order. */
  ghost predicate Lists(errors: seq<Problem>, value: string, policy: Policy, n: nat) {
    && (forall p :: p in errors <==> Rank(p) < n && Violates(value, policy, p))
    && (forall i, j :: 0 <= i < j < |errors| ==> Rank(errors[i]) < Rank(errors[j]))
  }

  lemma {:induction false} ProblemsAreListed(value: string, policy: Policy, n: nat)
    requires n <= 7
    ensures Lists(Problems(value, policy, n), value, policy, n)
    decreases n
  {
    if n > 0 {
      ProblemsAreListed(value, policy, n - 1);
      AddListed(Problems(value, policy, n - 1), value, policy, n - 1);
    }
  }

  lemma AddListed(before: seq<Problem>, value: string, policy: Policy, n: nat)
    requires n < 7 && Lists(before, value, policy, n)
    ensures Lists(if Violates(value, policy, ALL[n]) then before + [ALL[n]] else before, value, policy, n + 1)
  {
    var p := ALL[n];
    var after := if Violates(value, policy, p) then before + [p] else before;
    assert Rank(p) == n;
    forall q: Problem | Rank(q) == n ensures q == p {}
    forall k | 0 <= k < |before| ensures Rank(before[k]) < n { assert before[k] in before; }
    forall q ensures q in after <==> Rank(q) < n + 1 && Violates(value, policy, q) {
      assert q in before <==> Rank(q) < n && Violates(value, policy, q);
    }
  }

  function One(b: bool): nat { if b then 1 else 0 }

  /** The loop over what is known about the user, left at the first hit. */
  method CheckIdentity(value: string, policy: Policy) returns (reused: bool)
    ensures reused <==> Violates(value, policy, ReusesIdentity)
  {
    reused := false;
    for k := 0 to |policy.identity|
      invariant !reused && forall m :: 0 <= m < k ==> !Reuses(value, policy.identity[m])
    {
      var p := if policy.identity[k] == None then "" else LocalPart(policy.identity[k].value);
      if |p| >= 4 && Includes(ToLower(value), ToLower(p)) {
        assert Reuses(value, policy.identity[k]);
        reused := true;
        break;
      }
    }
  }

  method Score(value: string, policy: Policy) returns (score: nat)
    ensures score == One(|value| >= policy.minLength) + One(|value| >= 14) + One(HasLower(value) && HasUpper(value))
                     + One(HasDigit(value)) + One(HasOther(value))
  {
    score := 0;
    if |value| >= policy.minLength { score := score + 1; }
    if |value| >= 14 { score := score + 1; }
    if HasLower(value) && HasUpper(value) { score := score + 1; }
    if HasDigit(value) { score := score + 1; }
    if HasOther(value) { score := score + 1; }
    score := if score < 5 then score else 5;
  }

  method FindProblems(value: string, policy: Policy) returns (errors: seq<Problem>)
    ensures errors == Problems(value, policy, 7)
  {
    errors := [];
    if |value| < policy.minLength { errors := errors + [TooShort]; }
    assert errors == Problems(value, policy, 1);
    if |value| > 256 { errors := errors + [TooLong]; }
    assert errors == Problems(value, policy, 2);
    if policy.requireMixed {
      if !HasLower(value) { errors := errors + [NoLower]; }
      assert errors == Problems(value, policy, 3);
      if !HasUpper(value) { errors := errors + [NoUpper]; }
      assert errors == Problems(value, policy, 4);
      if !HasDigit(value) { errors := errors + [NoDigit]; }
    } else {
      assert errors == Problems(value, policy, 3);
      assert errors == Problems(value, policy, 4);
    }
    assert errors == Problems(value, policy, 5);
    if policy.forbidCommon && ToLower(value) in COMMON { errors := errors + [TooCommon]; }
    assert errors == Problems(value, policy, 6);
    var reused := CheckIdentity(value, policy);
    if reused { errors := errors + [ReusesIdentity]; }
  }

  method CheckPasswordPolicy(password: Option<string>, policy: Policy)
    returns (ok: bool, errors: seq<Problem>, score: nat)
    ensures var value := if password == None then "" else password.value;
      && Lists(errors, value, policy, 7)
      && (ok <==> forall p :: !Violates(value, policy, p))
      && score == One(|value| >= policy.minLength) + One(|value| >= 14) + One(HasLower(value) && HasUpper(value))
                  + One(HasDigit(value)) + One(HasOther(value))
  {
    var value := if password == None then "" else password.value;
    errors := FindProblems(value, policy);
    ProblemsAreListed(value, policy, 7);
    score := Score(value, policy);
    ok := errors == [];
    if errors != [] { assert errors[0] in errors; }
  }

  // ---- Temporary passwords pass ------------------------------------------------------------

  lemma Letters(c: char)
    ensures c in UPPER ==> IsUpper(c)
    ensures c in LOWER ==> IsLower(c)
  {
  }

  lemma Others(c: char)
    ensures c in DIGIT ==> IsDigit(c)
    ensures c in SYMBOL ==> !IsUpper(c) && !IsLower(c) && !IsDigit(c)
  {
  }

  lemma CommonAreShort(s: string)
    requires s in COMMON
    ensures |s| <= 11
  {
  }

  lemma StillIn(s: string, t: string, k: nat) returns (j: nat)
    requires k < |s| && multiset(s) == multiset(t)
    ensures j < |t| && t[j] == s[k]
  {
    assert s[k] in multiset(s);
    j :| 0 <= j < |t| && t[j] == s[k];
  }

  lemma EveryClassIsIn(drawn: string, p: string)
    requires |drawn| >= 4 && multiset(drawn) == multiset(p)
    requires drawn[0] in UPPER && drawn[1] in LOWER && drawn[2] in DIGIT && drawn[3] in SYMBOL
    ensures HasUpper(p) && HasLower(p) && HasDigit(p) && HasOther(p)
  {
    Letters(drawn[0]);
    Letters(drawn[1]);
    Others(drawn[2]);
    Others(drawn[3]);
    var a := StillIn(drawn, p, 0);
    var b := StillIn(drawn, p, 1);
    var c := StillIn(drawn, p, 2);
    var d := StillIn(drawn, p, 3);
  }

  lemma OnlyLengthIsWrong(p: string)
    requires HasUpper(p) && HasLower(p) && HasDigit(p) && |p| >= 12
    ensures forall q :: Violates(p, DEFAULT, q) <==> q == TooLong && |p| > 256
  {
    if ToLower(p) in COMMON { CommonAreShort(ToLower(p)); }
  }

  lemma ShuffledIsDrawn(drawn: string, rest: seq<Word>, p: string)
    requires drawn != "" && Shuffle(drawn, rest, |drawn| - 1).Some? && p == Shuffle(drawn, rest, |drawn| - 1).value.value
    ensures |p| == |drawn| && multiset(p) == multiset(drawn)
  {
    ShuffleKeeps(drawn, rest, |drawn| - 1);
  }

  /**
   Every temporary password that is generated has the wanted length, is an order of the characters
   drawn, with one of each class among them, and breaks the default policy only by being longer
   than 256 characters, which it does exactly when it was asked to be.
   */
  lemma TemporaryPasswordPasses(words: seq<Word>, length: int)
    requires Temporary(words, length).Some?
    ensures var p := Temporary(words, length).value.value;
      && |p| == (if length > 12 then length else 12)
      && multiset(p) == multiset(PickEach(words, Sets(Wanted(length))).value.value)
      && HasUpper(p) && HasLower(p) && HasDigit(p) && HasOther(p)
      && (forall q :: Violates(p, DEFAULT, q) <==> q == TooLong && length > 256)
  {
    var drawn := PickEach(words, Sets(Wanted(length))).value;
    var p := Temporary(words, length).value.value;
    DrawnFromEach(words, length, drawn.value);
    ShuffledIsDrawn(drawn.value, drawn.rest, p);
    EveryClassIsIn(drawn.value, p);
    OnlyLengthIsWrong(p);
  }

  lemma DrawnFromEach(words: seq<Word>, length: int, drawn: string)
    requires PickEach(words, Sets(Wanted(length))).Some? && drawn == PickEach(words, Sets(Wanted(length))).value.value
    ensures |drawn| == (if length > 12 then length else 12)
    ensures drawn[0] in UPPER && drawn[1] in LOWER && drawn[2] in DIGIT && drawn[3] in SYMBOL
  {
    var sets := Sets(Wanted(length));
    PickedFromEach(words, sets);
    assert sets[0] == UPPER && sets[1] == LOWER && sets[2] == DIGIT && sets[3] == SYMBOL;
  }

  predicate Ambiguous(c: char) { c == 'I' || c == 'O' || c == 'l' || c == '0' || c == '1' }

  lemma NoLetterIsAmbiguous(c: char)
    requires c in UPPER || c in LOWER
    ensures !Ambiguous(c)
  {
  }

  lemma NoneIsAmbiguous(c: char)
    requires c in UPPER || c in LOWER || c in DIGIT || c in SYMBOL
    ensures !Ambiguous(c)
  {
    if c in UPPER || c in LOWER { NoLetterIsAmbiguous(c); }
  }

  lemma SetsAreOfFour(n: nat, k: nat, c: char)
    requires 4 <= n && k < n && c in Sets(n)[k]
    ensures c in UPPER || c in LOWER || c in DIGIT || c in SYMBOL
  {
  }

  /** A temporary password is read aloud and typed by hand: nothing in it can be taken for another letter or digit. */
  lemma NothingIsMisread(words: seq<Word>, length: int)
    requires Temporary(words, length).Some?
    ensures forall k :: 0 <= k < |Temporary(words, length).value.value| ==> !Ambiguous(Temporary(words, length).value.value[k])
  {
    var sets, p := Sets(Wanted(length)), Temporary(words, length).value.value;
    var drawn := PickEach(words, sets).value;
    PickedFromEach(words, sets);
    ShuffledIsDrawn(drawn.value, drawn.rest, p);
    forall k | 0 <= k < |p| ensures !Ambiguous(p[k]) {
      var j := StillIn(p, drawn.value, k);
      SetsAreOfFour(Wanted(length), j, p[k]);
      NoneIsAmbiguous(p[k]);
    }
  }

  // ---- What the rules ask ------------------------------------------------------------------

  /** How much of an address stands before the first '@'. */
  predicate LocalLength(s: string, n: nat) {
    n <= |s| && (n < |s| ==> s[n] == '@') && forall k :: 0 <= k < n ==> s[k] != '@'
  }

  lemma {:induction false} LocalPartIs(s: string, n: nat)
    requires LocalLength(s, n)
    ensures LocalPart(s) == s[..n]
    decreases |s|
  {
    if s != "" && s[0] != '@' {
      assert forall k :: 0 <= k < n - 1 ==> s[1..][k] == s[k + 1];
      LocalPartIs(s[1..], n - 1);
      assert s[..n] == [s[0]] + s[1..][..n - 1];
    }
  }

  /** What each problem that is reported says of the password. */
  lemma ProblemsMean(errors: seq<Problem>, value: string, policy: Policy)
    requires Lists(errors, value, policy, 7)
    ensures TooShort in errors <==> |value| < policy.minLength
    ensures TooLong in errors <==> |value| > 256
    ensures NoLower in errors <==> policy.requireMixed && forall k :: 0 <= k < |value| ==> !('a' <= value[k] <= 'z')
    ensures NoUpper in errors <==> policy.requireMixed && forall k :: 0 <= k < |value| ==> !('A' <= value[k] <= 'Z')
    ensures NoDigit in errors <==> policy.requireMixed && forall k :: 0 <= k < |value| ==> !('0' <= value[k] <= '9')
    ensures TooCommon in errors <==> policy.forbidCommon && ToLower(value) in COMMON
  {
  }

  /** A password with four or more characters of what stands before the '@' of an address is refused, in any case. */
  lemma AddressesAreRefused(errors: seq<Problem>, value: string, policy: Policy, s: string, n: nat, at: nat)
    requires Lists(errors, value, policy, 7) && Some(s) in policy.identity
    requires LocalLength(s, n) && n >= 4 && at + n <= |value| && ToLower(value)[at..at + n] == ToLower(s[..n])
    ensures ReusesIdentity in errors
  {
    LocalPartIs(s, n);
    var k :| 0 <= k < |policy.identity| && policy.identity[k] == Some(s);
    assert IsAt(ToLower(value), ToLower(LocalPart(s)), at);
    assert Reuses(value, policy.identity[k]);
  }

  /** Fewer words are refused by a choice than it has values. */
  lemma FewAreRejected(limit: nat)
    requires 0 < limit
    ensures 0xFFFF_FFFF - limit < Bound(limit) <= 0xFFFF_FFFF
  {
    assert 0xFFFF_FFFF == 0xFFFF_FFFF / limit * limit + 0xFFFF_FFFF % limit;
  }
}
