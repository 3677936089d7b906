/** Rewriting `x IS ?` to `x <=> ?` between quotes: which of them the rule reaches, which it leaves, what it keeps. */
module NullSafety {
  import opened SqlLexer
  import opened ReservedWords
  import opened Literals
  import opened OutsideLiterals
  import opened Whitespace

  /** The characters a column is made of, as the rule sees them between quotes. */
  predicate IsNameChar(c: char) { IsWordStart(c) || IsDigit(c) || c == '.' }

  function RunLen(s: string): (n: nat)
    ensures n <= |s| && (n < |s| ==> !IsNameChar(s[n])) && forall k :: 0 <= k < n ==> IsNameChar(s[k])
  {
    if s == "" || !IsNameChar(s[0]) then 0 else 1 + RunLen(s[1..])
  }

  function SpaceLen(s: string): (n: nat)
    ensures n <= |s| && (n < |s| ==> !IsSpace(s[n])) && forall k :: 0 <= k < n ==> IsSpace(s[k])
  {
    if s == "" || !IsSpace(s[0]) then 0 else 1 + SpaceLen(s[1..])
  }

  /** How long " IS ?" is at the beginning of a text, in any case and with any space; 0 if it is not there. */
  function IsLen(s: string): (n: nat)
    ensures n <= |s| && (n > 0 ==> IsSpace(s[0]) && s[n - 1] == '?')
  {
    var a := SpaceLen(s);
    if a == 0 || |s| < a + 2 || Lower(s[a..a + 2]) != "is" then 0
    else
      var b := SpaceLen(s[a + 2..]);
      var n := a + 2 + b;
      if b == 0 || n == |s| || s[n] != '?' then 0 else n + 1
  }

  /** `column IS ?` becomes `column <=> ?`, wherever a name stands before it. */
  function NullSafe(s: string): string
    decreases |s|
  {
    if s == "" then ""
    else
      var n := RunLen(s);
      if n == 0 then [s[0]] + NullSafe(s[1..])
      else
        var k := IsLen(s[n..]);
        if k == 0 then s[..n] + NullSafe(s[n..]) else s[..n] + (" <=> ?" + NullSafe(s[n..][k..]))
  }

  /** White space and a placeholder. */
  predicate HoleAfter(z: string) { SpaceLen(z) > 0 && SpaceLen(z) < |z| && z[SpaceLen(z)] == '?' }

  /** White space, `NOT`, white space and a placeholder. */
  predicate NotHole(v: string) {
    var a := SpaceLen(v);
    a > 0 && a + 3 <= |v| && Lower(v[a..a + 3]) == "not" && HoleAfter(v[a + 3..])
  }

  /** `IS NOT ?` stands here, its first letter the beginning of a word. */
  predicate IsNotAt(s: string, i: nat) {
    i + 2 <= |s| && (i == 0 || s[i - 1] == '.' || !IsNameChar(s[i - 1]))
    && Lower(s[i..i + 2]) == "is" && NotHole(s[i + 2..])
  }

  /** What is refused rather than translated. */
  predicate AsksIsNot(chunk: string) { exists i :: 0 <= i < |chunk| && IsNotAt(chunk, i) }

  lemma CalmSlice(x: string, n: nat)
    requires Calm(x) && n <= |x|
    ensures Calm(x[..n]) && Calm(x[n..])
  {
    CalmRest(x, n);
    forall k | 0 <= k < n ensures x[..n][k] == x[k] {}
  }

  lemma NullSafeHead(s: string)
    ensures NullSafe(s) == "" <==> s == ""
    ensures s != "" ==> NullSafe(s)[0] == s[0]
  {
  }

  lemma {:induction false} NullSafeIsCalm(s: string)
    requires Calm(s)
    ensures Calm(NullSafe(s))
    decreases |s|
  {
    if s != "" {
      var n := RunLen(s);
      if n == 0 {
        CalmSlice(s, 1);
        NullSafeIsCalm(s[1..]);
        NullSafeHead(s[1..]);
        assert s[..1] == [s[0]];
        assert Meets([s[0]], NullSafe(s[1..])) by { if |s| > 1 { assert !StartsComment(s, 0); } }
        CalmJoin([s[0]], NullSafe(s[1..]));
      } else {
        CalmSlice(s, n);
        var k := IsLen(s[n..]);
        CalmSlice(s[n..], k);
        NullSafeIsCalm(s[n..][k..]);
        assert s[n..][0..] == s[n..];
        AfterName(s[..n], k == 0, NullSafe(s[n..][k..]));
      }
    }
  }

  lemma AfterName(name: string, bare: bool, rest: string)
    requires name != "" && IsNameChar(name[|name| - 1]) && Calm(name) && Calm(rest)
    ensures Calm(name + if bare then rest else " <=> ?" + rest)
  {
    if bare {
      CalmJoin(name, rest);
    } else {
      CalmJoin(" <=> ?", rest);
      CalmJoin(name, " <=> ?" + rest);
    }
  }

  /** So neither it nor leaving a statement as it is touches a literal or a quoted name. */
  lemma NullSafeIsQuiet()
    ensures Quiet(NullSafe) && Quiet(c => c)
  {
    forall c | Calm(c) ensures Calm(NullSafe(c)) && (c == "" <==> NullSafe(c) == "") {
      NullSafeIsCalm(c);
      NullSafeHead(c);
    }
  }

  /** The null-safe rewrite of a whole statement keeps every string and quoted name. */
  lemma NullSafeKeepsSpans(s: string)
    requires CommentFree(Lex(Sqlite, s)) && AllPortable(Lex(Sqlite, s))
    ensures Spans(Lex(Sqlite, MapText(NullSafe, s))) == Spans(Lex(Sqlite, s))
  {
    NullSafeIsQuiet();
    SpansSurvive(NullSafe, s);
  }

  /** A name followed by `IS ?`. */
  predicate AsksIs(s: string, i: nat) { 0 < i < |s| && IsNameChar(s[i - 1]) && IsLen(s[i..]) > 0 }

  /** A stretch is rewritten exactly when somewhere in it a name is followed by `IS ?`. */
  lemma {:induction false} RewrittenExactly(s: string)
    ensures NullSafe(s) == s <==> forall i: nat :: !AsksIs(s, i)
    decreases |s|
  {
    if s != "" {
      var n := RunLen(s);
      if n == 0 {
        RewrittenExactly(s[1..]);
        OneCharOn(s);
      } else {
        var k := IsLen(s[n..]);
        if k > 0 {
          assert AsksIs(s, n);
          LooksDifferent(s, n, k);
        } else {
          RewrittenExactly(s[n..]);
          OneRunOn(s, n);
        }
      }
    }
  }

  lemma OneCharOn(s: string)
    requires s != "" && RunLen(s) == 0
    ensures (forall i: nat :: !AsksIs(s, i)) <==> forall i: nat :: !AsksIs(s[1..], i)
    ensures NullSafe(s) == s <==> NullSafe(s[1..]) == s[1..]
  {
    forall i: nat | 0 < i < |s| - 1 ensures AsksIs(s[1..], i) <==> AsksIs(s, i + 1) { assert s[1..][i..] == s[i + 1..]; }
    forall i: nat | AsksIs(s, i) ensures i > 1 && AsksIs(s[1..], i - 1) { assert s[1..][i - 1..] == s[i..]; }
    assert s == [s[0]] + s[1..];
    assert NullSafe(s)[1..] == NullSafe(s[1..]);
  }

  lemma SpaceAt(s: string, i: nat)
    requires AsksIs(s, i)
    ensures !IsNameChar(s[i])
  {
    assert s[i..][0] == s[i];
  }

  lemma AskedLater(s: string, n: nat, i: nat)
    requires n == RunLen(s) && IsLen(s[n..]) == 0 && AsksIs(s, i)
    ensures i > n && AsksIs(s[n..], i - n)
  {
    SpaceAt(s, i);
    assert s[n..][i - n..] == s[i..];
  }

  lemma OneRunOn(s: string, n: nat)
    requires s != "" && n == RunLen(s) > 0 && IsLen(s[n..]) == 0
    ensures (forall i: nat :: !AsksIs(s, i)) <==> forall i: nat :: !AsksIs(s[n..], i)
    ensures NullSafe(s) == s <==> NullSafe(s[n..]) == s[n..]
  {
    forall i: nat | AsksIs(s[n..], i) ensures AsksIs(s, n + i) { assert s[n..][i..] == s[n + i..]; }
    forall i: nat | AsksIs(s, i) ensures i > n && AsksIs(s[n..], i - n) { AskedLater(s, n, i); }
    SamePrefix(s, n, NullSafe(s[n..]));
  }

  lemma SamePrefix(s: string, n: nat, r: string)
    requires n <= |s|
    ensures s[..n] + r == s <==> r == s[n..]
  {
    assert (s[..n] + r)[n..] == r;
    assert s[..n] + s[n..] == s;
  }

  lemma IsLenShape(s: string)
    requires IsLen(s) > 0
    ensures |s| > 1 && s[1] != '<'
  {
    var a := SpaceLen(s);
    if a == 1 { assert Lower(s[1..3])[0] == 'i'; }
  }

  lemma LooksDifferent(s: string, n: nat, k: nat)
    requires s != "" && n == RunLen(s) > 0 && k == IsLen(s[n..]) > 0
    ensures NullSafe(s) != s
  {
    IsLenShape(s[n..]);
    assert s[n + 1] == s[n..][1];
    OperatorIn(s, n, NullSafe(s[n..][k..]));
  }

  lemma OperatorIn(s: string, n: nat, r: string)
    requires n + 1 < |s| && s[n + 1] != '<'
    ensures s[..n] + (" <=> ?" + r) != s
  {
    assert (s[..n] + (" <=> ?" + r))[n + 1] == (" <=> ?" + r)[1];
  }

  // ---- One character at a time -------------------------------------------------------------

  /** The rule as a walk that knows whether the character before belongs to a name. */
  function Walk(named: bool, s: string): string
    decreases |s|
  {
    if s == "" then ""
    else if named && IsLen(s) > 0 then " <=> ?" + Walk(false, s[IsLen(s)..])
    else [s[0]] + Walk(IsNameChar(s[0]), s[1..])
  }

  lemma WalkHead(s: string)
    ensures Walk(false, s) == "" <==> s == ""
    ensures s != "" ==> Walk(false, s)[0] == s[0]
  {
  }

  lemma Unspaced(s: string)
    requires s == "" || !IsSpace(s[0])
    ensures SpaceLen(s) == 0 && IsLen(s) == 0
  {
  }

  lemma WalkOne(named: bool, s: string)
    requires s != "" && !(named && IsLen(s) > 0)
    ensures Walk(named, s) == [s[0]] + Walk(IsNameChar(s[0]), s[1..])
  {
  }

  lemma OneMore(s: string, n: nat, all: string, tail: string, w: string)
    requires 0 < n <= |s| && all == [s[0]] + tail && tail == s[1..][..n - 1] + w
    ensures all == s[..n] + w
  {
  }

  lemma DropOne(s: string, n: nat)
    requires 0 < n <= |s|
    ensures s[1..][n - 1..] == s[n..]
  {
  }

  lemma {:induction false} WalkName(named: bool, s: string, n: nat, w: string)
    requires 0 < n <= RunLen(s) && w == Walk(true, s[n..])
    ensures Walk(named, s) == s[..n] + w
    decreases n
  {
    NameFirst(named, s);
    if n == 1 {
      assert s[..1] == [s[0]];
    } else {
      DropOne(s, n);
      WalkName(true, s[1..], n - 1, w);
      OneMore(s, n, Walk(named, s), Walk(true, s[1..]), w);
    }
  }

  lemma NameFirst(named: bool, s: string)
    requires RunLen(s) > 0
    ensures Walk(named, s) == [s[0]] + Walk(true, s[1..]) && RunLen(s[1..]) == RunLen(s) - 1
  {
    Unspaced(s);
    WalkOne(named, s);
  }

  lemma {:induction false} NullSafeIsWalk(s: string)
    ensures NullSafe(s) == Walk(false, s)
    decreases |s|
  {
    if s != "" {
      var n := RunLen(s);
      if n == 0 {
        NullSafeIsWalk(s[1..]);
      } else {
        WalkName(false, s, n, Walk(true, s[n..]));
        var k := IsLen(s[n..]);
        NullSafeIsWalk(s[n..][k..]);
        assert s[n..][0..] == s[n..];
      }
    }
  }

  // ---- Which `IS ?` are left ---------------------------------------------------------------

  /** What stands before a place: a character of a name, white space, or anything else or nothing. */
  datatype Before = Name | Space | Other

  function ClassOf(c: char): Before { if IsNameChar(c) then Name else if IsSpace(c) then Space else Other }

  function At(before: Before, s: string, j: nat): Before
    requires j <= |s|
  {
    if j == 0 then before else ClassOf(s[j - 1])
  }

  /** An `IS ?` begins, with all the white space before it, in this text. */
  predicate HasIs(before: Before, s: string)
    decreases |s|
  {
    s != "" && ((!before.Space? && IsLen(s) > 0) || HasIs(ClassOf(s[0]), s[1..]))
  }

  /** One begins that no name stands directly before. */
  predicate HasNameless(before: Before, s: string)
    decreases |s|
  {
    s != "" && ((before.Other? && IsLen(s) > 0) || HasNameless(ClassOf(s[0]), s[1..]))
  }

  /** An `IS ?` that no name stands directly before. */
  predicate Stands(before: Before, s: string, j: nat)
    requires j <= |s|
  {
    At(before, s, j).Other? && IsLen(s[j..]) > 0
  }

  lemma StandsLater(before: Before, s: string, j: nat)
    requires j < |s|
    ensures Stands(ClassOf(s[0]), s[1..], j) == Stands(before, s, j + 1)
  {
    assert s[1..][j..] == s[j + 1..];
  }

  lemma NotHere(before: Before, s: string)
    requires s != "" && !Stands(before, s, 0)
    ensures HasNameless(before, s) == HasNameless(ClassOf(s[0]), s[1..])
  {
    assert s[0..] == s;
  }

  lemma {:induction false} SkipTo(before: Before, s: string, k: nat)
    requires k <= |s| && forall j :: 0 <= j < k ==> !Stands(before, s, j)
    ensures HasNameless(before, s) == HasNameless(At(before, s, k), s[k..])
    decreases k
  {
    if k == 0 {
      assert s[0..] == s;
    } else {
      assert !Stands(before, s, 0);
      NotHere(before, s);
      forall j | 0 <= j < k - 1 ensures !Stands(ClassOf(s[0]), s[1..], j) { StandsLater(before, s, j); }
      SkipTo(ClassOf(s[0]), s[1..], k - 1);
      DropOne(s, k);
    }
  }

  /** The parts of `IS ?`: white space, the word, white space, the placeholder. */
  lemma IsParts(s: string) returns (a: nat, b: nat)
    requires IsLen(s) > 0
    ensures a == SpaceLen(s) > 0 && a + 2 <= |s| && Lower(s[a..a + 2]) == "is"
    ensures b == SpaceLen(s[a + 2..]) > 0 && IsLen(s) == a + b + 3 <= |s| && s[a + 2 + b] == '?'
  {
    a := SpaceLen(s);
    b := SpaceLen(s[a + 2..]);
  }

  lemma IsLetters(s: string, a: nat)
    requires a + 2 <= |s| && Lower(s[a..a + 2]) == "is"
    ensures IsNameChar(s[a]) && IsNameChar(s[a + 1]) && !IsSpace(s[a]) && !IsSpace(s[a + 1])
  {
    assert Lower(s[a..a + 2])[0] == 'i' && Lower(s[a..a + 2])[1] == 's';
    assert s[a..a + 2][0] == s[a] && s[a..a + 2][1] == s[a + 1];
  }

  lemma NotSpaced(s: string, j: nat)
    requires j < |s| && !IsSpace(s[j])
    ensures IsLen(s[j..]) == 0
  {
    Unspaced(s[j..]);
  }

  lemma MatchIsPassed(s: string, j: nat)
    requires j < IsLen(s)
    ensures !Stands(Name, s, j)
  {
    var a, b := IsParts(s);
    IsLetters(s, a);
    if j == a || j == a + 1 || j == a + 2 + b {
      NotSpaced(s, j);
    } else if a + 2 < j {
      SecondSpace(s, a + 2, j - 1);
      NotAlone(Name, s, j);
    } else if j > 0 {
      NotAlone(Name, s, j);
    }
  }

  lemma NotAlone(before: Before, s: string, j: nat)
    requires 0 < j <= |s| && (IsSpace(s[j - 1]) || IsNameChar(s[j - 1]))
    ensures !Stands(before, s, j)
  {
  }

  lemma SecondSpace(s: string, k: nat, j: nat)
    requires k <= |s| && k <= j < k + SpaceLen(s[k..])
    ensures IsSpace(s[j])
  {
    assert s[k..][j - k] == s[j];
  }

  /** Within an `IS ?` after a name no other begins. */
  lemma MatchSkipped(s: string)
    requires IsLen(s) > 0
    ensures HasNameless(Name, s) == HasNameless(Other, s[IsLen(s)..])
  {
    var k := IsLen(s);
    forall j | 0 <= j < k ensures !Stands(Name, s, j) { MatchIsPassed(s, j); }
    assert At(Name, s, k) == Other;
    SkipTo(Name, s, k);
  }

  lemma HasIsStep(before: Before, c: char, w: string)
    requires before.Space? || IsLen([c] + w) == 0
    ensures HasIs(before, [c] + w) == HasIs(ClassOf(c), w)
  {
    assert ([c] + w)[1..] == w;
  }

  predicate Spaces(x: string) { forall k :: 0 <= k < |x| ==> IsSpace(x[k]) }

  predicate NoSpaceFirst(y: string) { y == "" || !IsSpace(y[0]) }

  lemma {:induction false} SpaceThen(x: string, y: string)
    requires Spaces(x) && NoSpaceFirst(y)
    ensures SpaceLen(x + y) == |x|
    decreases |x|
  {
    if x == "" {
      assert x + y == y;
    } else {
      assert (x + y)[1..] == x[1..] + y;
      SpaceThen(x[1..], y);
    }
  }

  lemma OperatorText(w: string)
    ensures " <=> ?" + w == [' '] + (['<'] + (['='] + (['>'] + ([' '] + (['?'] + w)))))
  {
  }

  /** One white space that is not followed by the word. */
  lemma SpaceAlone(c: char, w: string)
    requires !IsSpace(c) && LowerChar(c) != 'i'
    ensures IsLen([' '] + ([c] + w)) == 0
  {
    var s := [' '] + ([c] + w);
    SpaceThen([' '], [c] + w);
    if |s| > 2 {
      assert Lower(s[1..3])[0] == LowerChar(s[1]) && s[1] == c;
      assert Lower(s[1..3]) != "is" by { assert "is"[0] == 'i'; }
    }
  }

  /** The operator put in begins no `IS ?`. */
  lemma OperatorHead(w: string)
    ensures HasIs(Name, [' '] + (['<'] + (['='] + w))) == HasIs(Other, w)
  {
    var w4 := ['='] + w;
    SpaceAlone('<', w4);
    HasIsStep(Name, ' ', ['<'] + w4);
    Unspaced(['<'] + w4);
    HasIsStep(Space, '<', w4);
    Unspaced(w4);
    HasIsStep(Other, '=', w);
  }

  lemma OperatorTail(w: string)
    ensures HasIs(Other, ['>'] + ([' '] + (['?'] + w))) == HasIs(Other, w)
  {
    var w1 := ['?'] + w;
    Unspaced(['>'] + ([' '] + w1));
    HasIsStep(Other, '>', [' '] + w1);
    SpaceAlone('?', w);
    HasIsStep(Other, ' ', w1);
    HasIsStep(Space, '?', w);
  }

  /** The operator put in begins no `IS ?`. */
  lemma OperatorHasNone(w: string)
    ensures HasIs(Name, " <=> ?" + w) == HasIs(Other, w)
  {
    OperatorText(w);
    OperatorHead(['>'] + ([' '] + (['?'] + w)));
    OperatorTail(w);
  }

  // ---- What is not rewritten is still there ------------------------------------------------

  lemma SpaceParts(s: string, a: nat)
    requires s != "" && IsSpace(s[0]) && a == SpaceLen(s)
    ensures s == s[..a] + s[a..] && s[..a] != "" && Spaces(s[..a]) && NoSpaceFirst(s[a..])
  {
  }

  lemma {:induction false} WalkSpaces(s: string, a: nat)
    requires a <= SpaceLen(s)
    ensures Walk(false, s) == s[..a] + Walk(false, s[a..])
    decreases a
  {
    if a == 0 {
      assert s[..0] == "" && s[0..] == s;
    } else {
      WalkOne(false, s);
      WalkSpaces(s[1..], a - 1);
      DropOne(s, a);
      OneMore(s, a, Walk(false, s), Walk(false, s[1..]), Walk(false, s[a..]));
    }
  }

  /** After white space: the word, white space and a placeholder. */
  predicate IsRest(u: string) {
    |u| >= 2 && Lower(u[..2]) == "is"
    && SpaceLen(u[2..]) > 0 && 2 + SpaceLen(u[2..]) < |u| && u[2 + SpaceLen(u[2..])] == '?'
  }

  lemma IsLenSplit(s: string, x: string, u: string)
    requires s == x + u && x != "" && Spaces(x) && NoSpaceFirst(u)
    ensures IsLen(s) > 0 <==> IsRest(u)
  {
    SpaceThen(x, u);
    if |u| >= 2 {
      assert s[|x|..|x| + 2] == u[..2] && s[|x| + 2..] == u[2..];
      if 2 + SpaceLen(u[2..]) < |u| { assert s[|x| + 2 + SpaceLen(u[2..])] == u[2 + SpaceLen(u[2..])]; }
    }
  }

  lemma HoleAfterParts(z: string, x: string, y: string)
    requires z == x + y && Spaces(x) && NoSpaceFirst(y)
    ensures HoleAfter(z) <==> x != "" && y != "" && y[0] == '?'
  {
    SpaceThen(x, y);
  }

  lemma HoleAfterMatch(z: string)
    requires IsLen(z) > 0
    ensures !HoleAfter(z) && !HoleAfter(Walk(true, z))
  {
    var a, c := IsParts(z);
    IsLetters(z, a);
    OperatorThen(Walk(false, z[IsLen(z)..]));
  }

  lemma OperatorThen(w: string)
    ensures !HoleAfter(" <=> ?" + w)
  {
    SpaceThen(" ", "<=> ?" + w);
    assert " <=> ?" + w == " " + ("<=> ?" + w);
  }

  lemma WalkUnmatched(z: string)
    requires IsLen(z) == 0
    ensures Walk(true, z) == Walk(false, z)
  {
  }

  lemma HoleAfterBoth(x: string, u: string, w: string, z: string, all: string)
    requires Spaces(x) && NoSpaceFirst(u) && w == Walk(false, u) && z == x + u && all == x + w
    ensures HoleAfter(all) <==> HoleAfter(z)
  {
    WalkHead(u);
    HoleAfterParts(z, x, u);
    HoleAfterParts(all, x, w);
  }

  lemma HoleAfterWalk(z: string)
    ensures HoleAfter(Walk(true, z)) <==> HoleAfter(z)
  {
    var b := SpaceLen(z);
    if IsLen(z) > 0 {
      HoleAfterMatch(z);
    } else if b > 0 {
      WalkUnmatched(z);
      WalkSpaces(z, b);
      SpaceParts(z, b);
      HoleAfterBoth(z[..b], z[b..], Walk(false, z[b..]), z, Walk(true, z));
    } else if z != "" {
      Unspaced(Walk(true, z));
    }
  }

  lemma TwoWalked(u: string)
    requires |u| >= 2 && !(IsNameChar(u[0]) && IsLen(u[1..]) > 0)
    ensures Walk(false, u) == [u[0], u[1]] + Walk(IsNameChar(u[1]), u[2..])
  {
    var v := u[1..];
    WalkOne(false, u);
    WalkOne(IsNameChar(u[0]), v);
    assert v[1..] == u[2..] && v[0] == u[1];
    TwoChars(u[0], u[1], Walk(IsNameChar(u[1]), u[2..]));
  }

  lemma TwoChars(c: char, d: char, w: string)
    ensures [c] + ([d] + w) == [c, d] + w
  {
  }

  lemma TwoLetters(u: string, z: string)
    requires |u| >= 2 && z == u[2..]
    ensures IsRest(u) <==> LowerChar(u[0]) == 'i' && LowerChar(u[1]) == 's' && HoleAfter(z)
  {
    assert |Lower(u[..2])| == 2 && Lower(u[..2])[0] == LowerChar(u[0]) && Lower(u[..2])[1] == LowerChar(u[1]);
    if LowerChar(u[0]) == 'i' && LowerChar(u[1]) == 's' { assert Lower(u[..2]) == "is"; }
    if SpaceLen(z) < |z| { assert z[SpaceLen(z)] == u[2 + SpaceLen(z)]; }
  }

  lemma IsRestWalk(u: string)
    requires u == "" || !IsSpace(u[0])
    ensures IsRest(Walk(false, u)) <==> IsRest(u)
  {
    if |u| >= 2 {
      if IsNameChar(u[0]) && IsLen(u[1..]) > 0 {
        assert IsSpace(u[1]) && Walk(false, u)[1] == ' ';
        TwoLetters(u, u[2..]);
        TwoLetters(Walk(false, u), Walk(false, u)[2..]);
      } else {
        var w := Walk(IsNameChar(u[1]), u[2..]);
        TwoWalked(u);
        TwoLetters(u, u[2..]);
        assert ([u[0], u[1]] + w)[2..] == w;
        TwoLetters(Walk(false, u), w);
        if LowerChar(u[1]) == 's' { HoleAfterWalk(u[2..]); }
      }
    } else if |u| == 1 {
      assert u[1..] == "" && |Walk(false, u)| == 1;
    }
  }

  /** White space that is copied begins an `IS ?` afterwards exactly if it did before. */
  lemma IsLenWalk(s: string)
    requires s != "" && IsSpace(s[0])
    ensures IsLen(Walk(false, s)) > 0 <==> IsLen(s) > 0
  {
    var a := SpaceLen(s);
    WalkSpaces(s, a);
    SpaceParts(s, a);
    SplitWalk(s[..a], s[a..], Walk(false, s[a..]), s, Walk(false, s));
  }

  lemma SplitWalk(x: string, u: string, w: string, s: string, all: string)
    requires x != "" && Spaces(x) && NoSpaceFirst(u) && w == Walk(false, u)
    requires s == x + u && all == x + w
    ensures IsLen(all) > 0 <==> IsLen(s) > 0
  {
    WalkHead(u);
    IsLenSplit(s, x, u);
    IsLenSplit(all, x, w);
    IsRestWalk(u);
  }

  /** In a stretch, an `IS ?` is left exactly when one had no name before it. */
  lemma {:induction false} LeftIsNameless(before: Before, s: string)
    ensures HasIs(before, Walk(before.Name?, s)) == HasNameless(before, s)
    decreases |s|
  {
    if s == "" {
    } else if before.Name? && IsLen(s) > 0 {
      LeftIsNameless(Other, s[IsLen(s)..]);
      OperatorHasNone(Walk(false, s[IsLen(s)..]));
      MatchSkipped(s);
    } else {
      LeftIsNameless(ClassOf(s[0]), s[1..]);
      CopiedStep(before, s);
    }
  }

  lemma CopiedStep(before: Before, s: string)
    requires s != "" && !(before.Name? && IsLen(s) > 0)
    requires HasIs(ClassOf(s[0]), Walk(IsNameChar(s[0]), s[1..])) == HasNameless(ClassOf(s[0]), s[1..])
    ensures HasIs(before, Walk(before.Name?, s)) == HasNameless(before, s)
  {
    var w := Walk(IsNameChar(s[0]), s[1..]);
    assert Walk(before.Name?, s) == [s[0]] + w && ([s[0]] + w)[1..] == w;
    if IsSpace(s[0]) {
      assert Walk(false, s) == [s[0]] + w;
      IsLenWalk(s);
    } else {
      Unspaced(s);
      Unspaced([s[0]] + w);
    }
  }

  /** An `IS ?` begins at this place of a stretch, with all the white space before the word. */
  predicate Begins(s: string, i: nat) { i < |s| && IsLen(s[i..]) > 0 && (i == 0 || !IsSpace(s[i - 1])) }

  /** No name stands directly before it in the stretch. */
  predicate Nameless(s: string, i: nat) { Begins(s, i) && (i == 0 || !IsNameChar(s[i - 1])) }

  lemma {:induction false} HasIsAt(before: Before, s: string)
    ensures HasIs(before, s) <==> exists i: nat :: i < |s| && IsLen(s[i..]) > 0 && !At(before, s, i).Space?
    decreases |s|
  {
    if s != "" {
      HasIsAt(ClassOf(s[0]), s[1..]);
      assert s[0..] == s;
      forall i: nat | i < |s| - 1 ensures s[1..][i..] == s[i + 1..] && At(ClassOf(s[0]), s[1..], i) == At(before, s, i + 1) {}
      if exists i: nat :: i < |s| && IsLen(s[i..]) > 0 && !At(before, s, i).Space? {
        var i: nat :| i < |s| && IsLen(s[i..]) > 0 && !At(before, s, i).Space?;
        if i > 0 { assert s[1..][i - 1..] == s[i..]; }
      }
    }
  }

  lemma {:induction false} HasNamelessAt(before: Before, s: string)
    ensures HasNameless(before, s) <==> exists i: nat :: i < |s| && IsLen(s[i..]) > 0 && At(before, s, i).Other?
    decreases |s|
  {
    if s != "" {
      HasNamelessAt(ClassOf(s[0]), s[1..]);
      assert s[0..] == s;
      forall i: nat | i < |s| - 1 ensures s[1..][i..] == s[i + 1..] && At(ClassOf(s[0]), s[1..], i) == At(before, s, i + 1) {}
      if exists i: nat :: i < |s| && IsLen(s[i..]) > 0 && At(before, s, i).Other? {
        var i: nat :| i < |s| && IsLen(s[i..]) > 0 && At(before, s, i).Other?;
        if i > 0 { assert s[1..][i - 1..] == s[i..]; }
      }
    }
  }

  predicate AnyBegins(s: string) { exists i :: 0 <= i < |s| && Begins(s, i) }

  predicate AnyNameless(s: string) { exists i :: 0 <= i < |s| && Nameless(s, i) }

  lemma BeginsIsHas(s: string)
    ensures AnyBegins(s) <==> HasIs(Other, s)
  {
    HasIsAt(Other, s);
    forall i: nat | i < |s| ensures Begins(s, i) <==> IsLen(s[i..]) > 0 && !At(Other, s, i).Space? { PlaceAt(s, i); }
  }

  lemma PlaceAt(s: string, i: nat)
    requires i < |s|
    ensures At(Other, s, i).Space? <==> i > 0 && IsSpace(s[i - 1])
    ensures At(Other, s, i).Name? <==> i > 0 && IsNameChar(s[i - 1])
  {
  }

  lemma NamelessIsHas(s: string)
    ensures AnyNameless(s) <==> HasNameless(Other, s)
  {
    HasNamelessAt(Other, s);
    forall i: nat | i < |s| ensures Nameless(s, i) <==> IsLen(s[i..]) > 0 && At(Other, s, i).Other? { PlaceAt(s, i); }
  }

  lemma StretchIsLeft(s: string)
    ensures AnyBegins(NullSafe(s)) <==> AnyNameless(s)
  {
    NullSafeIsWalk(s);
    LeftIsNameless(Other, s);
    BeginsIsHas(NullSafe(s));
    NamelessIsHas(s);
  }

  // ---- Whole statements --------------------------------------------------------------------

  /** Somewhere outside the spans of a statement there is an `IS ?`. */
  predicate AsksSomewhere(s: string) { exists k :: 0 <= k < |Stretches(s)| && AnyBegins(Stretches(s)[k]) }

  /** Somewhere there is one that no name stands directly before in its stretch. */
  predicate NamelessSomewhere(s: string) { exists k :: 0 <= k < |Stretches(s)| && AnyNameless(Stretches(s)[k]) }

  predicate OpensNothing(s: string) { forall k :: 0 <= k < |s| ==> !Opens(s[k]) }

  lemma OpensNothingJoin(a: string, b: string)
    requires OpensNothing(a) && OpensNothing(b)
    ensures OpensNothing(a + b)
  {
  }

  lemma OpensNothingFrom(s: string, n: nat)
    requires OpensNothing(s) && n <= |s|
    ensures OpensNothing(s[n..])
  {
  }

  lemma {:induction false} WalkOpensNothing(named: bool, s: string)
    requires OpensNothing(s)
    ensures OpensNothing(Walk(named, s))
    decreases |s|
  {
    if s != "" {
      if named && IsLen(s) > 0 {
        var rest := s[IsLen(s)..];
        OpensNothingFrom(s, IsLen(s));
        WalkOpensNothing(false, rest);
        OpensNothingJoin(" <=> ?", Walk(false, rest));
      } else {
        OpensNothingFrom(s, 1);
        WalkOpensNothing(IsNameChar(s[0]), s[1..]);
        assert OpensNothing([s[0]]);
        OpensNothingJoin([s[0]], Walk(IsNameChar(s[0]), s[1..]));
      }
    }
  }

  lemma MapHeadIsKept(s: string)
    ensures MapText(NullSafe, s) == "" <==> s == ""
    ensures s != "" ==> MapText(NullSafe, s)[0] == s[0]
  {
    var n := ChunkLen(s);
    MapParts(NullSafe, s);
    NullSafeHead(s[..n]);
    if n == 0 && s != "" { assert s[..0] == "" && s[0..] == s; }
  }

  /** A span followed by rewritten text is still that span. */
  lemma SpanIsKept(r: string, m: string)
    requires r != "" && Opens(r[0])
    requires var rest := r[SpanLen(r)..]; (m == "" <==> rest == "") && (rest != "" ==> m[0] == rest[0])
    ensures var u := r[..SpanLen(r)] + m;
      u != "" && Opens(u[0]) && SpanLen(u) == SpanLen(r) && u[SpanLen(u)..] == m
  {
    var n := BodyLen(false, r[0], r[1..]);
    var t := Span(r[0], r[1..n + 1], n + 1 < |r|);
    assert First(Sqlite, r) == t && Text(t) == r[..SpanLen(r)] && Rest(Sqlite, r) == r[SpanLen(r)..];
    FirstIsSeparate(Sqlite, r);
    FirstOfText(Sqlite, t, m);
    SameSpan(Text(t) + m, t);
  }

  lemma SameSpan(u: string, t: Token)
    requires u != "" && Opens(u[0]) && First(Sqlite, u) == t
    ensures SpanLen(u) == |Text(t)|
  {
  }

  /** Texts that are each the other's rewritten. */
  predicate EachRewritten(ys: seq<string>, xs: seq<string>) {
    |ys| == |xs| && forall k :: 0 <= k < |xs| ==> ys[k] == NullSafe(xs[k])
  }

  lemma OneMoreRewritten(x: string, ys: seq<string>, xs: seq<string>)
    requires EachRewritten(ys, xs)
    ensures EachRewritten([NullSafe(x)] + ys, [x] + xs)
  {
  }

  lemma FirstStretch(s: string, n: nat, r: string)
    requires n == ChunkLen(s) < |s| && r == s[n..]
    ensures var rest := r[SpanLen(r)..];
      && Stretches(s) == [s[..n]] + Stretches(rest)
      && Stretches(MapText(NullSafe, s)) == [NullSafe(s[..n])] + Stretches(MapText(NullSafe, rest))
  {
    var rest := r[SpanLen(r)..];
    var c, m := NullSafe(s[..n]), MapText(NullSafe, rest);
    MapParts(NullSafe, s);
    NullSafeIsWalk(s[..n]);
    WalkOpensNothing(false, s[..n]);
    MapHeadIsKept(rest);
    SpanIsKept(r, m);
    StretchThenSpan(c, r[..SpanLen(r)] + m);
  }

  lemma OnlyStretch(s: string)
    requires ChunkLen(s) == |s|
    ensures Stretches(s) == [s] && Stretches(MapText(NullSafe, s)) == [NullSafe(s)]
  {
    NullSafeIsWalk(s);
    WalkOpensNothing(false, s);
    ChunkThen(NullSafe(s), "");
    assert NullSafe(s) + "" == NullSafe(s);
  }

  lemma {:induction false} StretchesRewritten(s: string)
    ensures EachRewritten(Stretches(MapText(NullSafe, s)), Stretches(s))
    decreases |s|
  {
    var n := ChunkLen(s);
    if n == |s| {
      OnlyStretch(s);
    } else {
      var r := s[n..];
      var rest := r[SpanLen(r)..];
      StretchesRewritten(rest);
      FirstStretch(s, n, r);
      OneMoreRewritten(s[..n], Stretches(MapText(NullSafe, rest)), Stretches(rest));
    }
  }

  /**
   Exactly when the rule does what it is for, for every statement: an `IS ?` outside quotes is left
   in the result if and only if one in the statement had no name directly before its white space in
   the same stretch -- a quote, a parenthesis, an operator, or nothing at all.
   */
  lemma IsLeftExactly(s: string)
    ensures AsksSomewhere(MapText(NullSafe, s)) <==> NamelessSomewhere(s)
  {
    StretchesRewritten(s);
    forall k | 0 <= k < |Stretches(s)|
      ensures AnyBegins(Stretches(MapText(NullSafe, s))[k]) <==> AnyNameless(Stretches(s)[k]) {
      StretchIsLeft(Stretches(s)[k]);
    }
  }

  // ---- Columns the rule does not know ------------------------------------------------------

  lemma AsksHere(y: string)
    ensures IsLen(" IS ?" + y) > 0
  {
    var u := "IS ?" + y;
    assert " IS ?" + y == " " + u && u[..2] == "IS" && u[2..] == " " + ("?" + y);
    SpaceThen(" ", "?" + y);
    assert Lower("IS") == "is";
    IsLenSplit(" IS ?" + y, " ", u);
  }

  lemma HeadStretch(a: string, b: string)
    requires OpensNothing(a)
    ensures Stretches(a + b)[0] == a + b[..ChunkLen(b)]
  {
    ChunkThen(a, b);
    DropBoth(a, b, ChunkLen(b));
    FirstOfStretches(a + b);
  }

  lemma FirstOfStretches(s: string)
    ensures Stretches(s)[0] == s[..ChunkLen(s)]
  {
  }

  lemma NamelessHere(s: string, a: string, y: string)
    requires s == a + (" IS ?" + y) && (a == "" || ClassOf(a[|a| - 1]).Other?)
    ensures AnyNameless(s)
  {
    AsksHere(y);
    assert s[|a|..] == " IS ?" + y;
    assert Nameless(s, |a|);
  }

  /** After anything but a name -- the parenthesis of `COALESCE(a, b) IS ?`, say -- `IS ?` is left. */
  lemma ExpressionsAreMissed(a: string, c: char, b: string)
    requires OpensNothing(a + [c]) && !IsNameChar(c) && !IsSpace(c)
    ensures AsksSomewhere(MapText(NullSafe, a + [c] + " IS ?" + b))
  {
    var x, s := a + [c] + " IS ?", a + [c] + " IS ?" + b;
    OpensNothingJoin(a + [c], " IS ?");
    HeadStretch(x, b);
    Associate(a + [c], " IS ?", b[..ChunkLen(b)]);
    NamelessHere(Stretches(s)[0], a + [c], b[..ChunkLen(b)]);
    IsLeftExactly(s);
  }

  lemma QuotedSpan(q: char, name: string, tail: string)
    requires Opens(q) && q !in name && tail != "" && tail[0] != q
    ensures var r := [q] + name + [q] + tail; SpanLen(r) == |name| + 2 && r[|name| + 2..] == tail
  {
    var r := [q] + name + [q] + tail;
    assert r[1..] == name + [q] + tail;
    BodyOfName(q, name, tail);
  }

  lemma SecondStretch(a: string, r: string, tail: string)
    requires OpensNothing(a) && r != "" && Opens(r[0]) && r[SpanLen(r)..] == tail
    ensures |Stretches(a + r)| > 1 && Stretches(a + r)[1] == Stretches(tail)[0]
  {
    StretchThenSpan(a, r);
  }

  lemma NamelessFirst(b: string)
    ensures AnyNameless(Stretches(" IS ?" + b)[0])
  {
    NamelessText(b[..ChunkLen(b)]);
    AskStretch(" IS ?", b);
  }

  lemma AskStretch(a: string, b: string)
    requires a == " IS ?"
    ensures Stretches(a + b)[0] == a + b[..ChunkLen(b)]
  {
    assert OpensNothing(a);
    HeadStretch(a, b);
  }

  lemma NamelessText(y: string)
    ensures AnyNameless(" IS ?" + y)
  {
    assert "" + (" IS ?" + y) == " IS ?" + y;
    NamelessHere(" IS ?" + y, "", y);
  }

  lemma {:induction false} BodyOfName(q: char, name: string, tail: string)
    requires q !in name && tail != "" && tail[0] != q
    ensures BodyLen(false, q, name + [q] + tail) == |name|
    decreases |name|
  {
    if name != "" {
      assert (name + [q] + tail)[1..] == name[1..] + [q] + tail;
      BodyOfName(q, name[1..], tail);
    }
  }

  /** So is one after a quoted column, or after a literal: no stretch holds what is quoted. */
  lemma QuotedColumnsAreMissed(a: string, q: char, name: string, b: string)
    requires OpensNothing(a) && Opens(q) && q !in name
    ensures AsksSomewhere(MapText(NullSafe, a + ([q] + name + [q] + (" IS ?" + b))))
  {
    var tail := " IS ?" + b;
    var r := [q] + name + [q] + tail;
    QuotedSpan(q, name, tail);
    SecondStretch(a, r, tail);
    NamelessFirst(b);
    IsLeftExactly(a + r);
  }

  lemma KeptFirst(words: set<string>, t: Token, r: string)
    requires WellFormed(Sqlite, t) && Follows(t, r) && !IsReserved(words, t)
    ensures QuoteText(words, Text(t) + r) == Text(t) + QuoteText(words, r)
  {
    FirstOfText(Sqlite, t, r);
    QuoteStep(words, Text(t) + r);
  }

  lemma IsText(b: string)
    ensures " IS ?" + b == [' '] + ("IS" + ([' '] + (['?'] + b)))
  {
  }

  lemma IsWord()
    ensures WellFormed(Sqlite, Word("IS")) && Lower("IS") == "is"
  {
    assert "IS"[1..] == "S" && "S"[1..] == "";
  }

  lemma IsKept(words: set<string>, b: string)
    requires "is" !in words
    ensures QuoteText(words, " IS ?" + b) == " IS ?" + QuoteText(words, b)
  {
    var m := ['?'] + b;
    IsWord();
    KeptFirst(words, Sym('?'), b);
    KeptFirst(words, Sym(' '), m);
    KeptFirst(words, Word("IS"), [' '] + m);
    KeptFirst(words, Sym(' '), "IS" + ([' '] + m));
    IsText(b);
    IsText(QuoteText(words, b));
  }

  /**
   The translator itself makes such a column: it backticks a reserved word first, and then does not
   see it as a name.
   */
  lemma ReservedColumnsAreMissed(words: set<string>, w: string, b: string)
    requires "is" !in words && Lower(w) in words && WellFormed(Sqlite, Word(w))
    ensures AsksSomewhere(MapText(NullSafe, QuoteText(words, w + (" IS ?" + b))))
  {
    var tail := " IS ?" + b;
    FirstOfText(Sqlite, Word(w), tail);
    QuoteStep(words, w + tail);
    IsKept(words, b);
    var q := ['`'] + w + ['`'];
    assert "" + (q + (" IS ?" + QuoteText(words, b))) == q + (" IS ?" + QuoteText(words, b));
    QuotedColumnsAreMissed("", '`', w, QuoteText(words, b));
  }
}
