/** Which statements the rule between quotes refuses for `IS NOT ?`, read off the tokens of the whole statement. */
module Refusals {
  import opened SqlLexer
  import opened ReservedWords
  import opened Whitespace
  import opened Literals
  import opened OutsideLiterals
  import opened NullSafety
  import opened TokenRewrites

  // ---- On tokens ---------------------------------------------------------------------------

  predicate SaysNot(words: set<string>, t: Token) { t.Word? && Lower(t.text) == "not" && Lower(t.text) !in words }

  /** The bare word `is`; to the rule a dollar sign ends a word, so what follows one may be the word too. */
  predicate SaysIs(words: set<string>, t: Token) {
    t.Word? && Lower(t.text) !in words && |t.text| >= 2 && Lower(t.text[|t.text| - 2..]) == "is"
    && (|t.text| > 2 ==> t.text[|t.text| - 3] == '$')
  }

  /** Blanks, the bare word `not`, blanks and a placeholder. */
  predicate NotPlaceholder(words: set<string>, ts: seq<Token>) {
    var b := Blanks(ts);
    0 < b < |ts| && SaysNot(words, ts[b]) && HoleToken(ts[b + 1..])
  }

  /** `IS NOT ?` stands at this token, and no digit directly before it. */
  predicate RefusedAt(words: set<string>, ts: seq<Token>, i: nat) {
    i < |ts| && SaysIs(words, ts[i]) && NotPlaceholder(words, ts[i + 1..])
    && (|ts[i].text| == 2 && i > 0 ==> !(ts[i - 1].Sym? && IsDigit(ts[i - 1].c)))
  }

  predicate RefusedSomewhere(words: set<string>, ts: seq<Token>) { exists i :: 0 <= i < |ts| && RefusedAt(words, ts, i) }

  // ---- On characters, from left to right ---------------------------------------------------

  predicate IsHere(s: string) { |s| >= 2 && Lower(s[..2]) == "is" && NotHole(s[2..]) }

  /** Whether `IS NOT ?` is found; `free` says that a word may begin at the first character. */
  predicate Finds(free: bool, s: string)
    decreases |s|
  {
    s != "" && ((free && IsHere(s)) || Finds(!IsSimpleChar(s[0]), s[1..]))
  }

  predicate FoundAt(free: bool, s: string, i: nat) {
    i < |s| && (if i == 0 then free else !IsSimpleChar(s[i - 1])) && IsHere(s[i..])
  }

  lemma FoundLater(free: bool, s: string, i: nat)
    requires i + 1 < |s|
    ensures FoundAt(!IsSimpleChar(s[0]), s[1..], i) <==> FoundAt(free, s, i + 1)
  {
    assert s[1..][i..] == s[i + 1..];
  }

  predicate AnyFound(free: bool, s: string) { exists i :: 0 <= i < |s| && FoundAt(free, s, i) }

  lemma AnyFoundStep(free: bool, s: string)
    requires s != ""
    ensures AnyFound(free, s) <==> FoundAt(free, s, 0) || AnyFound(!IsSimpleChar(s[0]), s[1..])
  {
    var after := !IsSimpleChar(s[0]);
    if AnyFound(after, s[1..]) {
      var i :| 0 <= i < |s[1..]| && FoundAt(after, s[1..], i);
      FoundLater(free, s, i);
      assert FoundAt(free, s, i + 1);
    }
    if AnyFound(free, s) {
      var i :| 0 <= i < |s| && FoundAt(free, s, i);
      if i > 0 {
        FoundLater(free, s, i - 1);
        assert FoundAt(after, s[1..], i - 1);
      }
    }
  }

  lemma {:induction false} FindsAt(free: bool, s: string)
    ensures Finds(free, s) <==> AnyFound(free, s)
    decreases |s|
  {
    if s != "" {
      FindsAt(!IsSimpleChar(s[0]), s[1..]);
      AnyFoundStep(free, s);
      assert s[0..] == s;
    }
  }

  lemma RuleAt(s: string, i: nat)
    requires i < |s|
    ensures IsNotAt(s, i) <==> FoundAt(true, s, i)
  {
    if i + 2 <= |s| { assert s[i..][..2] == s[i..i + 2] && s[i..][2..] == s[i + 2..]; }
  }

  lemma RuleFinds(s: string)
    ensures AsksIsNot(s) <==> Finds(true, s)
  {
    FindsAt(true, s);
    forall i | 0 <= i < |s| ensures IsNotAt(s, i) <==> FoundAt(true, s, i) { RuleAt(s, i); }
  }

  // ---- What follows the word, in a stretch and in tokens -----------------------------------

  predicate NotRest(u: string) { |u| >= 3 && Lower(u[..3]) == "not" && HoleAfter(u[3..]) }

  lemma NotHoleParts(x: string, u: string)
    requires Spaces(x) && NoSpaceFirst(u)
    ensures NotHole(x + u) <==> x != "" && NotRest(u)
  {
    SpaceThen(x, u);
    if |u| >= 3 {
      assert (x + u)[|x|..|x| + 3] == u[..3] && (x + u)[|x| + 3..] == u[3..];
    }
  }

  lemma HoleAfterSplit(z: string)
    ensures var b := SpaceLen(z); z == z[..b] + z[b..] && Spaces(z[..b]) && NoSpaceFirst(z[b..])
  {
  }

  lemma HoleAfterThen(z: string, r: string)
    requires r == "" || Opens(r[0])
    ensures HoleAfter(z + r) <==> HoleAfter(z)
  {
    var b := SpaceLen(z);
    HoleAfterSplit(z);
    HoleAfterParts(z, z[..b], z[b..]);
    Associate(z[..b], z[b..], r);
    OpenerIsNoSpace(z[b..], r);
    HoleAfterParts(z + r, z[..b], z[b..] + r);
  }

  lemma OpenerIsNoSpace(u: string, r: string)
    requires NoSpaceFirst(u) && (r == "" || Opens(r[0]))
    ensures NoSpaceFirst(u + r)
  {
  }

  lemma NotRestThen(u: string, r: string)
    requires r == "" || Opens(r[0])
    ensures NotRest(u + r) <==> NotRest(u)
  {
    if |u| >= 3 {
      assert (u + r)[..3] == u[..3] && (u + r)[3..] == u[3..] + r;
      HoleAfterThen(u[3..], r);
    } else if |u + r| >= 3 {
      assert Opens((u + r)[|u|]) && Lower((u + r)[..3])[|u|] == LowerChar((u + r)[|u|]);
      assert forall k :: 0 <= k < 3 ==> !Opens("not"[k]);
    }
  }

  /** A span does not matter to what stands before it in its stretch. */
  lemma NotHoleThen(c: string, r: string)
    requires r == "" || Opens(r[0])
    ensures NotHole(c + r) <==> NotHole(c)
  {
    var a := SpaceLen(c);
    HoleAfterSplit(c);
    NotHoleParts(c[..a], c[a..]);
    Associate(c[..a], c[a..], r);
    OpenerIsNoSpace(c[a..], r);
    NotHoleParts(c[..a], c[a..] + r);
    NotRestThen(c[a..], r);
  }

  lemma LowerThree(w: string)
    ensures Lower(w) == "not"
            <==> |w| == 3 && LowerChar(w[0]) == 'n' && LowerChar(w[1]) == 'o' && LowerChar(w[2]) == 't'
  {
    if |w| == 3 { assert Lower(w)[0] == LowerChar(w[0]) && Lower(w)[1] == LowerChar(w[1]) && Lower(w)[2] == LowerChar(w[2]); }
  }

  lemma LetterOfNot(c: char)
    requires LowerChar(c) == 'n' || LowerChar(c) == 'o' || LowerChar(c) == 't'
    ensures IsWordStart(c) && IsWordChar(c)
  {
  }

  lemma NotRestGives(u: string)
    requires NotRest(u)
    ensures |u| > 3 && IsWordStart(u[0]) && IsWordChar(u[1]) && IsWordChar(u[2]) && !IsWordChar(u[3])
  {
    LowerThree(u[..3]);
    LetterOfNot(u[0]);
    LetterOfNot(u[1]);
    LetterOfNot(u[2]);
    assert u[3..][0] == u[3];
  }

  lemma WordOfThree(w: string, r: string)
    requires WellFormed(Sqlite, Word(w)) && Follows(Word(w), r)
    requires |w + r| > 3 && IsWordChar((w + r)[1]) && IsWordChar((w + r)[2]) && !IsWordChar((w + r)[3])
    ensures |w| == 3
  {
  }

  lemma ThreeOf(w: string, r: string, u: string)
    requires |w| == 3 && u == w + r
    ensures |u| >= 3 && u[..3] == w && u[3..] == r
  {
  }

  lemma NotRestIsToken(us: seq<Token>, u: string)
    requires Separate(us) && u == Render(us)
    ensures NotRest(u) <==> us != [] && SaysNot({}, us[0]) && HoleToken(us[1..])
  {
    if us != [] && us[0].Word? {
      var w, r := us[0].text, Render(us[1..]);
      LowerThree(w);
      if NotRest(u) {
        NotRestGives(u);
        WordOfThree(w, r);
      }
      if |w| == 3 {
        ThreeOf(w, r, u);
        HoleIsToken(us[1..], r);
      }
    } else if NotRest(u) {
      NotRestGives(u);
      HeadChar(us);
    }
  }

  lemma NotHoleIsTokens(ts: seq<Token>, s: string)
    requires Separate(ts) && s == Render(ts)
    ensures NotHole(s) <==> NotPlaceholder({}, ts)
  {
    var b := Blanks(ts);
    BlanksAreSpaces(ts, s, b);
    HoleAfterSplit(s);
    NotHoleParts(s[..b], s[b..]);
    NotRestIsToken(ts[b..], s[b..]);
    if b < |ts| { assert ts[b..][0] == ts[b] && ts[b..][1..] == ts[b + 1..]; }
  }

  // ---- One token of a statement at a time --------------------------------------------------

  /** Whether the rule finds anything after the first stretch. */
  predicate LaterRefused(r: string)
    requires r == "" || Opens(r[0])
  {
    r != "" && AnyRefused(AsksIsNot, r[SpanLen(r)..])
  }

  /** Whether it finds anything; `free` says that a word may begin at the first character. */
  predicate FindsFrom(free: bool, s: string) { Finds(free, s[..ChunkLen(s)]) || LaterRefused(s[ChunkLen(s)..]) }

  lemma AnyOf(c: string, rest: seq<string>)
    ensures (exists x :: x in [c] + rest && AsksIsNot(x)) <==> AsksIsNot(c) || exists x :: x in rest && AsksIsNot(x)
  {
    assert ([c] + rest)[0] == c;
    forall x ensures x in [c] + rest <==> x == c || x in rest {}
  }

  lemma RefusedIsFound(s: string)
    ensures AnyRefused(AsksIsNot, s) <==> FindsFrom(true, s)
  {
    var n := ChunkLen(s);
    RuleFinds(s[..n]);
    if n == |s| {
      assert s[..n] == s;
      AnyOf(s, []);
      assert [s] + [] == [s];
    } else {
      AnyOf(s[..n], Stretches(s[n..][SpanLen(s[n..])..]));
    }
  }

  lemma FindsText(free: bool, free': bool, x: string, r: string, here: bool)
    requires OpensNothing(x) && (Finds(free, x + r[..ChunkLen(r)]) <==> here || Finds(free', r[..ChunkLen(r)]))
    ensures FindsFrom(free, x + r) <==> here || FindsFrom(free', r)
  {
    ChunkOfBoth(x + r, x, r);
  }

  lemma FindsSpan(free: bool, t: Token, r: string)
    requires t.Span? && Opens(t.quote) && WellFormed(Sqlite, t) && Follows(t, r)
    ensures FindsFrom(free, Text(t) + r) <==> FindsFrom(true, r)
  {
    var s := Text(t) + r;
    FirstOfText(Sqlite, t, r);
    SameSpan(s, t);
    assert s[..0] == "" && s[0..] == s && s[|Text(t)|..] == r;
    RefusedIsFound(r);
  }

  /** A text ends in `is`, at the beginning of a word. */
  predicate EndsInIs(free: bool, x: string) {
    |x| >= 2 && Lower(x[|x| - 2..]) == "is" && (if |x| == 2 then free else !IsSimpleChar(x[|x| - 3]))
  }

  lemma OneHere(x: string, c: string)
    requires |x| == 1 && (c == "" || !IsWordStart(c[0]) || !IsWordStart(x[0]))
    ensures !IsHere(x + c)
  {
    if IsHere(x + c) {
      LowerTwo((x + c)[..2]);
      LetterIsWord((x + c)[0]);
      LetterIsWord((x + c)[1]);
      assert false;
    }
  }

  lemma TwoHere(x: string, c: string)
    requires |x| == 2
    ensures IsHere(x + c) <==> Lower(x) == "is" && NotHole(c)
  {
    assert (x + c)[..2] == x && (x + c)[2..] == c;
  }

  lemma MoreHere(x: string, c: string)
    requires |x| > 2 && !IsSpace(x[2])
    ensures !IsHere(x + c)
  {
    assert (x + c)[2..][0] == x[2];
  }

  lemma FindsNext(free: bool, x: string, c: string)
    requires x != ""
    ensures Finds(free, x + c) <==> (free && IsHere(x + c)) || Finds(!IsSimpleChar(x[0]), x[1..] + c)
  {
    assert (x + c)[0] == x[0] && (x + c)[1..] == x[1..] + c;
  }

  lemma DenseNext(free: bool, x: string, c: string)
    requires |x| > 1 && (|x| > 2 ==> !IsSpace(x[2]))
    ensures Finds(free, x + c) <==> (free && |x| == 2 && Lower(x) == "is" && NotHole(c)) || Finds(!IsSimpleChar(x[0]), x[1..] + c)
  {
    FindsNext(free, x, c);
    if |x| == 2 { TwoHere(x, c); } else { MoreHere(x, c); }
  }

  lemma DenseLast(free: bool, x: string, c: string)
    requires |x| == 1 && (c == "" || !IsWordStart(c[0]) || !IsWordStart(x[0]))
    ensures Finds(free, x + c) <==> Finds(!IsSimpleChar(x[0]), c)
  {
    FindsNext(free, x, c);
    OneHere(x, c);
    assert x[1..] + c == c;
  }

  lemma {:induction false} FindsDense(free: bool, x: string, c: string)
    requires x != "" && (forall k :: 2 <= k < |x| ==> !IsSpace(x[k]))
    requires c == "" || !IsWordStart(c[0]) || !IsWordStart(x[|x| - 1])
    ensures Finds(free, x + c) <==> (EndsInIs(free, x) && NotHole(c)) || Finds(!IsSimpleChar(x[|x| - 1]), c)
    decreases |x|
  {
    if |x| == 1 {
      DenseLast(free, x, c);
    } else {
      DenseNext(free, x, c);
      FindsDense(!IsSimpleChar(x[0]), x[1..], c);
      EndsLater(free, x);
    }
  }

  lemma EndsLater(free: bool, x: string)
    requires |x| > 1
    ensures |x| > 2 ==> (EndsInIs(free, x) <==> EndsInIs(!IsSimpleChar(x[0]), x[1..]))
    ensures |x| == 2 ==> !EndsInIs(!IsSimpleChar(x[0]), x[1..]) && (EndsInIs(free, x) <==> free && Lower(x) == "is")
  {
    if |x| > 2 { assert x[1..][|x| - 3..] == x[|x| - 2..]; } else { assert x[0..] == x; }
  }

  /** What the rule makes of one token, with what follows it. */
  predicate HereToken(free: bool, t: Token, r: seq<Token>) {
    SaysIs({}, t) && (|t.text| == 2 ==> free) && NotPlaceholder({}, r)
  }

  predicate FreeAfter(t: Token) { Text(t) == "" || !IsSimpleChar(Text(t)[|Text(t)| - 1]) }

  lemma WordEndsInIs(free: bool, t: Token)
    requires WellFormed(Sqlite, t) && PlainlyQuoted(t) && !(t.Span? && Opens(t.quote))
    ensures Text(t) != "" && (EndsInIs(free, Text(t)) <==> SaysIs({}, t) && (|t.text| == 2 ==> free))
  {
    var x := Text(t);
    if t.Word? {
      if |x| > 2 { assert IsWordChar(x[|x| - 3]); }
    } else if t.Span? {
      LowerTwo(x[|x| - 2..]);
      assert x[|x| - 2..][1] == t.quote;
    }
  }

  lemma PlainTokenText(t: Token, r: string)
    requires WellFormed(Sqlite, t) && PlainlyQuoted(t) && Follows(t, r) && !(t.Span? && Opens(t.quote))
    ensures var x := Text(t);
      && x != "" && OpensNothing(x) && (forall k :: 2 <= k < |x| ==> !IsSpace(x[k]))
      && (r == "" || !IsWordStart(r[0]) || !IsWordStart(x[|x| - 1]))
  {
    if t.Span? {
      QuotedOpensNothing(t.body);
      DenseToken(t);
    } else {
      PlainOpensNothing(t);
      if !IsBlank(t) { DenseToken(t); }
    }
  }

  lemma PlainTokenFinds(free: bool, t: Token, rs: seq<Token>, r: string)
    requires WellFormed(Sqlite, t) && PlainlyQuoted(t) && !(t.Span? && Opens(t.quote))
    requires Separate(rs) && r == Render(rs) && Follows(t, r)
    ensures FindsFrom(free, Text(t) + r) <==> HereToken(free, t, rs) || FindsFrom(FreeAfter(t), r)
  {
    var n := ChunkLen(r);
    var c := r[..n];
    assert r == c + r[n..];
    PlainTokenText(t, r);
    WordEndsInIs(free, t);
    NotHoleThen(c, r[n..]);
    NotHoleIsTokens(rs, r);
    FindsDense(free, Text(t), c);
    FindsText(free, FreeAfter(t), Text(t), r, HereToken(free, t, rs));
  }

  lemma SpanIsFree(t: Token, r: string)
    requires t.Span? && Opens(t.quote) && Follows(t, r)
    ensures FindsFrom(FreeAfter(t), r) <==> FindsFrom(true, r)
  {
    if r == "" {
      assert r[..0] == "" && r[0..] == "";
    } else {
      assert t.closed && Text(t)[|Text(t)| - 1] == t.quote && !IsSimpleChar(t.quote);
    }
  }

  lemma TokenFinds(free: bool, ts: seq<Token>)
    requires Separate(ts) && ts != [] && PlainlyQuoted(ts[0])
    ensures FindsFrom(free, Render(ts)) <==> HereToken(free, ts[0], ts[1..]) || FindsFrom(FreeAfter(ts[0]), Render(ts[1..]))
  {
    var t, r := ts[0], Render(ts[1..]);
    if t.Span? && Opens(t.quote) {
      FindsSpan(free, t, r);
      SpanIsFree(t, r);
    } else {
      PlainTokenFinds(free, t, ts[1..], r);
    }
  }

  predicate HereAt(free: bool, ts: seq<Token>, i: nat) {
    i < |ts| && HereToken(if i == 0 then free else FreeAfter(ts[i - 1]), ts[i], ts[i + 1..])
  }

  predicate AnyHere(free: bool, ts: seq<Token>) { exists i :: 0 <= i < |ts| && HereAt(free, ts, i) }

  lemma HereLater(free: bool, ts: seq<Token>, i: nat)
    requires i + 1 < |ts|
    ensures HereAt(FreeAfter(ts[0]), ts[1..], i) <==> HereAt(free, ts, i + 1)
  {
    DropTo(ts, 1, i + 1, i + 2);
    assert ts[1..][i] == ts[i + 1];
    if i > 0 { assert ts[1..][i - 1] == ts[i]; }
  }

  lemma AnyHereGrows(free: bool, ts: seq<Token>)
    requires ts != [] && AnyHere(FreeAfter(ts[0]), ts[1..])
    ensures AnyHere(free, ts)
  {
    var i :| 0 <= i < |ts[1..]| && HereAt(FreeAfter(ts[0]), ts[1..], i);
    HereLater(free, ts, i);
    assert HereAt(free, ts, i + 1);
  }

  lemma AnyHereShrinks(free: bool, ts: seq<Token>, i: nat)
    requires 0 < i < |ts| && HereAt(free, ts, i)
    ensures AnyHere(FreeAfter(ts[0]), ts[1..])
  {
    HereLater(free, ts, i - 1);
    assert HereAt(FreeAfter(ts[0]), ts[1..], i - 1);
  }

  lemma AnyHereStep(free: bool, ts: seq<Token>)
    requires ts != []
    ensures AnyHere(free, ts) <==> HereAt(free, ts, 0) || AnyHere(FreeAfter(ts[0]), ts[1..])
  {
    if AnyHere(FreeAfter(ts[0]), ts[1..]) { AnyHereGrows(free, ts); }
    if AnyHere(free, ts) {
      var i :| 0 <= i < |ts| && HereAt(free, ts, i);
      if i > 0 { AnyHereShrinks(free, ts, i); }
    }
  }

  lemma {:induction false} TokensFind(free: bool, ts: seq<Token>)
    requires Separate(ts) && AllPlainlyQuoted(ts)
    ensures FindsFrom(free, Render(ts)) <==> AnyHere(free, ts)
    decreases |ts|
  {
    if ts == [] {
      assert ""[..0] == "" && ""[0..] == "";
    } else {
      TailQuoted(ts, 1);
      TokenFinds(free, ts);
      TokensFind(FreeAfter(ts[0]), ts[1..]);
      AnyHereStep(free, ts);
    }
  }

  lemma {:induction false} SeparateAt(ts: seq<Token>, i: nat)
    requires Separate(ts) && i < |ts|
    ensures Separate(ts[i..]) && WellFormed(Sqlite, ts[i]) && Follows(ts[i], Render(ts[i + 1..]))
    decreases i
  {
    if i == 0 {
      assert ts[0..] == ts;
    } else {
      SeparateAt(ts[1..], i - 1);
      assert ts[1..][i - 1..] == ts[i..] && ts[1..][i..] == ts[i + 1..];
    }
  }

  /** Before a word, only a digit keeps it from beginning one. */
  lemma FreeBeforeWord(ts: seq<Token>, i: nat)
    requires Separate(ts) && 0 < i < |ts| && ts[i].Word?
    ensures FreeAfter(ts[i - 1]) <==> !(ts[i - 1].Sym? && IsDigit(ts[i - 1].c))
  {
    SeparateAt(ts, i - 1);
    SeparateAt(ts, i);
    HeadChar(ts[i..]);
    assert ts[i..][0] == ts[i];
    FreeBefore(ts[i - 1], Render(ts[i..]));
  }

  lemma FreeBefore(t: Token, r: string)
    requires WellFormed(Sqlite, t) && Follows(t, r) && r != "" && IsWordStart(r[0])
    ensures FreeAfter(t) <==> !(t.Sym? && IsDigit(t.c))
  {
    if t.Span? { assert t.closed && Text(t)[|Text(t)| - 1] == t.quote; }
  }

  lemma HereIsRefused(ts: seq<Token>, i: nat)
    requires Separate(ts) && i < |ts|
    ensures HereAt(true, ts, i) <==> RefusedAt({}, ts, i)
  {
    if i > 0 && ts[i].Word? { FreeBeforeWord(ts, i); }
  }

  /**
   The rule throws about a statement exactly when its tokens have `IS NOT ?`: the bare word `is`,
   blanks, the bare word `not`, blanks and a placeholder, one after the other.
   */
  lemma RefusedOnTokens(s: string)
    requires CommentFree(Lex(Sqlite, s)) && AllPlainlyQuoted(Lex(Sqlite, s))
    ensures AnyRefused(AsksIsNot, s) <==> RefusedSomewhere({}, Lex(Sqlite, s))
  {
    var ts := Lex(Sqlite, s);
    LexIsSeparate(s);
    RenderLex(Sqlite, s);
    RefusedIsFound(s);
    TokensFind(true, ts);
    forall i | 0 <= i < |ts| ensures HereAt(true, ts, i) <==> RefusedAt({}, ts, i) { HereIsRefused(ts, i); }
  }

  // ---- Reserved words are backticked before ------------------------------------------------

  lemma {:induction false} BlanksOfQuoted(words: set<string>, ts: seq<Token>)
    ensures Blanks(QuoteTokens(words, ts)) == Blanks(ts) && (HoleToken(QuoteTokens(words, ts)) <==> HoleToken(ts))
  {
    if ts != [] { BlanksOfQuoted(words, ts[1..]); }
  }

  lemma QuotedTail(words: set<string>, ts: seq<Token>, k: nat)
    requires k <= |ts|
    ensures QuoteTokens(words, ts)[k..] == QuoteTokens(words, ts[k..])
  {
  }

  lemma PlaceholderOfQuoted(words: set<string>, ts: seq<Token>)
    ensures NotPlaceholder({}, QuoteTokens(words, ts)) <==> NotPlaceholder(words, ts)
  {
    var b := Blanks(ts);
    BlanksOfQuoted(words, ts);
    if b < |ts| {
      QuotedTail(words, ts, b + 1);
      BlanksOfQuoted(words, ts[b + 1..]);
    }
  }

  lemma IsOfQuoted(words: set<string>, t: Token)
    ensures SaysIs({}, QuoteToken(words, t)) <==> SaysIs(words, t)
    ensures SaysIs(words, t) ==> QuoteToken(words, t) == t
  {
  }

  lemma DigitOfQuoted(words: set<string>, t: Token)
    ensures QuoteToken(words, t).Sym? <==> t.Sym?
    ensures t.Sym? ==> QuoteToken(words, t) == t
  {
  }

  lemma RefusedOfQuoted(words: set<string>, ts: seq<Token>, i: nat)
    requires i < |ts|
    ensures RefusedAt({}, QuoteTokens(words, ts), i) <==> RefusedAt(words, ts, i)
  {
    IsOfQuoted(words, ts[i]);
    if i > 0 { DigitOfQuoted(words, ts[i - 1]); }
    if SaysIs(words, ts[i]) {
      QuotedTail(words, ts, i + 1);
      PlaceholderOfQuoted(words, ts[i + 1..]);
    }
  }

  lemma RefusedBeforeQuoting(words: set<string>, ts: seq<Token>)
    ensures RefusedSomewhere({}, QuoteTokens(words, ts)) <==> RefusedSomewhere(words, ts)
  {
    forall i | 0 <= i < |ts| ensures RefusedAt({}, QuoteTokens(words, ts), i) <==> RefusedAt(words, ts, i) {
      RefusedOfQuoted(words, ts, i);
    }
  }
}
