/** What the two rules between quotes make of a statement, token by token: names asked `IS ?`, names in double quotes. */
module TokenRewrites {
  import opened SqlLexer
  import opened ReservedWords
  import opened Whitespace
  import opened Literals
  import opened OutsideLiterals
  import opened NullSafety

  // ---- Tokens that are read back as they are written ---------------------------------------

  predicate Separate(ts: seq<Token>) {
    ts == [] || (WellFormed(Sqlite, ts[0]) && Follows(ts[0], Render(ts[1..])) && Separate(ts[1..]))
  }

  lemma {:induction false} LexRender(ts: seq<Token>)
    requires Separate(ts)
    ensures Lex(Sqlite, Render(ts)) == ts
  {
    if ts != [] {
      FirstOfText(Sqlite, ts[0], Render(ts[1..]));
      LexRender(ts[1..]);
      LexStep(Sqlite, Render(ts));
    }
  }

  lemma {:induction false} LexIsSeparate(s: string)
    requires CommentFree(Lex(Sqlite, s))
    ensures Separate(Lex(Sqlite, s))
    decreases |s|
  {
    if s != "" {
      LexStep(Sqlite, s);
      var ts := Lex(Sqlite, s);
      assert NotRemark(ts[0]);
      forall i | 0 <= i < |ts| - 1 ensures ts[1..][i] == ts[i + 1] {}
      LexIsSeparate(Rest(Sqlite, s));
      FirstIsSeparate(Sqlite, s);
      RenderLex(Sqlite, Rest(Sqlite, s));
    }
  }

  lemma RenderMore(t: Token, ts: seq<Token>)
    ensures Render([t] + ts) == Text(t) + Render(ts)
  {
    assert ([t] + ts)[1..] == ts;
  }

  // ---- `IS ?` as tokens --------------------------------------------------------------------

  predicate IsBlank(t: Token) { t.Sym? && IsSpace(t.c) }

  function Blanks(ts: seq<Token>): (n: nat)
    ensures n <= |ts| && (n < |ts| ==> !IsBlank(ts[n])) && forall k :: 0 <= k < n ==> IsBlank(ts[k])
  {
    if ts == [] || !IsBlank(ts[0]) then 0 else 1 + Blanks(ts[1..])
  }

  /** What has to follow the word, as tokens. */
  predicate HoleToken(ts: seq<Token>) { Blanks(ts) > 0 && Blanks(ts) < |ts| && ts[Blanks(ts)] == Sym('?') }

  /** White space, the word, white space and a placeholder: how many tokens, or 0. */
  function AskLen(ts: seq<Token>): (n: nat)
    ensures n <= |ts|
  {
    var a := Blanks(ts);
    if a == 0 || a == |ts| || !ts[a].Word? || Lower(ts[a].text) != "is" || !HoleToken(ts[a + 1..]) then 0
    else a + 2 + Blanks(ts[a + 1..])
  }

  lemma HeadChar(ts: seq<Token>)
    requires Separate(ts)
    ensures Render(ts) == "" <==> ts == []
    ensures ts != [] ==> Text(ts[0]) != "" && Render(ts)[0] == Text(ts[0])[0] && (IsSpace(Render(ts)[0]) <==> IsBlank(ts[0]))
  {
  }

  /** The leading white space is the same counted in characters or in tokens. */
  lemma {:induction false} BlanksAreSpaces(ts: seq<Token>, s: string, a: nat)
    requires Separate(ts) && s == Render(ts) && a == Blanks(ts)
    ensures SpaceLen(s) == a && s[a..] == Render(ts[a..]) && Separate(ts[a..])
  {
    HeadChar(ts);
    if a == 0 {
      assert ts[0..] == ts && s[0..] == s;
    } else {
      BlanksAreSpaces(ts[1..], s[1..], a - 1);
      assert ts[1..][a - 1..] == ts[a..] && s[1..][a - 1..] == s[a..];
    }
  }

  lemma FirstIsHole(ts: seq<Token>)
    requires Separate(ts) && ts != []
    ensures Render(ts)[0] == '?' <==> ts[0] == Sym('?')
  {
    HeadChar(ts);
  }

  lemma HoleIsToken(ts: seq<Token>, z: string)
    requires Separate(ts) && z == Render(ts)
    ensures HoleAfter(z) <==> HoleToken(ts)
  {
    var b := Blanks(ts);
    BlanksAreSpaces(ts, z, b);
    HeadChar(ts[b..]);
    if b < |ts| {
      FirstIsHole(ts[b..]);
      assert z[b..][0] == z[b];
    }
  }

  lemma WordStarts(w: string, r: string)
    requires WellFormed(Sqlite, Word(w)) && Follows(Word(w), r)
    requires |w + r| > 2 && IsWordChar((w + r)[1]) && !IsWordChar((w + r)[2])
    ensures |w| == 2
  {
  }

  lemma LetterIsWord(c: char)
    requires LowerChar(c) == 'i' || LowerChar(c) == 's'
    ensures IsWordStart(c) && IsWordChar(c)
  {
  }

  lemma IsRestGives(u: string)
    requires IsRest(u)
    ensures |u| > 2 && LowerChar(u[0]) == 'i' && LowerChar(u[1]) == 's' && HoleAfter(u[2..])
    ensures IsWordStart(u[0]) && IsWordChar(u[1]) && !IsWordChar(u[2])
  {
    TwoLetters(u, u[2..]);
    LetterIsWord(u[0]);
    LetterIsWord(u[1]);
    assert u[2..][0] == u[2];
  }

  lemma TwoOf(w: string, r: string, u: string)
    requires |w| == 2 && u == w + r
    ensures |u| >= 2 && u[0] == w[0] && u[1] == w[1] && u[2..] == r
  {
  }

  lemma LowerTwo(w: string)
    ensures Lower(w) == "is" <==> |w| == 2 && LowerChar(w[0]) == 'i' && LowerChar(w[1]) == 's'
  {
    if |w| == 2 { assert Lower(w)[0] == LowerChar(w[0]) && Lower(w)[1] == LowerChar(w[1]); }
  }

  lemma IsRestIsToken(us: seq<Token>, u: string)
    requires Separate(us) && u == Render(us)
    ensures IsRest(u) <==> us != [] && us[0].Word? && Lower(us[0].text) == "is" && HoleToken(us[1..])
  {
    if us != [] && us[0].Word? {
      var w, r := us[0].text, Render(us[1..]);
      LowerTwo(w);
      if IsRest(u) {
        IsRestGives(u);
        WordStarts(w, r);
      }
      if |w| == 2 {
        TwoOf(w, r, u);
        TwoLetters(u, r);
        HoleIsToken(us[1..], r);
      }
    } else if IsRest(u) {
      IsRestGives(u);
      HeadChar(us);
    }
  }

  /** The rule's text is there exactly when the tokens are. */
  lemma AsksAreTokens(ts: seq<Token>, s: string)
    requires Separate(ts) && s == Render(ts)
    ensures IsLen(s) > 0 <==> AskLen(ts) > 0
  {
    var a := Blanks(ts);
    BlanksAreSpaces(ts, s, a);
    if a > 0 {
      var us := ts[a..];
      SpaceParts(s, a);
      IsLenSplit(s, s[..a], s[a..]);
      IsRestIsToken(us, s[a..]);
      if us != [] { assert us[0] == ts[a] && us[1..] == ts[a + 1..]; }
    }
  }

  lemma SpaceLenIs(s: string, a: nat)
    requires a <= |s| && (forall k :: 0 <= k < a ==> IsSpace(s[k])) && (a == |s| || !IsSpace(s[a]))
    ensures SpaceLen(s) == a
  {
  }

  lemma AskedChars(s: string, j: nat)
    requires j < IsLen(s)
    ensures !Opens(s[j])
  {
    var a, b := IsParts(s);
    if j < a {
      assert IsSpace(s[j]);
      SpaceOpensNothing(s[j]);
    } else if j < a + 2 {
      IsLetters(s, a);
      assert j == a || j == a + 1;
    } else if j < a + 2 + b {
      SecondSpace(s, a + 2, j);
      SpaceOpensNothing(s[j]);
    }
  }

  lemma SpaceOpensNothing(c: char)
    requires IsSpace(c)
    ensures !Opens(c)
  {
  }

  lemma DropTwice(s: string, m: nat, n: nat)
    requires m + n <= |s|
    ensures s[m..][n..] == s[m + n..]
  {
  }

  lemma DropTokens(ts: seq<Token>, m: nat, n: nat)
    requires m + n <= |ts|
    ensures ts[m..][n..] == ts[m + n..]
  {
  }

  /** What stands after the rule's text and after its tokens is the same. */
  lemma AfterAsk(ts: seq<Token>, s: string, k: nat)
    requires Separate(ts) && s == Render(ts) && k == AskLen(ts) > 0
    ensures 0 < IsLen(s) && s[IsLen(s)..] == Render(ts[k..]) && Separate(ts[k..])
  {
    var a := Blanks(ts);
    AsksAreTokens(ts, s);
    BlanksAreSpaces(ts, s, a);
    AfterBlanks(ts, s, a, ts[a..], s[a..], k, IsLen(s));
  }

  lemma AfterBlanks(ts: seq<Token>, s: string, a: nat, us: seq<Token>, u: string, k: nat, n: nat)
    requires a == Blanks(ts) == SpaceLen(s) && us == ts[a..] && u == s[a..] && Separate(us) && u == Render(us)
    requires k == AskLen(ts) > 0 && n == IsLen(s) > 0
    ensures s[n..] == Render(ts[k..]) && Separate(ts[k..])
  {
    AskLenFrom(ts, a, us);
    AfterWord(us, u);
    IsLenFrom(s, a, u);
    DropBothSides(ts, s, us, u, a, Blanks(us[1..]) + 2, Blanks(us[1..]) + 3, n, k);
  }

  lemma AskLenFrom(ts: seq<Token>, a: nat, us: seq<Token>)
    requires AskLen(ts) > 0 && a == Blanks(ts) && us == ts[a..]
    ensures us != [] && us[0].Word? && Lower(us[0].text) == "is" && HoleToken(us[1..])
    ensures AskLen(ts) == a + 2 + Blanks(us[1..])
  {
    assert us[0] == ts[a] && us[1..] == ts[a + 1..];
  }

  lemma DropTo<T>(s: seq<T>, a: nat, m: nat, n: nat)
    requires a + m == n <= |s|
    ensures s[a..][m..] == s[n..]
  {
  }

  lemma DropBothSides(ts: seq<Token>, s: string, us: seq<Token>, u: string, a: nat, l: nat, m: nat, n: nat, k: nat)
    requires a <= |ts| && a <= |s| && us == ts[a..] && u == s[a..]
    requires m <= |u| && l <= |us| && n == a + m && k == a + l && u[m..] == Render(us[l..]) && Separate(us[l..])
    ensures n <= |s| && k <= |ts| && s[n..] == Render(ts[k..]) && Separate(ts[k..])
  {
    DropTo(s, a, m, n);
    DropTo(ts, a, l, k);
  }

  lemma IsLenFrom(s: string, a: nat, u: string)
    requires IsLen(s) > 0 && a == SpaceLen(s) && u == s[a..] && |u| >= 2
    ensures IsLen(s) == a + 3 + SpaceLen(u[2..])
  {
    DropTwice(s, a, 2);
  }

  lemma AfterWord(us: seq<Token>, u: string)
    requires Separate(us) && u == Render(us) && us != [] && us[0].Word? && Lower(us[0].text) == "is" && HoleToken(us[1..])
    ensures var b := Blanks(us[1..]);
      |u| > 2 && SpaceLen(u[2..]) == b && b + 3 <= |u| && b + 2 <= |us|
      && u[b + 3..] == Render(us[b + 2..]) && Separate(us[b + 2..])
  {
    var vs, b := us[1..], Blanks(us[1..]);
    LowerTwo(us[0].text);
    TwoOf(us[0].text, Render(vs), u);
    BlanksAreSpaces(vs, u[2..], b);
    DropTwice(u, 2, b);
    DropTokens(us, 1, b);
    FirstDropped(vs[b..], u[2 + b..]);
    DropTwice(u, 2 + b, 1);
    DropTokens(us, 1 + b, 1);
  }

  lemma FirstDropped(ts: seq<Token>, s: string)
    requires Separate(ts) && s == Render(ts) && ts != [] && ts[0].Sym?
    ensures s != "" && s[1..] == Render(ts[1..]) && Separate(ts[1..])
  {
  }

  /** The rule's text is itself, whatever follows. */
  lemma AskThen(s: string, y: string, k: nat)
    requires k == IsLen(s) > 0
    ensures IsLen(s[..k] + y) == k && (s[..k] + y)[k..] == y
  {
    var a, b := IsParts(s);
    var x := s[..k] + y;
    IsLetters(s, a);
    forall j | 0 <= j < k ensures x[j] == s[j] {}
    SpaceLenIs(x, a);
    assert x[a..a + 2] == s[a..a + 2];
    SecondSpaces(s, x, a + 2, b);
    SpaceLenIs(x[a + 2..], b);
  }

  lemma SecondSpaces(s: string, x: string, m: nat, b: nat)
    requires m + b < |s| && m + b < |x| && b == SpaceLen(s[m..]) && forall j :: m <= j <= m + b ==> x[j] == s[j]
    ensures (forall j :: 0 <= j < b ==> IsSpace(x[m..][j])) && x[m..][b] == s[m + b] && !IsSpace(s[m + b])
  {
    forall j | 0 <= j <= b ensures x[m..][j] == s[m..][j] {}
  }

  // ---- One token of a statement at a time --------------------------------------------------

  /** A span and all that follows it, or nothing. */
  function FromSpan(g: string -> string, r: string): string
    requires r == "" || Opens(r[0])
  {
    if r == "" then "" else r[..SpanLen(r)] + MapText(g, r[SpanLen(r)..])
  }

  /** The rewriting of a statement whose first stretch is rewritten in a way of its own. */
  function MapFirst(f: string -> string, g: string -> string, s: string): string {
    f(s[..ChunkLen(s)]) + FromSpan(g, s[ChunkLen(s)..])
  }

  lemma MapFirstIsMap(f: string -> string, g: string -> string, s: string)
    requires f(s[..ChunkLen(s)]) == g(s[..ChunkLen(s)])
    ensures MapFirst(f, g, s) == MapText(g, s)
  {
    MapParts(g, s);
    assert g(s[..ChunkLen(s)]) + "" == g(s[..ChunkLen(s)]);
  }

  /** Text in front that opens nothing is rewritten with the stretch it belongs to. */
  lemma MapFirstText(f: string -> string, f': string -> string, g: string -> string, x: string, r: string, y: string)
    requires OpensNothing(x) && f(x + r[..ChunkLen(r)]) == y + f'(r[..ChunkLen(r)])
    ensures MapFirst(f, g, x + r) == y + MapFirst(f', g, r)
  {
    ChunkOfBoth(x + r, x, r);
    Associate(y, f'(r[..ChunkLen(r)]), FromSpan(g, r[ChunkLen(r)..]));
  }

  lemma MapFirstSpan(f: string -> string, g: string -> string, r: string)
    requires r != "" && Opens(r[0]) && f("") == ""
    ensures MapFirst(f, g, r) == r[..SpanLen(r)] + MapText(g, r[SpanLen(r)..])
  {
    assert r[..0] == "" && r[0..] == r;
    assert "" + FromSpan(g, r) == FromSpan(g, r);
  }

  // ---- The null-safe rule on tokens --------------------------------------------------------

  /**
   Whether a token ends a name as the rule sees it: a word does unless a dollar sign is its last
   character, or it is reserved and was backticked before; so do digits and dots.
   */
  predicate EndsName(words: set<string>, t: Token) {
    match t
    case Word(w) => w != "" && Lower(w) !in words && w[|w| - 1] != '$'
    case Sym(c) => IsDigit(c) || c == '.'
    case _ => false
  }

  /** The null-safe equality with its placeholder. */
  const OPERATOR: seq<Token> := [Sym(' '), Sym('<'), Sym('='), Sym('>'), Sym(' '), Sym('?')]

  /** The tokens of a statement with the operator where a name is asked `IS ?`. */
  function Rewritten(words: set<string>, named: bool, ts: seq<Token>): seq<Token>
    decreases |ts|
  {
    if ts == [] then []
    else if named && AskLen(ts) > 0 then OPERATOR + Rewritten(words, false, ts[AskLen(ts)..])
    else [ts[0]] + Rewritten(words, EndsName(words, ts[0]), ts[1..])
  }

  function Walker(named: bool): string -> string { x => Walk(named, x) }

  lemma {:induction false} WalkThrough(named: bool, x: string, c: string)
    requires x != "" && forall k :: 0 <= k < |x| ==> !IsSpace(x[k])
    ensures Walk(named, x + c) == x + Walk(IsNameChar(x[|x| - 1]), c)
    decreases |x|
  {
    Unspaced(x + c);
    WalkOne(named, x + c);
    assert (x + c)[0] == x[0] && (x + c)[1..] == x[1..] + c;
    if |x| > 1 {
      WalkThrough(IsNameChar(x[0]), x[1..], c);
      SplitOne(x, Walk(IsNameChar(x[|x| - 1]), c));
    } else {
      assert x[1..] + c == c && x == [x[0]];
    }
  }

  lemma WordIsDense(w: string, k: nat)
    requires WellFormed(Sqlite, Word(w)) && k < |w|
    ensures !IsSpace(w[k]) && !Opens(w[k])
  {
    assert IsWordChar(w[k]);
  }

  /** Nothing of a token that is neither white space nor a span of the walk is touched. */
  predicate Dense(x: string) { x != "" && OpensNothing(x) && forall k :: 0 <= k < |x| ==> !IsSpace(x[k]) }

  lemma MapDense(named: bool, x: string, r: string)
    requires Dense(x)
    ensures MapFirst(Walker(named), NullSafe, x + r) == x + MapFirst(Walker(IsNameChar(x[|x| - 1])), NullSafe, r)
  {
    WalkThrough(named, x, r[..ChunkLen(r)]);
    MapFirstText(Walker(named), Walker(IsNameChar(x[|x| - 1])), NullSafe, x, r, x);
  }

  lemma StretchAsks(s: string, c: string, r: string)
    requires s == c + r && IsLen(c) > 0
    ensures IsLen(s) > 0
  {
    var k := IsLen(c);
    AskThen(c, c[k..] + r, k);
    assert c == c[..k] + c[k..];
    Associate(c[..k], c[k..], r);
  }

  lemma AskedInStretch(s: string, n: nat)
    requires n <= |s| && (n < |s| ==> Opens(s[n])) && IsLen(s) > 0
    ensures IsLen(s) <= n && IsLen(s[..n]) > 0
  {
    var k := IsLen(s);
    if n < k { AskedChars(s, n); }
    AskThen(s, s[k..n], k);
    assert s[..k] + s[k..n] == s[..n];
  }

  /** A stretch asks exactly when the statement does from the same place on. */
  lemma AskInStretch(s: string)
    ensures IsLen(s) > 0 <==> IsLen(s[..ChunkLen(s)]) > 0
  {
    var n := ChunkLen(s);
    assert s == s[..n] + s[n..];
    if IsLen(s[..n]) > 0 { StretchAsks(s, s[..n], s[n..]); }
    if IsLen(s) > 0 { AskedInStretch(s, n); }
  }

  lemma MapAsked(s: string, k: nat)
    requires k == IsLen(s) > 0
    ensures MapFirst(Walker(true), NullSafe, s) == " <=> ?" + MapFirst(Walker(false), NullSafe, s[k..])
  {
    var x, r := s[..k], s[k..];
    assert s == x + r;
    forall j | 0 <= j < k ensures !Opens(x[j]) { AskedChars(s, j); }
    AskThen(s, r[..ChunkLen(r)], k);
    MapFirstText(Walker(true), Walker(false), NullSafe, x, r, " <=> ?");
  }

  lemma MapBlank(named: bool, c: char, r: string)
    requires IsSpace(c) && !(named && IsLen([c] + r) > 0)
    ensures MapFirst(Walker(named), NullSafe, [c] + r) == [c] + MapFirst(Walker(false), NullSafe, r)
  {
    SpaceOpensNothing(c);
    BlankWalked(named, c, r, r[..ChunkLen(r)]);
    MapFirstText(Walker(named), Walker(false), NullSafe, [c], r, [c]);
  }

  lemma BlankWalked(named: bool, c: char, r: string, d: string)
    requires IsSpace(c) && !Opens(c) && !(named && IsLen([c] + r) > 0) && d == r[..ChunkLen(r)]
    ensures Walk(named, [c] + d) == [c] + Walk(false, d)
  {
    StretchOf(c, r, d);
    BlankCopied(named, c, d);
  }

  lemma StretchOf(c: char, r: string, d: string)
    requires !Opens(c) && d == r[..ChunkLen(r)]
    ensures IsLen([c] + r) > 0 <==> IsLen([c] + d) > 0
  {
    ChunkOfBoth([c] + r, [c], r);
    AskInStretch([c] + r);
  }

  lemma BlankCopied(named: bool, c: char, d: string)
    requires IsSpace(c) && !(named && IsLen([c] + d) > 0)
    ensures Walk(named, [c] + d) == [c] + Walk(false, d)
  {
    WalkOne(named, [c] + d);
    assert ([c] + d)[1..] == d;
  }

  lemma MapSpanned(named: bool, t: Token, r: string)
    requires t.Span? && Opens(t.quote) && WellFormed(Sqlite, t) && Follows(t, r)
    ensures MapFirst(Walker(named), NullSafe, Text(t) + r) == Text(t) + MapFirst(Walker(false), NullSafe, r)
  {
    FirstOfText(Sqlite, t, r);
    SameSpan(Text(t) + r, t);
    MapFirstSpan(Walker(named), NullSafe, Text(t) + r);
    assert (Text(t) + r)[..|Text(t)|] == Text(t) && (Text(t) + r)[|Text(t)|..] == r;
    NullSafeIsWalk(r[..ChunkLen(r)]);
    MapFirstIsMap(Walker(false), NullSafe, r);
  }

  /** The names the identifier rule takes. */
  predicate Simple(b: string) { b != "" && IsWordStart(b[0]) && forall k :: 0 <= k < |b| ==> IsWordStart(b[k]) || IsDigit(b[k]) }

  /** What is double-quoted is such a name. */
  predicate PlainlyQuoted(t: Token) { IsDoubleQuoted(t) ==> t.closed && Simple(t.body) }

  predicate AllPlainlyQuoted(ts: seq<Token>) { forall i :: 0 <= i < |ts| ==> PlainlyQuoted(ts[i]) }

  lemma DenseToken(t: Token)
    requires WellFormed(Sqlite, t) && PlainlyQuoted(t) && !IsBlank(t) && !(t.Span? && Opens(t.quote))
    ensures Dense(Text(t)) && (EndsName({}, t) <==> IsNameChar(Text(t)[|Text(t)| - 1]))
  {
    match t
    case Word(w) => forall k | 0 <= k < |w| ensures !IsSpace(w[k]) && !Opens(w[k]) { WordIsDense(w, k); }
    case Span(q, b, closed) =>
      forall k | 0 <= k < |b| ensures !IsSpace(b[k]) && !Opens(b[k]) { assert IsWordStart(b[k]) || IsDigit(b[k]); }
    case Sym(c) =>
  }

  lemma NotBlankNotAsked(ts: seq<Token>)
    requires ts != [] && !IsBlank(ts[0])
    ensures AskLen(ts) == 0
  {
  }

  lemma OperatorSplit(us: seq<Token>)
    ensures OPERATOR + us
            == [Sym(' ')] + ([Sym('<')] + ([Sym('=')] + ([Sym('>')] + ([Sym(' ')] + ([Sym('?')] + us)))))
  {
  }

  lemma OperatorRendered(us: seq<Token>)
    ensures Render(OPERATOR + us) == " <=> ?" + Render(us)
  {
    var u1 := [Sym('?')] + us;
    var u2 := [Sym(' ')] + u1;
    var u3 := [Sym('>')] + u2;
    var u4 := [Sym('=')] + u3;
    OperatorSplit(us);
    RenderMore(Sym('?'), us);
    RenderMore(Sym(' '), u1);
    RenderMore(Sym('>'), u2);
    RenderMore(Sym('='), u3);
    RenderMore(Sym('<'), u4);
    RenderMore(Sym(' '), [Sym('<')] + u4);
    OperatorText(Render(us));
  }

  lemma MapToken(named: bool, t: Token, r: string)
    requires WellFormed(Sqlite, t) && Follows(t, r) && PlainlyQuoted(t)
    requires IsBlank(t) ==> !(named && IsLen(Text(t) + r) > 0)
    ensures MapFirst(Walker(named), NullSafe, Text(t) + r) == Text(t) + MapFirst(Walker(EndsName({}, t)), NullSafe, r)
  {
    if IsBlank(t) {
      MapBlank(named, t.c, r);
    } else if t.Span? && Opens(t.quote) {
      MapSpanned(named, t, r);
    } else {
      DenseToken(t);
      MapDense(named, Text(t), r);
    }
  }

  lemma RewrittenAsked(ts: seq<Token>, k: nat, us: seq<Token>)
    requires Separate(ts) && k == AskLen(ts) > 0
    requires Separate(ts[k..]) ==> MapFirst(Walker(false), NullSafe, Render(ts[k..])) == Render(us)
    ensures MapFirst(Walker(true), NullSafe, Render(ts)) == Render(OPERATOR + us)
  {
    AfterAsk(ts, Render(ts), k);
    MapAsked(Render(ts), IsLen(Render(ts)));
    OperatorRendered(us);
  }

  lemma RewrittenCopied(named: bool, ts: seq<Token>, us: seq<Token>)
    requires Separate(ts) && ts != [] && PlainlyQuoted(ts[0]) && !(named && AskLen(ts) > 0)
    requires MapFirst(Walker(EndsName({}, ts[0])), NullSafe, Render(ts[1..])) == Render(us)
    ensures MapFirst(Walker(named), NullSafe, Render(ts)) == Render([ts[0]] + us)
  {
    AsksAreTokens(ts, Render(ts));
    MapToken(named, ts[0], Render(ts[1..]));
    RenderMore(ts[0], us);
  }

  lemma TailQuoted(ts: seq<Token>, k: nat)
    requires AllPlainlyQuoted(ts) && k <= |ts|
    ensures AllPlainlyQuoted(ts[k..])
  {
  }

  /** The rule on the text of a statement is the rewriting of its tokens. */
  lemma {:induction false} RewrittenText(named: bool, ts: seq<Token>)
    requires Separate(ts) && AllPlainlyQuoted(ts)
    ensures MapFirst(Walker(named), NullSafe, Render(ts)) == Render(Rewritten({}, named, ts))
    decreases |ts|
  {
    if ts == [] {
      assert ""[..0] == "" && ""[0..] == "";
    } else if named && AskLen(ts) > 0 {
      var k := AskLen(ts);
      TailQuoted(ts, k);
      if Separate(ts[k..]) { RewrittenText(false, ts[k..]); }
      RewrittenAsked(ts, k, Rewritten({}, false, ts[k..]));
    } else {
      var after := EndsName({}, ts[0]);
      TailQuoted(ts, 1);
      RewrittenText(after, ts[1..]);
      RewrittenCopied(named, ts, Rewritten({}, after, ts[1..]));
    }
  }

  lemma FollowsAlike(t: Token, r: string, u: string)
    requires WellFormed(Sqlite, t) && Follows(t, r) && (r == "" <==> u == "")
    requires u != "" ==> u[0] == r[0] || u[0] == ' '
    ensures Follows(t, u)
  {
  }

  lemma SymbolSeparate(c: char, us: seq<Token>)
    requires Separate(us) && WellFormed(Sqlite, Sym(c)) && c != '-' && c != '/'
    ensures Separate([Sym(c)] + us)
  {
    assert ([Sym(c)] + us)[1..] == us;
  }

  lemma OperatorSeparate(us: seq<Token>)
    requires Separate(us)
    ensures Separate(OPERATOR + us)
  {
    var u1 := [Sym('?')] + us;
    var u2 := [Sym(' ')] + u1;
    var u3 := [Sym('>')] + u2;
    var u4 := [Sym('=')] + u3;
    OperatorSplit(us);
    SymbolSeparate('?', us);
    SymbolSeparate(' ', u1);
    SymbolSeparate('>', u2);
    SymbolSeparate('=', u3);
    SymbolSeparate('<', u4);
    SymbolSeparate(' ', [Sym('<')] + u4);
  }

  lemma OneMoreSeparate(t: Token, us: seq<Token>)
    requires WellFormed(Sqlite, t) && Follows(t, Render(us)) && Separate(us)
    ensures Separate([t] + us)
  {
    assert ([t] + us)[1..] == us;
  }

  lemma CopiedFollows(t: Token, ts: seq<Token>, us: seq<Token>)
    requires WellFormed(Sqlite, t) && Follows(t, Render(ts)) && Separate(ts) && Separate(us)
    requires (us == [] <==> ts == []) && (us != [] ==> us[0] == ts[0] || us[0] == Sym(' '))
    ensures Follows(t, Render(us))
  {
    HeadChar(us);
    HeadChar(ts);
    FollowsAlike(t, Render(ts), Render(us));
  }

  lemma RewrittenHead(words: set<string>, named: bool, ts: seq<Token>)
    ensures var us := Rewritten(words, named, ts);
      (us == [] <==> ts == []) && (us != [] ==> us[0] == ts[0] || us[0] == Sym(' '))
  {
  }

  lemma {:induction false} RewrittenSeparate(words: set<string>, named: bool, ts: seq<Token>)
    requires Separate(ts)
    ensures Separate(Rewritten(words, named, ts))
    decreases |ts|
  {
    if ts == [] {
    } else if named && AskLen(ts) > 0 {
      AfterAsk(ts, Render(ts), AskLen(ts));
      RewrittenSeparate(words, false, ts[AskLen(ts)..]);
      OperatorSeparate(Rewritten(words, false, ts[AskLen(ts)..]));
    } else {
      var after := EndsName(words, ts[0]);
      RewrittenSeparate(words, after, ts[1..]);
      RewrittenHead(words, after, ts[1..]);
      CopiedFollows(ts[0], ts[1..], Rewritten(words, after, ts[1..]));
      OneMoreSeparate(ts[0], Rewritten(words, after, ts[1..]));
    }
  }

  // ---- The identifier rule -----------------------------------------------------------------

  predicate IsSimpleChar(c: char) { IsWordStart(c) || IsDigit(c) }

  function SimpleLen(s: string): (n: nat)
    ensures n <= |s| && (n < |s| ==> !IsSimpleChar(s[n])) && forall k :: 0 <= k < n ==> IsSimpleChar(s[k])
  {
    if s == "" || !IsSimpleChar(s[0]) then 0 else 1 + SimpleLen(s[1..])
  }

  /** `"name"` becomes a backticked name; any other double quote stays. */
  function Requote(s: string): string
    decreases |s|
  {
    if s == "" then ""
    else
      var n := if s[0] == '"' && |s| > 1 && IsWordStart(s[1]) then SimpleLen(s[1..]) else 0;
      if n > 0 && n + 1 < |s| && s[n + 1] == '"' then ['`'] + s[1..n + 1] + ['`'] + Requote(s[n + 2..])
      else [s[0]] + Requote(s[1..])
  }

  function RequoteToken(t: Token): Token {
    if t.Span? && t.quote == '"' && t.closed && Simple(t.body) then Span('`', t.body, true) else t
  }

  function RequoteTokens(ts: seq<Token>): (r: seq<Token>)
    ensures |r| == |ts| && forall i :: 0 <= i < |ts| ==> r[i] == RequoteToken(ts[i])
  {
    if ts == [] then [] else [RequoteToken(ts[0])] + RequoteTokens(ts[1..])
  }

  lemma {:induction false} RequoteThrough(x: string, c: string)
    requires forall k :: 0 <= k < |x| ==> x[k] != '"'
    ensures Requote(x + c) == x + Requote(c)
    decreases |x|
  {
    if x == "" {
      assert x + c == c;
    } else {
      assert (x + c)[0] == x[0] && (x + c)[1..] == x[1..] + c;
      RequoteThrough(x[1..], c);
      SplitOne(x, Requote(c));
    }
  }

  lemma QuotedText(b: string, c: string)
    ensures var s := ['"'] + b + ['"'] + c;
      s[1..] == b + (['"'] + c) && s[1..|b| + 1] == b && s[|b| + 2..] == c && s[|b| + 1] == '"'
  {
  }

  lemma {:induction false} SimpleThen(b: string, c: string)
    requires (forall k :: 0 <= k < |b| ==> IsSimpleChar(b[k])) && (c == "" || !IsSimpleChar(c[0]))
    ensures SimpleLen(b + c) == |b|
    decreases |b|
  {
    if b == "" {
      assert b + c == c;
    } else {
      assert (b + c)[1..] == b[1..] + c;
      SimpleThen(b[1..], c);
    }
  }

  lemma RequoteName(b: string, c: string)
    requires Simple(b)
    ensures Requote(['"'] + b + ['"'] + c) == ['`'] + b + ['`'] + Requote(c)
  {
    QuotedText(b, c);
    SimpleThen(b, ['"'] + c);
  }

  /** No two tokens side by side that are, or become, backticked names. */
  predicate TicksApart(ts: seq<Token>) {
    |ts| < 2 || (!(IsTick(RequoteToken(ts[0])) && IsTick(RequoteToken(ts[1]))) && TicksApart(ts[1..]))
  }

  lemma RequotedInText(t: Token, r: string)
    requires OpensNothing(Text(t)) && Requote(Text(t) + r[..ChunkLen(r)]) == Text(RequoteToken(t)) + Requote(r[..ChunkLen(r)])
    ensures MapText(Requote, Text(t) + r) == Text(RequoteToken(t)) + MapText(Requote, r)
  {
    MapFirstIsMap(Requote, Requote, Text(t) + r);
    MapFirstIsMap(Requote, Requote, r);
    MapFirstText(Requote, Requote, Requote, Text(t), r, Text(RequoteToken(t)));
  }

  lemma RequotedSpan(t: Token, r: string)
    requires t.Span? && Opens(t.quote) && WellFormed(Sqlite, t) && Follows(t, r)
    ensures MapText(Requote, Text(t) + r) == Text(t) + MapText(Requote, r)
  {
    FirstOfText(Sqlite, t, r);
    SameSpan(Text(t) + r, t);
    MapFirstIsMap(Requote, Requote, Text(t) + r);
    MapFirstSpan(Requote, Requote, Text(t) + r);
    assert (Text(t) + r)[..|Text(t)|] == Text(t) && (Text(t) + r)[|Text(t)|..] == r;
  }

  lemma RequotedText(t: Token, r: string)
    requires WellFormed(Sqlite, t) && Follows(t, r) && PlainlyQuoted(t)
    ensures MapText(Requote, Text(t) + r) == Text(RequoteToken(t)) + MapText(Requote, r)
  {
    if t.Span? && Opens(t.quote) {
      RequotedSpan(t, r);
    } else if t.Span? {
      RequoteName(t.body, r[..ChunkLen(r)]);
      QuotedOpensNothing(t.body);
      RequotedInText(t, r);
    } else {
      PlainOpensNothing(t);
      RequoteThrough(Text(t), r[..ChunkLen(r)]);
      RequotedInText(t, r);
    }
  }

  lemma QuotedOpensNothing(b: string)
    requires Simple(b)
    ensures OpensNothing(['"'] + b + ['"'])
  {
  }

  lemma PlainOpensNothing(t: Token)
    requires WellFormed(Sqlite, t) && !t.Span?
    ensures OpensNothing(Text(t)) && forall k :: 0 <= k < |Text(t)| ==> Text(t)[k] != '"'
  {
  }

  lemma {:induction false} RequotedTokens(ts: seq<Token>)
    requires Separate(ts) && AllPlainlyQuoted(ts)
    ensures MapText(Requote, Render(ts)) == Render(RequoteTokens(ts))
  {
    if ts != [] {
      TailQuoted(ts, 1);
      RequotedTokens(ts[1..]);
      RequotedText(ts[0], Render(ts[1..]));
      RenderMore(RequoteToken(ts[0]), RequoteTokens(ts[1..]));
    }
  }

  lemma SimpleIsWellFormed(b: string)
    requires Simple(b)
    ensures WellFormed(Sqlite, Span('`', b, true))
  {
    forall k | 0 <= k < |b| ensures IsWordChar(b[k]) { assert IsWordStart(b[k]) || IsDigit(b[k]); }
    WordIsTick(b);
  }

  lemma RequotedHead(ts: seq<Token>, us: seq<Token>)
    requires Separate(ts) && Separate(us) && us == RequoteTokens(ts)
    ensures Render(us) == "" <==> Render(ts) == ""
    ensures ts != [] ==> if IsTick(RequoteToken(ts[0])) then Render(us)[0] == '`' else Render(us)[0] == Render(ts)[0] != '`'
  {
    HeadChar(ts);
    HeadChar(us);
  }

  lemma RequotedFollows(t: Token, ts: seq<Token>, us: seq<Token>)
    requires WellFormed(Sqlite, t) && PlainlyQuoted(t) && Follows(t, Render(ts))
    requires Separate(ts) && Separate(us) && us == RequoteTokens(ts)
    requires ts != [] ==> !(IsTick(RequoteToken(t)) && IsTick(RequoteToken(ts[0])))
    ensures Follows(RequoteToken(t), Render(us))
  {
    RequotedHead(ts, us);
    HeadChar(us);
  }

  lemma {:induction false} RequotedSeparate(ts: seq<Token>)
    requires Separate(ts) && AllPlainlyQuoted(ts) && TicksApart(ts)
    ensures Separate(RequoteTokens(ts))
  {
    if ts != [] {
      var t, us := ts[0], RequoteTokens(ts[1..]);
      TailQuoted(ts, 1);
      RequotedSeparate(ts[1..]);
      if IsDoubleQuoted(t) { SimpleIsWellFormed(t.body); }
      RequotedFollows(t, ts[1..], us);
      OneMoreSeparate(RequoteToken(t), us);
    }
  }

  // ---- Both rules --------------------------------------------------------------------------

  /** What the source does to a stretch: the null-safe rule, then the identifier rule. */
  function Rules(chunk: string): string { Requote(NullSafe(chunk)) }

  lemma RulesInOne(s: string)
    requires ChunkLen(s) == |s|
    ensures MapText(Rules, s) == MapText(Requote, MapText(NullSafe, s))
  {
    NullSafeIsWalk(s);
    WalkOpensNothing(false, s);
    ChunkThen(NullSafe(s), "");
    assert NullSafe(s) + "" == NullSafe(s);
  }

  lemma RulesInFirst(s: string, n: nat, r: string, rest: string, m: string)
    requires n == ChunkLen(s) < |s| && r == s[n..] && rest == r[SpanLen(r)..] && m == MapText(NullSafe, rest)
    requires MapText(Rules, rest) == MapText(Requote, m)
    ensures MapText(Rules, s) == MapText(Requote, MapText(NullSafe, s))
  {
    MapParts(Rules, s);
    MapParts(NullSafe, s);
    NullSafeIsWalk(s[..n]);
    WalkOpensNothing(false, s[..n]);
    MapHeadIsKept(rest);
    SpanIsKept(r, m);
    MapSpan(Requote, NullSafe(s[..n]), r[..SpanLen(r)] + m);
    assert (r[..SpanLen(r)] + m)[..SpanLen(r)] == r[..SpanLen(r)];
  }

  /** One rule after the other in each stretch is one after the other on the statement. */
  lemma {:induction false} RulesInTurn(s: string)
    ensures MapText(Rules, s) == MapText(Requote, MapText(NullSafe, s))
    decreases |s|
  {
    var n := ChunkLen(s);
    if n == |s| {
      RulesInOne(s);
    } else {
      var r := s[n..];
      var rest := r[SpanLen(r)..];
      RulesInTurn(rest);
      RulesInFirst(s, n, r, rest, MapText(NullSafe, rest));
    }
  }

  lemma TicksApartFrom(ts: seq<Token>, k: nat)
    requires TicksApart(ts) && k <= |ts|
    ensures TicksApart(ts[k..])
    decreases k
  {
    if k == 0 {
      assert ts[0..] == ts;
    } else {
      TicksApartFrom(ts[1..], k - 1);
      assert ts[1..][k - 1..] == ts[k..];
    }
  }

  lemma OperatorApart(us: seq<Token>)
    requires TicksApart(us) && AllPlainlyQuoted(us)
    ensures TicksApart(OPERATOR + us) && AllPlainlyQuoted(OPERATOR + us)
  {
    var u1 := [Sym('?')] + us;
    var u2 := [Sym(' ')] + u1;
    var u3 := [Sym('>')] + u2;
    var u4 := [Sym('=')] + u3;
    OperatorSplit(us);
    SymbolApart('?', us);
    SymbolApart(' ', u1);
    SymbolApart('>', u2);
    SymbolApart('=', u3);
    SymbolApart('<', u4);
    SymbolApart(' ', [Sym('<')] + u4);
  }

  lemma SymbolApart(c: char, us: seq<Token>)
    requires TicksApart(us) && AllPlainlyQuoted(us)
    ensures TicksApart([Sym(c)] + us) && AllPlainlyQuoted([Sym(c)] + us)
  {
    assert ([Sym(c)] + us)[1..] == us;
  }

  lemma {:induction false} RewrittenApart(words: set<string>, named: bool, ts: seq<Token>)
    requires TicksApart(ts) && AllPlainlyQuoted(ts)
    ensures TicksApart(Rewritten(words, named, ts)) && AllPlainlyQuoted(Rewritten(words, named, ts))
    decreases |ts|
  {
    if ts == [] {
    } else if named && AskLen(ts) > 0 {
      TicksApartFrom(ts, AskLen(ts));
      TailQuoted(ts, AskLen(ts));
      RewrittenApart(words, false, ts[AskLen(ts)..]);
      OperatorApart(Rewritten(words, false, ts[AskLen(ts)..]));
    } else {
      var us := Rewritten(words, EndsName(words, ts[0]), ts[1..]);
      TailQuoted(ts, 1);
      TicksApartFrom(ts, 1);
      RewrittenApart(words, EndsName(words, ts[0]), ts[1..]);
      RewrittenHead(words, EndsName(words, ts[0]), ts[1..]);
      assert ([ts[0]] + us)[1..] == us;
    }
  }

  /**
   What both rules make of a statement, token by token: the operator where a name is asked `IS ?`,
   backticks for double quotes, and everything else as it was.
   */
  lemma RulesOnTokens(s: string)
    requires CommentFree(Lex(Sqlite, s)) && AllPlainlyQuoted(Lex(Sqlite, s)) && TicksApart(Lex(Sqlite, s))
    ensures Lex(Sqlite, MapText(Rules, s)) == RequoteTokens(Rewritten({}, false, Lex(Sqlite, s)))
  {
    var ts := Lex(Sqlite, s);
    var us := Rewritten({}, false, ts);
    LexIsSeparate(s);
    RenderLex(Sqlite, s);
    RewrittenText(false, ts);
    NullSafeIsWalk(s[..ChunkLen(s)]);
    MapFirstIsMap(Walker(false), NullSafe, s);
    RewrittenSeparate({}, false, ts);
    RewrittenApart({}, false, ts);
    RulesInTurn(s);
    RequotedTokens(us);
    RequotedSeparate(us);
    LexRender(RequoteTokens(us));
  }

  // ---- Which `IS ?` are left, token by token -----------------------------------------------

  function ClassOfToken(words: set<string>, t: Token): Before {
    if EndsName(words, t) then Name else if IsBlank(t) then Space else Other
  }

  /** An `IS ?` begins, with all the white space before it, among these tokens. */
  predicate HasAsk(words: set<string>, before: Before, ts: seq<Token>)
    decreases |ts|
  {
    ts != [] && ((!before.Space? && AskLen(ts) > 0) || HasAsk(words, ClassOfToken(words, ts[0]), ts[1..]))
  }

  /** One begins that no name stands directly before. */
  predicate HasNamelessAsk(words: set<string>, before: Before, ts: seq<Token>)
    decreases |ts|
  {
    ts != [] && ((before.Other? && AskLen(ts) > 0) || HasNamelessAsk(words, ClassOfToken(words, ts[0]), ts[1..]))
  }

  lemma HasAskStep(words: set<string>, before: Before, t: Token, us: seq<Token>)
    requires before.Space? || AskLen([t] + us) == 0
    ensures HasAsk(words, before, [t] + us) == HasAsk(words, ClassOfToken(words, t), us)
  {
    assert ([t] + us)[1..] == us;
  }

  lemma BlankThenSymbol(c: char, us: seq<Token>)
    requires !IsSpace(c)
    ensures AskLen([Sym(' ')] + ([Sym(c)] + us)) == 0
  {
    var ts := [Sym(' ')] + ([Sym(c)] + us);
    assert ts[1..] == [Sym(c)] + us && Blanks(ts[1..]) == 0;
  }

  lemma OperatorAsksNothing(words: set<string>, us: seq<Token>)
    ensures HasAsk(words, Name, OPERATOR + us) == HasAsk(words, Other, us)
  {
    var u1 := [Sym('?')] + us;
    var u2 := [Sym(' ')] + u1;
    var u3 := [Sym('>')] + u2;
    var u4 := [Sym('=')] + u3;
    OperatorSplit(us);
    BlankThenSymbol('<', u4);
    HasAskStep(words, Name, Sym(' '), [Sym('<')] + u4);
    HasAskStep(words, Space, Sym('<'), u4);
    NotBlankNotAsked(u4);
    HasAskStep(words, Other, Sym('='), u3);
    OperatorEnds(words, us, u1, u2);
  }

  lemma OperatorEnds(words: set<string>, us: seq<Token>, u1: seq<Token>, u2: seq<Token>)
    requires u1 == [Sym('?')] + us && u2 == [Sym(' ')] + u1
    ensures HasAsk(words, Other, [Sym('>')] + u2) == HasAsk(words, Other, us)
  {
    NotBlankNotAsked([Sym('>')] + u2);
    HasAskStep(words, Other, Sym('>'), u2);
    BlankThenSymbol('?', us);
    HasAskStep(words, Other, Sym(' '), u1);
    HasAskStep(words, Space, Sym('?'), us);
  }

  lemma {:induction false} NamelessPastBlanks(words: set<string>, before: Before, ts: seq<Token>, a: nat)
    requires !before.Other? && 0 < a <= Blanks(ts)
    ensures HasNamelessAsk(words, before, ts) == HasNamelessAsk(words, Space, ts[a..])
    decreases a
  {
    if a > 1 {
      NamelessPastBlanks(words, Space, ts[1..], a - 1);
      assert ts[1..][a - 1..] == ts[a..];
    }
  }

  lemma NamelessPast(words: set<string>, before: Before, ts: seq<Token>)
    requires ts != [] && (!before.Other? || !IsBlank(ts[0]))
    ensures HasNamelessAsk(words, before, ts) == HasNamelessAsk(words, ClassOfToken(words, ts[0]), ts[1..])
  {
    if before.Other? { NotBlankNotAsked(ts); }
  }

  lemma IsEndsName(words: set<string>, w: string)
    requires "is" !in words && Lower(w) == "is"
    ensures EndsName(words, Word(w))
  {
    LowerTwo(w);
    LetterIsWord(w[1]);
  }

  /** Within an `IS ?` after a name no other begins. */
  lemma AskPassed(words: set<string>, ts: seq<Token>, k: nat)
    requires "is" !in words && k == AskLen(ts) > 0
    ensures HasNamelessAsk(words, Name, ts) == HasNamelessAsk(words, Other, ts[k..])
  {
    var a := Blanks(ts);
    var us := ts[a..];
    AskLenFrom(ts, a, us);
    NamelessPastBlanks(words, Name, ts, a);
    PastWord(words, us, us[1..], Blanks(us[1..]));
    DropTo(ts, a, Blanks(us[1..]) + 2, k);
  }

  lemma PastWord(words: set<string>, us: seq<Token>, vs: seq<Token>, b: nat)
    requires "is" !in words && us != [] && us[0].Word? && Lower(us[0].text) == "is"
    requires vs == us[1..] && HoleToken(vs) && b == Blanks(vs)
    ensures b + 2 <= |us| && HasNamelessAsk(words, Space, us) == HasNamelessAsk(words, Other, us[b + 2..])
  {
    NamelessPast(words, Space, us);
    IsEndsName(words, us[0].text);
    NamelessPastBlanks(words, Name, vs, b);
    PastHole(words, vs[b..]);
    DropTokens(vs, b, 1);
    DropTokens(us, 1, b + 1);
  }

  lemma PastHole(words: set<string>, ws: seq<Token>)
    requires ws != [] && ws[0] == Sym('?')
    ensures HasNamelessAsk(words, Space, ws) == HasNamelessAsk(words, Other, ws[1..])
  {
    NamelessPast(words, Space, ws);
  }

  lemma OneMoreToken(ts: seq<Token>, a: nat, all: seq<Token>, tail: seq<Token>, w: seq<Token>)
    requires 0 < a <= |ts| && all == [ts[0]] + tail && tail == ts[1..][..a - 1] + w
    ensures all == ts[..a] + w
  {
  }

  lemma BlankFirst(words: set<string>, ts: seq<Token>)
    requires ts != [] && IsBlank(ts[0])
    ensures Rewritten(words, false, ts) == [ts[0]] + Rewritten(words, false, ts[1..])
  {
  }

  lemma {:induction false} BlanksRewritten(words: set<string>, ts: seq<Token>, a: nat)
    requires a <= Blanks(ts)
    ensures Rewritten(words, false, ts) == ts[..a] + Rewritten(words, false, ts[a..])
    decreases a
  {
    if a == 0 {
      assert ts[..0] == [] && ts[0..] == ts;
    } else {
      var w := Rewritten(words, false, ts[a..]);
      BlankFirst(words, ts);
      BlanksRewritten(words, ts[1..], a - 1);
      DropTokens(ts, 1, a - 1);
      OneMoreToken(ts, a, Rewritten(words, false, ts), Rewritten(words, false, ts[1..]), w);
    }
  }

  lemma {:induction false} BlanksThen(x: seq<Token>, y: seq<Token>)
    requires (forall k :: 0 <= k < |x| ==> IsBlank(x[k])) && (y == [] || !IsBlank(y[0]))
    ensures Blanks(x + y) == |x|
    decreases |x|
  {
    if x == [] {
      assert x + y == y;
    } else {
      assert (x + y)[1..] == x[1..] + y;
      BlanksThen(x[1..], y);
    }
  }

  lemma FirstKept(words: set<string>, ts: seq<Token>)
    ensures var us := Rewritten(words, false, ts); (us == [] <==> ts == []) && (ts != [] ==> us[0] == ts[0])
  {
  }

  lemma HoleTokenParts(x: seq<Token>, y: seq<Token>)
    requires (forall k :: 0 <= k < |x| ==> IsBlank(x[k])) && (y == [] || !IsBlank(y[0]))
    ensures HoleToken(x + y) <==> x != [] && y != [] && y[0] == Sym('?')
  {
    BlanksThen(x, y);
  }

  lemma AskIsNoHole(ts: seq<Token>)
    requires AskLen(ts) > 0
    ensures !HoleToken(ts)
  {
  }

  lemma OperatorIsNoHole(us: seq<Token>)
    ensures !HoleToken(OPERATOR + us)
  {
    var y := (OPERATOR + us)[1..];
    assert OPERATOR + us == [Sym(' ')] + y && y[0] == Sym('<');
    HoleTokenParts([Sym(' ')], y);
  }

  lemma HoleTokenRewritten(words: set<string>, named: bool, ts: seq<Token>)
    ensures HoleToken(Rewritten(words, named, ts)) <==> HoleToken(ts)
  {
    if named && AskLen(ts) > 0 {
      AskIsNoHole(ts);
      OperatorIsNoHole(Rewritten(words, false, ts[AskLen(ts)..]));
    } else {
      var b := Blanks(ts);
      Unasked(words, named, ts);
      BlanksRewritten(words, ts, b);
      assert ts == ts[..b] + ts[b..];
      HoleTokenKept(words, ts[..b], ts[b..]);
    }
  }

  lemma Unasked(words: set<string>, named: bool, ts: seq<Token>)
    requires !(named && AskLen(ts) > 0)
    ensures Rewritten(words, named, ts) == Rewritten(words, false, ts)
  {
  }

  lemma HoleTokenKept(words: set<string>, x: seq<Token>, y: seq<Token>)
    requires (forall k :: 0 <= k < |x| ==> IsBlank(x[k])) && (y == [] || !IsBlank(y[0]))
    ensures HoleToken(x + Rewritten(words, false, y)) <==> HoleToken(x + y)
  {
    FirstKept(words, y);
    HoleTokenParts(x, y);
    HoleTokenParts(x, Rewritten(words, false, y));
  }

  /** The word and what follows it, at the head of some tokens. */
  predicate AskRest(us: seq<Token>) { us != [] && us[0].Word? && Lower(us[0].text) == "is" && HoleToken(us[1..]) }

  lemma AskLenParts(x: seq<Token>, y: seq<Token>)
    requires x != [] && (forall k :: 0 <= k < |x| ==> IsBlank(x[k])) && (y == [] || !IsBlank(y[0]))
    ensures AskLen(x + y) > 0 <==> AskRest(y)
  {
    BlanksThen(x, y);
    if y != [] { assert (x + y)[|x|] == y[0] && (x + y)[|x| + 1..] == y[1..]; }
  }

  lemma AskRestRewritten(words: set<string>, us: seq<Token>)
    requires us == [] || !IsBlank(us[0])
    ensures AskRest(Rewritten(words, false, us)) <==> AskRest(us)
  {
    if us != [] {
      var after := EndsName(words, us[0]);
      assert Rewritten(words, false, us)[1..] == Rewritten(words, after, us[1..]);
      HoleTokenRewritten(words, after, us[1..]);
    }
  }

  /** White space that is copied begins an `IS ?` afterwards exactly if it did before. */
  lemma AskRewritten(words: set<string>, ts: seq<Token>)
    requires ts != [] && IsBlank(ts[0])
    ensures AskLen(Rewritten(words, false, ts)) > 0 <==> AskLen(ts) > 0
  {
    var a := Blanks(ts);
    BlanksRewritten(words, ts, a);
    FirstKept(words, ts[a..]);
    assert ts == ts[..a] + ts[a..] && ts[..a][0] == ts[0];
    AskLenParts(ts[..a], ts[a..]);
    AskLenParts(ts[..a], Rewritten(words, false, ts[a..]));
    AskRestRewritten(words, ts[a..]);
  }

  lemma CopiedAsk(words: set<string>, before: Before, ts: seq<Token>, us: seq<Token>)
    requires ts != [] && !(before.Name? && AskLen(ts) > 0) && us == Rewritten(words, EndsName(words, ts[0]), ts[1..])
    requires HasAsk(words, ClassOfToken(words, ts[0]), us) == HasNamelessAsk(words, ClassOfToken(words, ts[0]), ts[1..])
    ensures HasAsk(words, before, [ts[0]] + us) == HasNamelessAsk(words, before, ts)
  {
    assert ([ts[0]] + us)[1..] == us;
    if IsBlank(ts[0]) {
      assert Rewritten(words, false, ts) == [ts[0]] + us;
      AskRewritten(words, ts);
    } else {
      NotBlankNotAsked(ts);
      NotBlankNotAsked([ts[0]] + us);
    }
  }

  /** After the rule an `IS ?` is left exactly when one had no name before it. */
  lemma {:induction false} AskLeft(words: set<string>, before: Before, ts: seq<Token>)
    requires "is" !in words
    ensures HasAsk(words, before, Rewritten(words, before.Name?, ts)) == HasNamelessAsk(words, before, ts)
    decreases |ts|
  {
    if ts == [] {
    } else if before.Name? && AskLen(ts) > 0 {
      var k := AskLen(ts);
      AskLeft(words, Other, ts[k..]);
      OperatorAsksNothing(words, Rewritten(words, false, ts[k..]));
      AskPassed(words, ts, k);
    } else {
      AskLeft(words, ClassOfToken(words, ts[0]), ts[1..]);
      CopiedAsk(words, before, ts, Rewritten(words, EndsName(words, ts[0]), ts[1..]));
    }
  }

  /** An `IS ?` begins at this token, with all the white space before the word. */
  predicate AskAt(ts: seq<Token>, i: nat) { i < |ts| && AskLen(ts[i..]) > 0 && (i == 0 || !IsBlank(ts[i - 1])) }

  /** No bare name stands directly before it. */
  predicate NamelessAt(words: set<string>, ts: seq<Token>, i: nat) {
    AskAt(ts, i) && (i == 0 || !EndsName(words, ts[i - 1]))
  }

  predicate AsksAtAll(ts: seq<Token>) { exists i :: 0 <= i < |ts| && AskAt(ts, i) }

  predicate AsksNameless(words: set<string>, ts: seq<Token>) { exists i :: 0 <= i < |ts| && NamelessAt(words, ts, i) }

  function ClassAt(words: set<string>, before: Before, ts: seq<Token>, i: nat): Before
    requires i <= |ts|
  {
    if i == 0 then before else ClassOfToken(words, ts[i - 1])
  }

  lemma ClassLater(words: set<string>, before: Before, ts: seq<Token>, i: nat)
    requires i < |ts|
    ensures ClassAt(words, ClassOfToken(words, ts[0]), ts[1..], i) == ClassAt(words, before, ts, i + 1)
    ensures i + 1 < |ts| ==> ts[1..][i..] == ts[i + 1..]
  {
  }

  predicate AskWith(words: set<string>, before: Before, ts: seq<Token>, i: nat, nameless: bool) {
    i < |ts| && AskLen(ts[i..]) > 0
    && var c := ClassAt(words, before, ts, i); if nameless then c.Other? else !c.Space?
  }

  lemma AskWithLater(words: set<string>, before: Before, ts: seq<Token>, i: nat, nameless: bool)
    requires i + 1 < |ts|
    ensures AskWith(words, ClassOfToken(words, ts[0]), ts[1..], i, nameless) <==> AskWith(words, before, ts, i + 1, nameless)
  {
    ClassLater(words, before, ts, i);
  }

  predicate AnyAskWith(words: set<string>, before: Before, ts: seq<Token>, nameless: bool) {
    exists i :: 0 <= i < |ts| && AskWith(words, before, ts, i, nameless)
  }

  lemma AnyAskGrows(words: set<string>, before: Before, ts: seq<Token>, nameless: bool)
    requires ts != [] && AnyAskWith(words, ClassOfToken(words, ts[0]), ts[1..], nameless)
    ensures AnyAskWith(words, before, ts, nameless)
  {
    var i :| 0 <= i < |ts[1..]| && AskWith(words, ClassOfToken(words, ts[0]), ts[1..], i, nameless);
    AskWithLater(words, before, ts, i, nameless);
    assert AskWith(words, before, ts, i + 1, nameless);
  }

  lemma AnyAskShrinks(words: set<string>, before: Before, ts: seq<Token>, nameless: bool, i: nat)
    requires 0 < i < |ts| && AskWith(words, before, ts, i, nameless)
    ensures AnyAskWith(words, ClassOfToken(words, ts[0]), ts[1..], nameless)
  {
    AskWithLater(words, before, ts, i - 1, nameless);
    assert AskWith(words, ClassOfToken(words, ts[0]), ts[1..], i - 1, nameless);
  }

  lemma AnyAskStep(words: set<string>, before: Before, ts: seq<Token>, nameless: bool)
    requires ts != []
    ensures AnyAskWith(words, before, ts, nameless)
            <==> AskWith(words, before, ts, 0, nameless) || AnyAskWith(words, ClassOfToken(words, ts[0]), ts[1..], nameless)
  {
    if AnyAskWith(words, ClassOfToken(words, ts[0]), ts[1..], nameless) { AnyAskGrows(words, before, ts, nameless); }
    if AnyAskWith(words, before, ts, nameless) {
      var i :| 0 <= i < |ts| && AskWith(words, before, ts, i, nameless);
      if i > 0 { AnyAskShrinks(words, before, ts, nameless, i); }
    }
  }

  lemma {:induction false} HasAskAt(words: set<string>, before: Before, ts: seq<Token>)
    ensures HasAsk(words, before, ts) <==> AnyAskWith(words, before, ts, false)
    ensures HasNamelessAsk(words, before, ts) <==> AnyAskWith(words, before, ts, true)
    decreases |ts|
  {
    if ts != [] {
      HasAskAt(words, ClassOfToken(words, ts[0]), ts[1..]);
      AnyAskStep(words, before, ts, false);
      AnyAskStep(words, before, ts, true);
      assert ts[0..] == ts;
    }
  }

  lemma PlacesAreClasses(words: set<string>, ts: seq<Token>, i: nat)
    requires i < |ts|
    ensures AskAt(ts, i) <==> AskWith(words, Other, ts, i, false)
    ensures NamelessAt(words, ts, i) <==> AskWith(words, Other, ts, i, true)
  {
  }

  lemma AsksAreClasses(words: set<string>, ts: seq<Token>)
    ensures AsksAtAll(ts) <==> HasAsk(words, Other, ts)
    ensures AsksNameless(words, ts) <==> HasNamelessAsk(words, Other, ts)
  {
    HasAskAt(words, Other, ts);
    forall i | 0 <= i < |ts|
      ensures AskAt(ts, i) <==> AskWith(words, Other, ts, i, false)
      ensures NamelessAt(words, ts, i) <==> AskWith(words, Other, ts, i, true) {
      PlacesAreClasses(words, ts, i);
    }
  }

  /** In a statement's tokens, an `IS ?` is left exactly when one had no bare name before it. */
  lemma AsksLeft(words: set<string>, ts: seq<Token>)
    requires "is" !in words
    ensures AsksAtAll(Rewritten(words, false, ts)) <==> AsksNameless(words, ts)
  {
    AskLeft(words, Other, ts);
    AsksAreClasses(words, ts);
    AsksAreClasses(words, Rewritten(words, false, ts));
  }

  // ---- Tokens alike to the rule ------------------------------------------------------------

  predicate IsTheWord(t: Token) { t.Word? && Lower(t.text) == "is" }

  /** The same token, or two that the rule makes nothing of. */
  predicate Alike(t: Token, u: Token) { t == u || (!t.Sym? && !u.Sym? && !IsTheWord(t) && !IsTheWord(u)) }

  predicate AllAlike(ts: seq<Token>, us: seq<Token>) { |ts| == |us| && forall i :: 0 <= i < |ts| ==> Alike(ts[i], us[i]) }

  lemma AlikeFrom(ts: seq<Token>, us: seq<Token>, k: nat)
    requires AllAlike(ts, us) && k <= |ts|
    ensures AllAlike(ts[k..], us[k..])
  {
  }

  lemma {:induction false} BlanksAlike(ts: seq<Token>, us: seq<Token>)
    requires AllAlike(ts, us)
    ensures Blanks(us) == Blanks(ts) && (HoleToken(us) <==> HoleToken(ts))
  {
    if ts != [] {
      assert Alike(ts[0], us[0]);
      AlikeFrom(ts, us, 1);
      BlanksAlike(ts[1..], us[1..]);
      var b := Blanks(ts);
      if b < |ts| { assert Alike(ts[b], us[b]); }
    }
  }

  lemma WordAlike(t: Token, u: Token)
    requires Alike(t, u)
    ensures IsTheWord(u) <==> IsTheWord(t)
  {
  }

  lemma AskAlike(ts: seq<Token>, us: seq<Token>)
    requires AllAlike(ts, us)
    ensures AskLen(us) == AskLen(ts)
  {
    var a := Blanks(ts);
    BlanksAlike(ts, us);
    if 0 < a < |ts| {
      WordAlike(ts[a], us[a]);
      AlikeFrom(ts, us, a + 1);
      SameAsk(ts, us, a, ts[a + 1..], us[a + 1..]);
    }
  }

  lemma SameAsk(ts: seq<Token>, us: seq<Token>, a: nat, vs: seq<Token>, ws: seq<Token>)
    requires 0 < a == Blanks(ts) == Blanks(us) && a < |ts| == |us| && vs == ts[a + 1..] && ws == us[a + 1..]
    requires (IsTheWord(us[a]) <==> IsTheWord(ts[a])) && AllAlike(vs, ws)
    ensures AskLen(us) == AskLen(ts)
  {
    BlanksAlike(vs, ws);
  }

  lemma AsksAlike(ts: seq<Token>, us: seq<Token>)
    requires AllAlike(ts, us)
    ensures AsksAtAll(us) <==> AsksAtAll(ts)
  {
    forall i | 0 <= i < |ts| ensures AskAt(us, i) <==> AskAt(ts, i) {
      AlikeFrom(ts, us, i);
      AskAlike(ts[i..], us[i..]);
      if i > 0 { assert Alike(ts[i - 1], us[i - 1]); }
    }
  }
}
