/** The whole translation of a statement, which statements it refuses, and the meaning it preserves. */
module Translation {
  import opened Wrappers
  import opened SqlLexer
  import opened ReservedWords
  import opened SqlMeaning
  import opened Literals
  import opened OutsideLiterals
  import opened NullSafety
  import opened TokenRewrites
  import opened Refusals
  import opened Placeholders

  /** None is a statement that asks `IS NOT ?`, which is refused. */
  function Translate<V>(words: set<string>, sql: string, params: seq<V>): Option<Outcome<V>> {
    var quoted := QuoteText(words, sql);
    if AnyRefused(AsksIsNot, quoted) then None
    else Some(Rebind(DoubleText(MapText(Rules, quoted)), params))
  }

  method ToMysqlParams<V>(sql: string, params: seq<V>) returns (r: Option<Outcome<V>>)
    ensures r == Translate(SCHEMA_RESERVED, sql, params)
  {
    var quoted := QuoteReservedIdentifiers(sql, SCHEMA_RESERVED);
    var mapped := MapOutsideLiterals(quoted, Rules, AsksIsNot);
    if mapped == None { return None; }
    var doubled := DoubleBackslashesInLiterals(mapped.value);
    var outcome := RebindPlaceholders(doubled, params);
    return Some(outcome);
  }

  // ---- Filling the holes, as each dialect does ---------------------------------------------

  datatype Read<V> = Plain(atom: Atom) | Filled(value: Option<V>)

  /** The digits the reading starts with. */
  function DigitText(atoms: seq<Atom>): (ds: string)
    ensures |ds| <= |atoms|
  {
    if atoms == [] || !atoms[0].Mark? || !IsDigit(atoms[0].c) then ""
    else [atoms[0].c] + DigitText(atoms[1..])
  }

  /** SQLite: ?N is parameter N; a bare ? is one more than the largest number used so far. */
  function SqliteFill<V>(atoms: seq<Atom>, params: seq<V>, used: nat): seq<Read<V>>
    decreases |atoms|
  {
    if atoms == [] then []
    else if atoms[0] != Mark('?') then [Plain(atoms[0])] + SqliteFill(atoms[1..], params, used)
    else
      var ds := DigitText(atoms[1..]);
      var n := if ds == "" then used + 1 else Number(ds);
      [Filled(ParamAt(params, n))]
      + SqliteFill(atoms[1..][|ds|..], params, if n > used then n else used)
  }

  /** MySQL: every ? takes the next value. */
  function MysqlFill<V>(atoms: seq<Atom>, params: seq<Option<V>>): seq<Read<V>> {
    if atoms == [] then []
    else if atoms[0] != Mark('?') then [Plain(atoms[0])] + MysqlFill(atoms[1..], params)
    else if params == [] then [Filled(None)] + MysqlFill(atoms[1..], [])
    else [Filled(params[0])] + MysqlFill(atoms[1..], params[1..])
  }

  function AtomHoles(atoms: seq<Atom>): seq<Hole>
    decreases |atoms|
  {
    if atoms == [] then []
    else if atoms[0] != Mark('?') then AtomHoles(atoms[1..])
    else
      var ds := DigitText(atoms[1..]);
      [if ds == "" then Anonymous else Numbered(Number(ds))] + AtomHoles(atoms[1..][|ds|..])
  }

  /** The reading with every hole's digits taken out. */
  function DropDigits(atoms: seq<Atom>): seq<Atom>
    decreases |atoms|
  {
    if atoms == [] then []
    else if atoms[0] != Mark('?') then [atoms[0]] + DropDigits(atoms[1..])
    else [atoms[0]] + DropDigits(atoms[1..][|DigitText(atoms[1..])|..])
  }

  lemma {:induction false} NumberedFill<V>(atoms: seq<Atom>, params: seq<V>, used: nat)
    requires AllNumbered(AtomHoles(atoms))
    ensures MysqlFill(DropDigits(atoms), Expand(Numbers(AtomHoles(atoms)), params)) == SqliteFill(atoms, params, used)
    decreases |atoms|
  {
    if atoms != [] {
      if atoms[0] != Mark('?') {
        NumberedFill(atoms[1..], params, used);
        assert DropDigits(atoms)[1..] == DropDigits(atoms[1..]);
      } else {
        var ds := DigitText(atoms[1..]);
        var rest := atoms[1..][|ds|..];
        var hs := AtomHoles(atoms);
        assert hs[1..] == AtomHoles(rest) && hs[0] == Numbered(Number(ds));
        assert forall i :: 0 <= i < |hs[1..]| ==> hs[1..][i] == hs[i + 1];
        NumberedFill(rest, params, if Number(ds) > used then Number(ds) else used);
        assert Expand(Numbers(hs), params)[1..] == Expand(Numbers(hs[1..]), params);
        assert DropDigits(atoms)[1..] == DropDigits(rest);
      }
    }
  }

  function Remaining<V>(params: seq<V>, used: nat): seq<Option<V>> {
    if used <= |params| then Present(params)[used..] else []
  }

  lemma RemainingStep<V>(params: seq<V>, used: nat)
    ensures var rest := Remaining(params, used);
      if rest == [] then ParamAt(params, used + 1) == None && Remaining(params, used + 1) == []
      else rest[0] == ParamAt(params, used + 1) && rest[1..] == Remaining(params, used + 1)
  {
  }

  lemma {:induction false} AnonymousFill<V>(atoms: seq<Atom>, params: seq<V>, used: nat)
    requires Numbers(AtomHoles(atoms)) == []
    ensures DropDigits(atoms) == atoms
    ensures MysqlFill(atoms, Remaining(params, used)) == SqliteFill(atoms, params, used)
    decreases |atoms|
  {
    if atoms != [] {
      var rest := atoms[1..];
      if atoms[0] != Mark('?') {
        AnonymousFill(rest, params, used);
      } else {
        var ds := DigitText(rest);
        HolesConcat([if ds == "" then Anonymous else Numbered(Number(ds))], AtomHoles(rest[|ds|..]));
        NumbersOf([], Number(ds));
        assert ds == "" && rest[0..] == rest;
        AnonymousFill(rest, params, used + 1);
        RemainingStep(params, used);
      }
    }
  }

  // ---- How the walk over holes looks to a lexer --------------------------------------------

  lemma DigitTextStep(c: char, atoms: seq<Atom>)
    requires IsDigit(c)
    ensures DigitText([Mark(c)] + atoms) == [c] + DigitText(atoms)
  {
    assert ([Mark(c)] + atoms)[1..] == atoms;
  }

  lemma FirstOfDigit(d: Dialect, s: string)
    requires s != "" && IsDigit(s[0])
    ensures First(d, s) == Sym(s[0]) && Rest(d, s) == s[1..]
  {
    assert !IsQuote(s[0]) && !IsWordStart(s[0]) && !OpensComment(d, s);
  }

  /** Digits after a hole are lexed one by one. */
  lemma DigitRead(d: Dialect, words: set<string>, s: string)
    requires DigitLen(s) > 0
    ensures Reading(d, words, s) == [Mark(s[0])] + Reading(d, words, s[1..]) && DigitLen(s) == 1 + DigitLen(s[1..])
  {
    ReadingStep(d, words, s);
    FirstOfDigit(d, s);
  }

  lemma NoDigitRead(d: Dialect, words: set<string>, s: string)
    requires s != "" && !IsDigit(s[0])
    ensures DigitText(Reading(d, words, s)) == ""
  {
    ReadingStep(d, words, s);
    var t := First(d, s);
    if t.Sym? { assert Text(t) == s[..1]; }
    assert AtomOf(d, words, t).Mark? ==> AtomOf(d, words, t).c == s[0];
  }

  lemma {:induction false} DigitsRead(d: Dialect, words: set<string>, s: string)
    ensures DigitText(Reading(d, words, s)) == s[..DigitLen(s)]
    decreases |s|
  {
    if DigitLen(s) > 0 {
      DigitRead(d, words, s);
      DigitsRead(d, words, s[1..]);
      OneMoreDigit(s, DigitLen(s), Reading(d, words, s[1..]));
    } else if s != "" {
      NoDigitRead(d, words, s);
    }
  }

  lemma OneMoreDigit(s: string, n: nat, atoms: seq<Atom>)
    requires 0 < n <= |s| && IsDigit(s[0]) && DigitText(atoms) == s[1..][..n - 1]
    ensures DigitText([Mark(s[0])] + atoms) == s[..n]
  {
    DigitTextStep(s[0], atoms);
    SplitPrefixes(s, n);
  }

  lemma {:induction false} DigitsRest(d: Dialect, words: set<string>, s: string, n: nat)
    requires n == DigitLen(s)
    ensures |Reading(d, words, s)| >= n && Reading(d, words, s)[n..] == Reading(d, words, s[n..])
    decreases |s|
  {
    if n > 0 {
      DigitRead(d, words, s);
      DigitsRest(d, words, s[1..], n - 1);
      SplitPrefixes(s, n);
      SplitPrefixes(Reading(d, words, s), n);
      assert Reading(d, words, s)[1..] == Reading(d, words, s[1..]);
    } else {
      assert s[0..] == s && Reading(d, words, s)[0..] == Reading(d, words, s);
    }
  }

  lemma SplitPrefixes<T>(s: seq<T>, n: nat)
    requires 0 < n <= |s|
    ensures s[..n] == [s[0]] + s[1..][..n - 1] && s[n..] == s[1..][n - 1..]
  {
  }

  lemma {:induction false} WordHasNoHole(w: string, r: string)
    requires forall k :: 0 <= k < |w| ==> IsWordChar(w[k])
    ensures HoleText(w + r) == w + HoleText(r) && Holes(w + r) == Holes(r)
    decreases |w|
  {
    if w == "" {
      assert w + r == r;
    } else {
      WordHasNoHole(w[1..], r);
      SplitOne(w, r);
      CharHasNoHole(w[0], w[1..] + r);
      SplitOne(w, HoleText(r));
    }
  }

  lemma StepIsToken(s: string)
    requires s != "" && !First(Sqlite, s).Comment? && !First(Sqlite, s).Word? && s[0] != '?'
    ensures var t := Text(First(Sqlite, s)); StepOf(s) == Step(|t|, t, [])
  {
  }

  /** Away from holes, the walk copies one token. */
  lemma TokenCopied(s: string)
    requires s != "" && !First(Sqlite, s).Comment? && s[0] != '?'
    ensures HoleText(s) == Text(First(Sqlite, s)) + HoleText(Rest(Sqlite, s))
    ensures Holes(s) == Holes(Rest(Sqlite, s))
  {
    var t := First(Sqlite, s);
    if t.Word? {
      WordHasNoHole(t.text, Rest(Sqlite, s));
    } else {
      StepIsToken(s);
      assert s[StepOf(s).size..] == Rest(Sqlite, s);
      assert [] + Holes(Rest(Sqlite, s)) == Holes(Rest(Sqlite, s));
    }
  }

  /** The dialects agree on the statement's tokens. */
  predicate Agreed(s: string) { Lex(Mysql, s) == Lex(Sqlite, s) && CommentFree(Lex(Sqlite, s)) }

  lemma AgreedRest(s: string)
    requires s != "" && Agreed(s)
    ensures First(Mysql, s) == First(Sqlite, s) && NotRemark(First(Sqlite, s)) && Agreed(Rest(Sqlite, s))
    ensures Rest(Mysql, s) == Rest(Sqlite, s)
  {
    LexStep(Sqlite, s);
    LexStep(Mysql, s);
    assert forall i :: 0 <= i < |Lex(Sqlite, s)[1..]| ==> Lex(Sqlite, s)[1..][i] == Lex(Sqlite, s)[i + 1];
  }

  lemma AgreedAfterOne(s: string)
    requires Agreed(s) && DigitLen(s) > 0
    ensures Agreed(s[1..]) && DigitLen(s) == 1 + DigitLen(s[1..]) && s[DigitLen(s)..] == s[1..][DigitLen(s[1..])..]
  {
    AgreedRest(s);
    FirstOfDigit(Sqlite, s);
  }

  lemma {:induction false} AgreedAfterDigits(s: string)
    requires Agreed(s)
    ensures Agreed(s[DigitLen(s)..])
    decreases |s|
  {
    if DigitLen(s) > 0 {
      AgreedAfterOne(s);
      AgreedAfterDigits(s[1..]);
    } else {
      assert s[0..] == s;
    }
  }

  lemma CopiedLexes(s: string, t: Token, r: string)
    requires Agreed(s) && s != "" && s[0] != '?' && t == First(Sqlite, s) && r == Rest(Sqlite, s)
    ensures HoleText(s) == Text(t) + HoleText(r) && Holes(s) == Holes(r)
    ensures HoleText(s) != "" && First(Mysql, HoleText(s)) == t && Rest(Mysql, HoleText(s)) == HoleText(r)
  {
    AgreedRest(s);
    TokenCopied(s);
    HoleHead(r);
    FirstIsSeparate(Sqlite, s);
    FirstIsSeparate(Mysql, s);
    FirstOfText(Mysql, t, HoleText(r));
  }

  lemma OtherAtom(a: Atom, x: seq<Atom>)
    requires a != Mark('?')
    ensures DropDigits([a] + x) == [a] + DropDigits(x) && AtomHoles([a] + x) == AtomHoles(x)
  {
    assert ([a] + x)[1..] == x;
  }

  lemma CopiedRead(words: set<string>, s: string, r: string)
    requires Agreed(s) && s != "" && s[0] != '?' && r == Rest(Sqlite, s)
    requires Reading(Mysql, words, HoleText(r)) == DropDigits(Reading(Mysql, words, r))
    requires Holes(r) == AtomHoles(Reading(Mysql, words, r))
    ensures Reading(Mysql, words, HoleText(s)) == DropDigits(Reading(Mysql, words, s))
    ensures Holes(s) == AtomHoles(Reading(Mysql, words, s))
  {
    var t := First(Sqlite, s);
    AgreedRest(s);
    CopiedLexes(s, t, r);
    ReadingStep(Mysql, words, s);
    ReadingStep(Mysql, words, HoleText(s));
    OtherAtom(AtomOf(Mysql, words, t), Reading(Mysql, words, r));
  }

  lemma {:induction false} HolesRead(words: set<string>, s: string)
    requires Agreed(s)
    ensures Reading(Mysql, words, HoleText(s)) == DropDigits(Reading(Mysql, words, s))
    ensures Holes(s) == AtomHoles(Reading(Mysql, words, s))
    decreases |s|
  {
    if s != "" {
      if s[0] == '?' {
        HoleRead(words, s);
      } else {
        AgreedRest(s);
        HolesRead(words, Rest(Sqlite, s));
        CopiedRead(words, s, Rest(Sqlite, s));
      }
    }
  }

  lemma HoleStep(s: string, n: nat)
    requires s != "" && s[0] == '?' && n == DigitLen(s[1..])
    ensures HoleText(s) == "?" + HoleText(s[1..][n..])
    ensures Holes(s) == [if n == 0 then Anonymous else Numbered(Number(s[1..][..n]))] + Holes(s[1..][n..])
  {
    Slices(s, n);
    assert StepOf(s) == Step(n + 1, "?", [if n == 0 then Anonymous else Numbered(Number(s[1..n + 1]))]);
    StepUnfolds(s, StepOf(s), s[1..][n..]);
  }

  lemma StepUnfolds(s: string, p: Step, r: string)
    requires s != "" && p == StepOf(s) && r == s[p.size..]
    ensures HoleText(s) == p.text + HoleText(r) && Holes(s) == p.holes + Holes(r)
  {
  }

  lemma Slices<T>(s: seq<T>, n: nat)
    requires s != [] && n < |s|
    ensures s[1..n + 1] == s[1..][..n] && s[n + 1..] == s[1..][n..]
  {
  }

  /** A hole at the head of a reading, with the digits after it. */
  lemma HoleAtoms(a: seq<Atom>, rest: seq<Atom>, ds: string, after: seq<Atom>)
    requires a == [Mark('?')] + rest && DigitText(rest) == ds && rest[|ds|..] == after
    ensures DropDigits(a) == [Mark('?')] + DropDigits(after)
    ensures AtomHoles(a) == [if ds == "" then Anonymous else Numbered(Number(ds))] + AtomHoles(after)
  {
    assert a[1..] == rest;
  }

  lemma MarkRead(words: set<string>, u: string)
    ensures Reading(Mysql, words, "?" + u) == [Mark('?')] + Reading(Mysql, words, u)
  {
    FirstOfText(Mysql, Sym('?'), u);
    ReadingStep(Mysql, words, "?" + u);
  }

  lemma {:induction false} HoleRead(words: set<string>, s: string)
    requires Agreed(s) && s != "" && s[0] == '?'
    ensures Reading(Mysql, words, HoleText(s)) == DropDigits(Reading(Mysql, words, s))
    ensures Holes(s) == AtomHoles(Reading(Mysql, words, s))
    decreases |s|, 0
  {
    var r := s[1..];
    var n := DigitLen(r);
    assert s == "?" + r;
    MarkRead(words, r);
    AfterMark(s);
    AgreedAfterDigits(r);
    HolesRead(words, r[n..]);
    HoleStep(s, n);
    DigitsRead(Mysql, words, r);
    DigitsRest(Mysql, words, r, n);
    HoleAtoms(Reading(Mysql, words, s), Reading(Mysql, words, r), r[..n], Reading(Mysql, words, r[n..]));
    MarkRead(words, HoleText(r[n..]));
  }

  lemma AfterMark(s: string)
    requires Agreed(s) && s != "" && s[0] == '?'
    ensures Agreed(s[1..])
  {
    AgreedRest(s);
    FirstOfMark(Sqlite, s);
  }

  lemma FirstOfMark(d: Dialect, s: string)
    requires s != "" && s[0] == '?'
    ensures First(d, s) == Sym('?') && Rest(d, s) == s[1..]
  {
    assert !IsQuote(s[0]) && !IsWordStart(s[0]) && !OpensComment(d, s);
  }

  // ---- What each token becomes -------------------------------------------------------------

  /** A token the translator is written for: no comment, closed, and a plain name if double-quoted. */
  predicate Fit(t: Token) { WellFormed(Sqlite, t) && NotRemark(t) && !IsOpenLiteral(t) && PlainlyQuoted(t) }

  predicate AllFit(ts: seq<Token>) { forall i :: 0 <= i < |ts| ==> Fit(ts[i]) }

  lemma OperatorFits(us: seq<Token>)
    requires AllFit(us)
    ensures AllFit(OPERATOR + us)
  {
    assert forall i :: 0 <= i < |OPERATOR| ==> Fit(OPERATOR[i]);
  }

  lemma {:induction false} RewrittenFits(words: set<string>, named: bool, ts: seq<Token>)
    requires AllFit(ts)
    ensures AllFit(Rewritten(words, named, ts))
    decreases |ts|
  {
    if ts == [] {
    } else if named && AskLen(ts) > 0 {
      RewrittenFits(words, false, ts[AskLen(ts)..]);
      OperatorFits(Rewritten(words, false, ts[AskLen(ts)..]));
    } else {
      RewrittenFits(words, EndsName(words, ts[0]), ts[1..]);
    }
  }

  lemma QuotedFrom(words: set<string>, ts: seq<Token>, k: nat)
    requires k <= |ts|
    ensures QuoteTokens(words, ts)[k..] == QuoteTokens(words, ts[k..])
  {
  }

  lemma AskOfQuoted(words: set<string>, ts: seq<Token>)
    requires "is" !in words
    ensures AskLen(QuoteTokens(words, ts)) == AskLen(ts)
  {
    AskAlike(ts, QuoteTokens(words, ts));
  }

  lemma QuotedJoin(words: set<string>, a: seq<Token>, b: seq<Token>)
    ensures QuoteTokens(words, a + b) == QuoteTokens(words, a) + QuoteTokens(words, b)
  {
  }

  lemma OperatorIsQuoted(words: set<string>)
    ensures QuoteTokens(words, OPERATOR) == OPERATOR
  {
  }

  /** Backticking the reserved words before the rule, or after it, is the same. */
  lemma {:induction false} RewrittenQuoted(words: set<string>, named: bool, ts: seq<Token>)
    requires "is" !in words
    ensures Rewritten({}, named, QuoteTokens(words, ts)) == QuoteTokens(words, Rewritten(words, named, ts))
    decreases |ts|
  {
    var qs := QuoteTokens(words, ts);
    if ts != [] {
      AskOfQuoted(words, ts);
      var k := AskLen(ts);
      if named && k > 0 {
        QuotedFrom(words, ts, k);
        RewrittenQuoted(words, false, ts[k..]);
        QuotedJoin(words, OPERATOR, Rewritten(words, false, ts[k..]));
        OperatorIsQuoted(words);
      } else {
        QuotedFrom(words, ts, 1);
        RewrittenQuoted(words, EndsName(words, ts[0]), ts[1..]);
        QuotedJoin(words, [ts[0]], Rewritten(words, EndsName(words, ts[0]), ts[1..]));
        assert QuoteTokens(words, [ts[0]]) == [qs[0]];
      }
    }
  }

  lemma {:induction false} PlainValue(q: char, w: string)
    requires forall k :: 0 <= k < |w| ==> w[k] != q
    ensures Value(false, q, w) == w
    decreases |w|
  {
    if w != "" {
      PlainValue(q, w[1..]);
      assert w == [w[0]] + w[1..];
    }
  }

  /** What a token is in the translated text. */
  function Sent(words: set<string>, t: Token): Token { DoubleToken(RequoteToken(QuoteToken(words, t))) }

  /** To MySQL it is there what it was to SQLite. */
  lemma TokenKeepsMeaning(words: set<string>, t: Token)
    requires Fit(t)
    ensures AtomOf(Mysql, words, Sent(words, t)) == AtomOf(Sqlite, words, t)
  {
    if t.Word? {
      WordThenMore(t.text, "");
      forall k | 0 <= k < |t.text| ensures t.text[k] != '`' { assert IsWordChar(t.text[k]); }
      PlainValue('`', t.text);
    } else if IsDoubleQuoted(t) {
      forall k | 0 <= k < |t.body| ensures t.body[k] != '`' && t.body[k] != '"' { assert IsWordStart(t.body[k]) || IsDigit(t.body[k]); }
      PlainValue('`', t.body);
      PlainValue('"', t.body);
    } else if t.Span? && t.quote == '\'' {
      DoubledValue(t.body);
    }
  }

  lemma {:induction false} LexWellFormed(s: string)
    requires CommentFree(Lex(Sqlite, s))
    ensures forall i :: 0 <= i < |Lex(Sqlite, s)| ==> WellFormed(Sqlite, Lex(Sqlite, s)[i])
    decreases |s|
  {
    if s != "" {
      var ts := Lex(Sqlite, s);
      LexStep(Sqlite, s);
      assert forall i :: 0 <= i < |ts[1..]| ==> ts[1..][i] == ts[i + 1];
      FirstIsSeparate(Sqlite, s);
      LexWellFormed(Rest(Sqlite, s));
      forall i | 0 <= i < |ts| ensures WellFormed(Sqlite, ts[i]) {
        if i > 0 { assert ts[i] == ts[1..][i - 1]; }
      }
    }
  }

  // ---- The holes stay ----------------------------------------------------------------------

  lemma HoleThenDigits(x: seq<Atom>)
    ensures AtomHoles([Mark('?')] + x)
            == [if DigitText(x) == "" then Anonymous else Numbered(Number(DigitText(x)))] + AtomHoles(x)
  {
    assert ([Mark('?')] + x)[1..] == x;
    DigitsHoldNoHole(x);
  }

  lemma {:induction false} DigitsHoldNoHole(x: seq<Atom>)
    ensures AtomHoles(x[|DigitText(x)|..]) == AtomHoles(x)
  {
    if DigitText(x) == "" {
      assert x[0..] == x;
    } else {
      DigitsHoldNoHole(x[1..]);
      assert x[1..][|DigitText(x[1..])|..] == x[|DigitText(x)|..];
    }
  }

  /** The holes of tokens, read by SQLite, and the digits they begin with. */
  function HolesOf(words: set<string>, ts: seq<Token>): seq<Hole> { AtomHoles(Atoms(Sqlite, words, ts)) }

  function DigitsOf(words: set<string>, ts: seq<Token>): string { DigitText(Atoms(Sqlite, words, ts)) }

  function HoleOf(digits: string): Hole { if digits == "" then Anonymous else Numbered(Number(digits)) }

  lemma HolesOfMore(words: set<string>, t: Token, ts: seq<Token>)
    ensures HolesOf(words, [t] + ts) == (if t == Sym('?') then [HoleOf(DigitsOf(words, ts))] else []) + HolesOf(words, ts)
    ensures DigitsOf(words, [t] + ts) == if t.Sym? && IsDigit(t.c) then [t.c] + DigitsOf(words, ts) else ""
  {
    var a, x := AtomOf(Sqlite, words, t), Atoms(Sqlite, words, ts);
    assert ([t] + ts)[1..] == ts && Atoms(Sqlite, words, [t] + ts) == [a] + x;
    assert ([a] + x)[1..] == x;
    if t == Sym('?') {
      HoleThenDigits(x);
    } else {
      OtherAtom(a, x);
    }
  }

  lemma {:induction false} SkipToHole(words: set<string>, ts: seq<Token>, k: nat)
    requires 0 < k <= |ts| && ts[k - 1] == Sym('?') && forall j :: 0 <= j < k - 1 ==> ts[j] != Sym('?')
    ensures HolesOf(words, ts) == [HoleOf(DigitsOf(words, ts[k..]))] + HolesOf(words, ts[k..])
    decreases k
  {
    HolesFirst(words, ts);
    if k > 1 {
      assert ts[0] != Sym('?') && HolesOf(words, ts) == HolesOf(words, ts[1..]);
      forall j | 0 <= j < k - 2 ensures ts[1..][j] != Sym('?') { assert ts[1..][j] == ts[j + 1]; }
      SkipToHole(words, ts[1..], k - 1);
      DropTo(ts, 1, k - 1, k);
    }
  }

  lemma HolesFirst(words: set<string>, ts: seq<Token>)
    requires ts != []
    ensures HolesOf(words, ts) == (if ts[0] == Sym('?') then [HoleOf(DigitsOf(words, ts[1..]))] else []) + HolesOf(words, ts[1..])
  {
    assert ts == [ts[0]] + ts[1..];
    HolesOfMore(words, ts[0], ts[1..]);
  }

  lemma AskEndsInHole(ts: seq<Token>, k: nat)
    requires k == AskLen(ts) > 0
    ensures ts[k - 1] == Sym('?') && IsBlank(ts[0]) && forall j :: 0 <= j < k - 1 ==> ts[j] != Sym('?')
  {
    var a := Blanks(ts);
    var vs := ts[a + 1..];
    forall j | 0 <= j < k - 1 ensures ts[j] != Sym('?') {
      if j > a { assert ts[j] == vs[j - a - 1]; }
    }
    assert ts[k - 1] == vs[Blanks(vs)];
  }

  lemma OperatorHole(words: set<string>, us: seq<Token>)
    ensures HolesOf(words, OPERATOR + us) == [HoleOf(DigitsOf(words, us))] + HolesOf(words, us)
    ensures DigitsOf(words, OPERATOR + us) == ""
  {
    var ts := OPERATOR + us;
    assert ts[6..] == us;
    SkipToHole(words, ts, 6);
    HolesOfMore(words, ts[0], ts[1..]);
    assert ts == [ts[0]] + ts[1..];
  }

  lemma NoDigitFirst(words: set<string>, ts: seq<Token>)
    requires ts != [] && IsBlank(ts[0])
    ensures DigitsOf(words, ts) == ""
  {
    HolesOfMore(words, ts[0], ts[1..]);
    assert ts == [ts[0]] + ts[1..];
  }

  /** The null-safe rule changes no hole and no number of one. */
  lemma {:induction false} RewrittenHoles(words: set<string>, named: bool, ts: seq<Token>)
    ensures HolesOf(words, Rewritten(words, named, ts)) == HolesOf(words, ts)
    ensures DigitsOf(words, Rewritten(words, named, ts)) == DigitsOf(words, ts)
    decreases |ts|
  {
    if ts == [] {
    } else if named && AskLen(ts) > 0 {
      var k := AskLen(ts);
      RewrittenHoles(words, false, ts[k..]);
      OperatorHole(words, Rewritten(words, false, ts[k..]));
      AskEndsInHole(ts, k);
      SkipToHole(words, ts, k);
      NoDigitFirst(words, ts);
    } else {
      var after := EndsName(words, ts[0]);
      RewrittenHoles(words, after, ts[1..]);
      HolesOfMore(words, ts[0], Rewritten(words, after, ts[1..]));
      HolesOfMore(words, ts[0], ts[1..]);
      assert ts == [ts[0]] + ts[1..];
    }
  }

  /** A name is asked `IS ?` at this token. */
  predicate NameAsked(words: set<string>, ts: seq<Token>, i: nat) {
    0 < i < |ts| && EndsName(words, ts[i - 1]) && AskLen(ts[i..]) > 0
  }

  lemma NameAskedLater(words: set<string>, ts: seq<Token>, i: nat)
    requires 0 < i && ts != []
    ensures NameAsked(words, ts[1..], i) <==> NameAsked(words, ts, i + 1)
  {
    if i < |ts| - 1 { assert ts[1..][i..] == ts[i + 1..]; }
  }

  lemma OperatorDiffers(ts: seq<Token>, us: seq<Token>)
    requires AskLen(ts) > 0
    ensures OPERATOR + us != ts
  {
    assert (OPERATOR + us)[1] == Sym('<');
    assert IsBlank(ts[1]) || ts[1].Word?;
  }

  lemma SameAfterFirst(t: Token, us: seq<Token>, ts: seq<Token>)
    requires ts != [] && t == ts[0]
    ensures [t] + us == ts <==> us == ts[1..]
  {
    assert ([t] + us)[1..] == us && ts == [ts[0]] + ts[1..];
  }

  /** The rule leaves the tokens of a statement alone exactly when no name in it is asked. */
  lemma {:induction false} UnaskedIsKept(words: set<string>, named: bool, ts: seq<Token>)
    ensures Rewritten(words, named, ts) == ts
            <==> !(named && AskLen(ts) > 0) && forall i: nat :: !NameAsked(words, ts, i)
    decreases |ts|
  {
    if ts == [] {
    } else if named && AskLen(ts) > 0 {
      OperatorDiffers(ts, Rewritten(words, false, ts[AskLen(ts)..]));
    } else {
      var after := EndsName(words, ts[0]);
      UnaskedIsKept(words, after, ts[1..]);
      SameAfterFirst(ts[0], Rewritten(words, after, ts[1..]), ts);
      assert |ts| > 1 ==> (NameAsked(words, ts, 1) <==> after && AskLen(ts[1..]) > 0);
      forall i: nat ensures !NameAsked(words, ts[1..], i) <==> i == 0 || !NameAsked(words, ts, i + 1) {
        if i > 0 { NameAskedLater(words, ts, i); }
      }
      assert forall i: nat :: NameAsked(words, ts, i) ==> i == 1 || NameAsked(words, ts[1..], i - 1);
    }
  }

  // ---- The theorem -------------------------------------------------------------------------

  /**
   What the translator is written for: `is` no reserved word, no comments, every literal closed, only plain names
   double-quoted, and no two backticked names side by side once they all are.
   */
  predicate Translatable(words: set<string>, s: string) {
    var ts := Lex(Sqlite, s);
    && "is" !in words && CommentFree(ts) && AllPlainlyQuoted(ts) && TicksApart(QuoteTokens(words, ts))
    && forall i :: 0 <= i < |ts| ==> !IsOpenLiteral(ts[i])
  }

  /** What SQLite reads, with MySQL's null-safe equality where a bare name is asked `IS ?`. */
  function Understood(words: set<string>, s: string): seq<Atom> {
    Atoms(Sqlite, words, Rewritten(words, false, Lex(Sqlite, s)))
  }

  lemma {:induction false} ApartAt(ts: seq<Token>, i: nat)
    requires TicksApart(ts) && i + 1 < |ts|
    ensures !(IsTick(RequoteToken(ts[i])) && IsTick(RequoteToken(ts[i + 1])))
    decreases i
  {
    if i > 0 { ApartAt(ts[1..], i - 1); }
  }

  lemma NothingTouches(words: set<string>, ts: seq<Token>)
    requires TicksApart(QuoteTokens(words, ts))
    ensures !WordTouchesTick(words, ts)
  {
    forall i | 0 <= i < |ts| - 1 ensures !(IsTick(QuoteToken(words, ts[i])) && IsTick(QuoteToken(words, ts[i + 1]))) {
      ApartAt(QuoteTokens(words, ts), i);
    }
  }

  /** The text after quoting and both rules, as tokens. */
  lemma RuledTokens(words: set<string>, s: string)
    requires Translatable(words, s)
    ensures Lex(Sqlite, MapText(Rules, QuoteText(words, s)))
            == RequoteTokens(QuoteTokens(words, Rewritten(words, false, Lex(Sqlite, s))))
  {
    var ts, q := Lex(Sqlite, s), QuoteText(words, s);
    NothingTouches(words, ts);
    QuotingKeepsTokens(words, s);
    QuotedShape(words, ts);
    RulesOnTokens(q);
    RewrittenQuoted(words, false, ts);
  }

  lemma QuotedShape(words: set<string>, ts: seq<Token>)
    requires CommentFree(ts) && AllPlainlyQuoted(ts)
    ensures CommentFree(QuoteTokens(words, ts)) && AllPlainlyQuoted(QuoteTokens(words, ts))
  {
  }

  lemma FitIsSentPortable(words: set<string>, t: Token)
    requires Fit(t)
    ensures NotRemark(RequoteToken(QuoteToken(words, t))) && Portable(RequoteToken(QuoteToken(words, t)))
  {
  }

  /** The tokens both dialects read in the translated text. */
  lemma SentTokens(words: set<string>, s: string, us: seq<Token>, vs: seq<Token>)
    requires Translatable(words, s)
    requires us == Rewritten(words, false, Lex(Sqlite, s)) && vs == RequoteTokens(QuoteTokens(words, us))
    ensures var text := DoubleText(MapText(Rules, QuoteText(words, s)));
      Lex(Mysql, text) == Lex(Sqlite, text) == DoubleTokens(vs)
    ensures AllFit(us) && CommentFree(DoubleTokens(vs))
  {
    var ruled := MapText(Rules, QuoteText(words, s));
    LexWellFormed(s);
    RewrittenFits(words, false, Lex(Sqlite, s));
    RuledTokens(words, s);
    forall i | 0 <= i < |vs| ensures NotRemark(vs[i]) && Portable(vs[i]) { FitIsSentPortable(words, us[i]); }
    DoubledLex(Mysql, ruled);
    DoubledLex(Sqlite, ruled);
  }

  /** The translated text is to MySQL, atom by atom, what was understood. */
  lemma TextKeepsMeaning(words: set<string>, s: string)
    requires Translatable(words, s)
    ensures var text := DoubleText(MapText(Rules, QuoteText(words, s)));
      Reading(Mysql, words, text) == Understood(words, s) && Agreed(text)
  {
    var us := Rewritten(words, false, Lex(Sqlite, s));
    var vs := RequoteTokens(QuoteTokens(words, us));
    SentTokens(words, s, us, vs);
    forall i | 0 <= i < |us| ensures AtomOf(Mysql, words, DoubleTokens(vs)[i]) == AtomOf(Sqlite, words, us[i]) {
      TokenKeepsMeaning(words, us[i]);
    }
  }

  lemma SentAlike(words: set<string>, t: Token)
    requires "is" !in words && Fit(t)
    ensures Alike(t, Sent(words, t))
  {
  }

  /**
   Exactly when MySQL is sent an `IS ?` it has no meaning for: if and only if the statement has one
   that no bare name stands directly before -- a reserved word is none, having been backticked.
   */
  lemma LeftInTranslation(words: set<string>, s: string)
    requires Translatable(words, s)
    ensures AsksAtAll(Lex(Mysql, DoubleText(MapText(Rules, QuoteText(words, s))))) <==> AsksNameless(words, Lex(Sqlite, s))
  {
    var us := Rewritten(words, false, Lex(Sqlite, s));
    var vs := RequoteTokens(QuoteTokens(words, us));
    SentTokens(words, s, us, vs);
    AsksLeft(words, Lex(Sqlite, s));
    forall i | 0 <= i < |us| ensures Alike(us[i], DoubleTokens(vs)[i]) { SentAlike(words, us[i]); }
    AsksAlike(us, DoubleTokens(vs));
  }

  /** A statement in which no name is asked `IS ?` reads in MySQL exactly as in SQLite. */
  lemma UnaskedReadsAlike(words: set<string>, s: string)
    requires Translatable(words, s)
    requires forall i: nat :: !NameAsked(words, Lex(Sqlite, s), i)
    ensures Reading(Mysql, words, DoubleText(MapText(Rules, QuoteText(words, s)))) == Reading(Sqlite, words, s)
  {
    TextKeepsMeaning(words, s);
    UnaskedIsKept(words, false, Lex(Sqlite, s));
  }

  /**
   A statement is refused for `IS NOT ?` exactly when its tokens say so: a bare word `is`, blanks, a
   bare word `not`, blanks and a placeholder in a row. `IS NOT NULL` is not refused.
   */
  lemma RefusedExactly<V>(words: set<string>, s: string, params: seq<V>)
    requires Translatable(words, s)
    ensures Translate(words, s, params) == None <==> RefusedSomewhere(words, Lex(Sqlite, s))
  {
    var ts := Lex(Sqlite, s);
    NothingTouches(words, ts);
    QuotingKeepsTokens(words, s);
    QuotedShape(words, ts);
    RefusedOnTokens(QuoteText(words, s));
    RefusedBeforeQuoting(words, ts);
  }

  /**
   Whenever the translator accepts a statement, MySQL reads the result, every hole filled, as
   SQLite reads the original, `name IS ?` said with MySQL's null-safe equality; it refuses exactly
   the statements that ask `IS NOT ?`, mix the two kinds of hole, or name a parameter that was not
   bound.
   */
  lemma TranslationKeepsMeaning<V>(words: set<string>, s: string, params: seq<V>)
    requires Translatable(words, s)
    ensures var atoms := Understood(words, s); var hs := AtomHoles(Reading(Sqlite, words, s));
      match Translate(words, s, params)
      case None => RefusedSomewhere(words, Lex(Sqlite, s))
      case Some(Bound(sql, bound)) =>
        && MysqlFill(Reading(Mysql, words, sql), bound) == SqliteFill(atoms, params, 0)
        && !RefusedSomewhere(words, Lex(Sqlite, s))
        && (AllAnonymous(hs) || (AllNumbered(hs) && forall k :: 0 <= k < |hs| ==> hs[k].n <= |params|))
      case Some(MixedForms) => !RefusedSomewhere(words, Lex(Sqlite, s)) && !AllAnonymous(hs) && !AllNumbered(hs)
      case Some(TooFewBound(max)) => !RefusedSomewhere(words, Lex(Sqlite, s)) && AllNumbered(hs) && max > |params| && Numbered(max) in hs
  {
    var text := DoubleText(MapText(Rules, QuoteText(words, s)));
    RefusedExactly(words, s, params);
    TextKeepsMeaning(words, s);
    HolesRead(words, text);
    RewrittenHoles(words, false, Lex(Sqlite, s));
    RewritingBindsEveryHole(text, params);
    var atoms, hs := Understood(words, s), Holes(text);
    NumbersOfHoles(hs);
    if Numbers(hs) == [] {
      AnonymousFill(atoms, params, 0);
      assert Remaining(params, 0) == Present(params);
    } else if AllNumbered(hs) {
      NumberedFill(atoms, params, 0);
    }
  }
}
