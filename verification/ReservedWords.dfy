/** Backticking the reserved words a schema uses as column names. */
module ReservedWords {
  import opened SqlLexer

  const SCHEMA_RESERVED: set<string> := {"key", "trigger"}

  function LowerChar(c: char): char {
    if 'A' <= c <= 'Z' then (c as int + 32) as char else c
  }

  function Lower(s: string): (r: string)
    ensures |r| == |s|
  {
    seq(|s|, i requires 0 <= i < |s| => LowerChar(s[i]))
  }

  predicate IsReserved(words: set<string>, t: Token) {
    t.Word? && Lower(t.text) in words
  }

  function QuoteToken(words: set<string>, t: Token): Token {
    if IsReserved(words, t) then Span('`', t.text, true) else t
  }

  function QuoteTokens(words: set<string>, ts: seq<Token>): (r: seq<Token>)
    ensures |r| == |ts|
    ensures forall i :: 0 <= i < |ts| ==> r[i] == QuoteToken(words, ts[i])
  {
    if ts == [] then [] else [QuoteToken(words, ts[0])] + QuoteTokens(words, ts[1..])
  }

  /** The statement with exactly its reserved bare words backticked. */
  function QuoteText(words: set<string>, s: string): string {
    Render(QuoteTokens(words, Lex(Sqlite, s)))
  }

  lemma QuoteStep(words: set<string>, s: string)
    requires s != ""
    ensures QuoteText(words, s) == Text(QuoteToken(words, First(Sqlite, s))) + QuoteText(words, Rest(Sqlite, s))
  {
    assert Lex(Sqlite, s)[1..] == Lex(Sqlite, Rest(Sqlite, s));
  }

  /** The rest of a span, one character or one doubled quote further on. */
  lemma BodyFrom(text: string, q: char, j: nat)
    requires j < |text|
    ensures text[j] != q ==> BodyLen(false, q, text[j..]) == 1 + BodyLen(false, q, text[j + 1..])
    ensures text[j] == q ==>
              BodyLen(false, q, text[j..])
              == if j + 1 < |text| && text[j + 1] == q then 2 + BodyLen(false, q, text[j + 2..]) else 0
  {
    assert text[j..][1..] == text[j + 1..];
    if j + 1 < |text| { assert text[j..][2..] == text[j + 2..]; }
  }

  /** How far a walk through a span has come. */
  ghost predicate InSpan(text: string, i: nat, j: nat) {
    i < j <= |text| && BodyLen(false, text[i], text[i + 1..]) == j - (i + 1) + BodyLen(false, text[i], text[j..])
  }

  lemma SpanOn(text: string, i: nat, j: nat)
    requires InSpan(text, i, j) && j < |text|
    ensures text[j] != text[i] ==> InSpan(text, i, j + 1)
    ensures text[j] == text[i] && j + 1 < |text| && text[j + 1] == text[i] ==> InSpan(text, i, j + 2)
    ensures text[j] == text[i] && !(j + 1 < |text| && text[j + 1] == text[i]) ==>
              BodyLen(false, text[i], text[i + 1..]) == j - (i + 1)
  {
    BodyFrom(text, text[i], j);
  }

  /** Where the span opened at i closes: the index of its closing quote, or the end of the text. */
  method CloseOfSpan(text: string, i: nat) returns (j: nat)
    requires i < |text|
    ensures j == i + 1 + BodyLen(false, text[i], text[i + 1..])
  {
    j := i + 1;
    while j < |text|
      invariant InSpan(text, i, j)
    {
      SpanOn(text, i, j);
      if text[j] == text[i] {
        if j + 1 < |text| && text[j + 1] == text[i] {
          j := j + 2;
          continue;
        }
        return;
      }
      j := j + 1;
    }
  }

  /** The index just after the token that starts at i. */
  function TokenEnd(text: string, i: nat): (j: nat)
    requires i < |text|
    ensures i < j <= |text|
  {
    i + |Text(First(Sqlite, text[i..]))|
  }

  lemma TokenAt(text: string, i: nat)
    requires i < |text|
    ensures var t, ch := First(Sqlite, text[i..]), text[i];
      if IsQuote(ch) then
        var j := i + 1 + BodyLen(false, ch, text[i + 1..]);
        !t.Word? && TokenEnd(text, i) == if j < |text| then j + 1 else |text|
      else if ch == '-' && i + 1 < |text| && text[i + 1] == '-' then
        !t.Word? && TokenEnd(text, i) == i + LineLen(text[i..])
      else if ch == '/' && i + 1 < |text| && text[i + 1] == '*' then
        !t.Word? && TokenEnd(text, i) == i + 2 + BlockLen(text[i + 2..])
      else if IsWordStart(ch) then
        t == Word(text[i..TokenEnd(text, i)]) && TokenEnd(text, i) == i + WordLen(text[i..])
      else t == Sym(ch) && TokenEnd(text, i) == i + 1
  {
    assert text[i..][1..] == text[i + 1..];
    if i + 1 < |text| { assert text[i..][2..] == text[i + 2..]; }
    if IsWordStart(text[i]) { assert text[i..][..WordLen(text[i..])] == text[i..i + WordLen(text[i..])]; }
  }

  /** The walk has written the rewriting of the first i characters. */
  ghost predicate Written(words: set<string>, text: string, i: nat, out: string) {
    i <= |text| && out + QuoteText(words, text[i..]) == QuoteText(words, text)
  }

  lemma StepAt(words: set<string>, text: string, i: nat, out: string, j: nat, piece: string)
    requires i < |text| && j == TokenEnd(text, i) && Written(words, text, i, out)
    requires piece == Text(QuoteToken(words, First(Sqlite, text[i..])))
    ensures Written(words, text, j, out + piece)
  {
    QuoteStep(words, text[i..]);
    RestAt(text, i, j);
    Associate(out, piece, QuoteText(words, text[j..]));
  }

  lemma RestAt(text: string, i: nat, j: nat)
    requires i < |text| && j == TokenEnd(text, i)
    ensures Rest(Sqlite, text[i..]) == text[j..]
  {
  }

  lemma KeptAt(words: set<string>, text: string, i: nat)
    requires i < |text| && !IsReserved(words, First(Sqlite, text[i..]))
    ensures Text(QuoteToken(words, First(Sqlite, text[i..]))) == text[i..TokenEnd(text, i)]
  {
    var t := First(Sqlite, text[i..]);
    assert text[i..][..|Text(t)|] == text[i..TokenEnd(text, i)];
  }

  method QuoteReservedIdentifiers(text: string, words: set<string>) returns (out: string)
    ensures out == QuoteText(words, text)
  {
    out := "";
    var i := 0;
    assert text[0..] == text;
    while i < |text|
      invariant Written(words, text, i, out)
    {
      var ch := text[i];
      var j, piece;
      TokenAt(text, i);
      if IsQuote(ch) {
        j := CloseOfSpan(text, i);
        j := if j < |text| then j + 1 else |text|;
        piece := text[i..j];
        KeptAt(words, text, i);
      } else if ch == '-' && i + 1 < |text| && text[i + 1] == '-' {
        j := i + LineLen(text[i..]);
        piece := text[i..j];
        KeptAt(words, text, i);
      } else if ch == '/' && i + 1 < |text| && text[i + 1] == '*' {
        j := i + 2 + BlockLen(text[i + 2..]);
        piece := text[i..j];
        KeptAt(words, text, i);
      } else if IsWordStart(ch) {
        j := WordEnd(text, i);
        var word := text[i..j];
        piece := if Lower(word) in words then "`" + word + "`" else word;
      } else {
        j, piece := i + 1, [ch];
      }
      StepAt(words, text, i, out, j, piece);
      out, i := out + piece, j;
    }
    assert text[i..] == "";
  }

  method WordEnd(text: string, i: nat) returns (j: nat)
    requires i <= |text|
    ensures j == i + WordLen(text[i..])
  {
    j := i;
    while j < |text| && IsWordChar(text[j])
      invariant i <= j <= |text|
      invariant WordLen(text[i..]) == j - i + WordLen(text[j..])
    {
      assert text[j..][1..] == text[j + 1..];
      j := j + 1;
    }
  }

  // ---- Idempotence, on every text ---------------------------------------------------------

  predicate NoReserved(words: set<string>, ts: seq<Token>) {
    ts == [] || (!IsReserved(words, ts[0]) && NoReserved(words, ts[1..]))
  }

  /** What the rewritten rest of a statement can start with. */
  lemma QuoteHead(words: set<string>, s: string)
    ensures s == "" <==> QuoteText(words, s) == ""
    ensures s != "" ==>
              QuoteText(words, s)[0] == (if IsReserved(words, First(Sqlite, s)) then '`' else s[0])
  {
    if s != "" { QuoteStep(words, s); }
  }

  /** A token that is kept cannot run into the rewritten rest, unless both are backticked. */
  lemma KeptTokenStands(words: set<string>, s: string)
    requires s != ""
    requires var t := First(Sqlite, s);
      !IsReserved(words, t) && !(t.Span? && t.quote == '`')
    ensures QuoteText(words, s) != "" && First(Sqlite, QuoteText(words, s)) == First(Sqlite, s)
    ensures Rest(Sqlite, QuoteText(words, s)) == QuoteText(words, Rest(Sqlite, s))
  {
    var t, r := First(Sqlite, s), Rest(Sqlite, s);
    QuoteStep(words, s);
    QuoteHead(words, r);
    if t.Comment? {
      CommentStands(s, QuoteText(words, r));
    } else {
      FirstIsSeparate(Sqlite, s);
      FirstOfText(Sqlite, t, QuoteText(words, r));
    }
  }

  lemma {:induction false} LineThenMore(s: string, u: string)
    requires u == "" || u[0] == '\n'
    ensures LineLen(s[..LineLen(s)] + u) == LineLen(s)
    decreases |s|
  {
    if s == "" || s[0] == '\n' {
      assert s[..LineLen(s)] + u == u;
    } else {
      LineThenMore(s[1..], u);
      assert (s[..LineLen(s)] + u)[1..] == s[1..][..LineLen(s[1..])] + u;
    }
  }

  lemma {:induction false} BlockThenMore(s: string, u: string)
    requires BlockLen(s) == |s| ==> u == ""
    ensures BlockLen(s[..BlockLen(s)] + u) == BlockLen(s)
    decreases |s|
  {
    var w := s[..BlockLen(s)] + u;
    if |s| < 2 {
      assert w == s;
    } else if s[0] == '*' && s[1] == '/' {
    } else {
      assert w[1..] == s[1..][..BlockLen(s[1..])] + u;
      BlockThenMore(s[1..], u);
    }
  }

  lemma CommentStands(s: string, u: string)
    requires s != "" && First(Sqlite, s).Comment?
    requires var r := Rest(Sqlite, s); (r == "" <==> u == "") && (r != "" && !IsWordStart(r[0]) ==> u[0] == r[0])
    ensures First(Sqlite, Text(First(Sqlite, s)) + u) == First(Sqlite, s)
    ensures Rest(Sqlite, Text(First(Sqlite, s)) + u) == u
  {
    var c, w := Text(First(Sqlite, s)), Text(First(Sqlite, s)) + u;
    if s[0] == '-' {
      assert s[1] == '-' && !IsWordStart('\n');
      LineThenMore(s, u);
    } else {
      assert c == s[..2] + s[2..][..BlockLen(s[2..])];
      assert w[2..] == s[2..][..BlockLen(s[2..])] + u;
      BlockThenMore(s[2..], u);
    }
    assert w[..|c|] == c;
  }

  /** A backtick span: a complete quoted identifier. */
  predicate IsTick(t: Token) { t.Span? && t.quote == '`' }

  predicate GoodTick(t: Token) { IsTick(t) && WellFormed(Sqlite, t) }

  lemma {:induction false} TicksMerge(b: string, c: string, e: string)
    requires BodyLen(false, '`', b + "`") == |b|
    ensures BodyLen(false, '`', b + "``" + c + e) == |b| + 2 + BodyLen(false, '`', c + e)
    decreases |b|
  {
    var s := b + "``" + c + e;
    if b == "" {
      assert s[2..] == c + e;
    } else if b[0] == '`' {
      assert (b + "`")[2..] == b[2..] + "`" && s[2..] == b[2..] + "``" + c + e;
      TicksMerge(b[2..], c, e);
    } else {
      assert (b + "`")[1..] == b[1..] + "`" && s[1..] == b[1..] + "``" + c + e;
      TicksMerge(b[1..], c, e);
    }
  }

  /** Two backtick spans written back to back read as one. */
  lemma MergedTick(t: Token, u: Token) returns (m: Token)
    requires GoodTick(t) && t.closed && GoodTick(u)
    ensures GoodTick(m) && m.closed == u.closed && Text(m) == Text(t) + Text(u)
  {
    m := Span('`', t.body + "``" + u.body, u.closed);
    TicksMerge(t.body, u.body, if u.closed then "`" else "");
    assert u.body + "" == u.body && t.body + "``" + u.body + "" == m.body;
  }

  lemma {:induction false} WordIsTick(w: string)
    requires forall k :: 0 <= k < |w| ==> IsWordChar(w[k])
    ensures BodyLen(false, '`', w + "`") == |w|
    decreases |w|
  {
    if w != "" {
      WordIsTick(w[1..]);
      assert (w + "`")[1..] == w[1..] + "`";
    }
  }

  lemma RewrittenTick(words: set<string>, s: string)
    requires s != "" && IsTick(QuoteToken(words, First(Sqlite, s)))
    ensures GoodTick(QuoteToken(words, First(Sqlite, s)))
    ensures !QuoteToken(words, First(Sqlite, s)).closed ==> Rest(Sqlite, s) == ""
  {
    FirstIsSeparate(Sqlite, s);
    if First(Sqlite, s).Word? { WordIsTick(First(Sqlite, s).text); }
  }

  /** Rewriting again finds no bare reserved word. */
  lemma {:induction false} NoneLeft(words: set<string>, s: string)
    ensures NoReserved(words, Lex(Sqlite, QuoteText(words, s)))
    decreases |s|, 0
  {
    if s != "" {
      QuoteStep(words, s);
      if IsTick(QuoteToken(words, First(Sqlite, s))) {
        RewrittenTick(words, s);
        NoneLeftAfterTick(words, QuoteToken(words, First(Sqlite, s)), Rest(Sqlite, s), QuoteText(words, s));
      } else {
        KeptTokenStands(words, s);
        LexStep(Sqlite, QuoteText(words, s));
        NoneLeft(words, Rest(Sqlite, s));
      }
    }
  }

  lemma TickBeforeTick(words: set<string>, tick: Token, s: string) returns (m: Token)
    requires GoodTick(tick) && tick.closed
    requires s != "" && IsTick(QuoteToken(words, First(Sqlite, s)))
    ensures GoodTick(m) && (!m.closed ==> Rest(Sqlite, s) == "")
    ensures Text(tick) + QuoteText(words, s) == Text(m) + QuoteText(words, Rest(Sqlite, s))
  {
    var q, u := QuoteToken(words, First(Sqlite, s)), QuoteText(words, Rest(Sqlite, s));
    RewrittenTick(words, s);
    QuoteStep(words, s);
    m := MergedTick(tick, q);
    Associate(Text(tick), Text(q), u);
  }

  lemma {:induction false} NoneLeftAfterTick(words: set<string>, tick: Token, s: string, w: string)
    requires GoodTick(tick) && (!tick.closed ==> s == "")
    requires w == Text(tick) + QuoteText(words, s)
    ensures NoReserved(words, Lex(Sqlite, w))
    decreases |s|, 1
  {
    if s != "" && IsTick(QuoteToken(words, First(Sqlite, s))) {
      var m := TickBeforeTick(words, tick, s);
      NoneLeftAfterTick(words, m, Rest(Sqlite, s), w);
    } else {
      QuoteHead(words, s);
      FirstOfText(Sqlite, tick, QuoteText(words, s));
      LexStep(Sqlite, w);
      NoneLeft(words, s);
    }
  }

  lemma {:induction false} NothingToQuote(words: set<string>, ts: seq<Token>)
    requires NoReserved(words, ts)
    ensures QuoteTokens(words, ts) == ts
  {
    if ts != [] { NothingToQuote(words, ts[1..]); }
  }

  lemma {:induction false} NoneReservedIn(words: set<string>, ts: seq<Token>, t: Token)
    requires NoReserved(words, ts) && t in ts
    ensures !IsReserved(words, t)
  {
    if t != ts[0] { NoneReservedIn(words, ts[1..], t); }
  }

  /** In what MySQL is sent no bare word is `key` or `trigger` in any case, and no other token was quoted. */
  lemma OnlyKeyAndTrigger(s: string, t: Token)
    ensures t in Lex(Sqlite, QuoteText(SCHEMA_RESERVED, s)) && t.Word? ==> Lower(t.text) != "key" && Lower(t.text) != "trigger"
    ensures QuoteToken(SCHEMA_RESERVED, t) != t <==> t.Word? && (Lower(t.text) == "key" || Lower(t.text) == "trigger")
  {
    NoneLeft(SCHEMA_RESERVED, s);
    if t in Lex(Sqlite, QuoteText(SCHEMA_RESERVED, s)) {
      NoneReservedIn(SCHEMA_RESERVED, Lex(Sqlite, QuoteText(SCHEMA_RESERVED, s)), t);
    }
  }

  /** Translating twice is translating once: for every text, quotes and comments included. */
  lemma QuotingIsIdempotent(words: set<string>, s: string)
    ensures QuoteText(words, QuoteText(words, s)) == QuoteText(words, s)
  {
    var w := QuoteText(words, s);
    NoneLeft(words, s);
    NothingToQuote(words, Lex(Sqlite, w));
    RenderLex(Sqlite, w);
  }

  // ---- What the rewritten statement lexes to ----------------------------------------------

  /** Some reserved bare word stands directly against a backtick. */
  predicate WordTouchesTick(words: set<string>, ts: seq<Token>) {
    exists i :: 0 <= i < |ts| - 1 && IsTick(QuoteToken(words, ts[i])) && IsTick(QuoteToken(words, ts[i + 1]))
  }

  lemma {:induction false} TicksNeverAdjacent(s: string)
    ensures var ts := Lex(Sqlite, s); forall i :: 0 <= i < |ts| - 1 ==> !(IsTick(ts[i]) && IsTick(ts[i + 1]))
    decreases |s|
  {
    if s != "" {
      var t, r := First(Sqlite, s), Rest(Sqlite, s);
      TicksNeverAdjacent(r);
      LexStep(Sqlite, s);
      var ts := Lex(Sqlite, s);
      forall i | 0 <= i < |ts| - 1 ensures !(IsTick(ts[i]) && IsTick(ts[i + 1])) {
        assert ts[i + 1] == ts[1..][i];
        if i > 0 {
          assert ts[i] == ts[1..][i - 1];
        } else if IsTick(t) {
          FirstIsSeparate(Sqlite, s);
          assert ts[1] == First(Sqlite, r);
        }
      }
    }
  }

  lemma {:induction false} QuotedLex(words: set<string>, s: string)
    requires !WordTouchesTick(words, Lex(Sqlite, s))
    ensures Lex(Sqlite, QuoteText(words, s)) == QuoteTokens(words, Lex(Sqlite, s))
    decreases |s|
  {
    if s != "" {
      var ts, t, r := Lex(Sqlite, s), First(Sqlite, s), Rest(Sqlite, s);
      assert ts[1..] == Lex(Sqlite, r);
      forall i | 0 <= i < |ts[1..]| - 1
        ensures !(IsTick(QuoteToken(words, ts[1..][i])) && IsTick(QuoteToken(words, ts[1..][i + 1])))
      {
        assert ts[1..][i] == ts[i + 1] && ts[1..][i + 1] == ts[i + 2];
      }
      QuotedLex(words, r);
      QuoteStep(words, s);
      var q := QuoteToken(words, t);
      if IsTick(q) {
        RewrittenTick(words, s);
        QuoteHead(words, r);
        if r != "" {
          assert ts[1] == First(Sqlite, r) && !IsTick(QuoteToken(words, ts[1]));
        }
        FirstOfText(Sqlite, q, QuoteText(words, r));
      } else {
        KeptTokenStands(words, s);
      }
    }
  }

  /**
   The rewritten statement reads as the original's tokens with exactly its reserved bare words
   backticked, every literal, quoted identifier and comment unchanged -- if and only if no
   reserved bare word stands against a backtick.
   */
  lemma QuotingKeepsTokens(words: set<string>, s: string)
    ensures Lex(Sqlite, QuoteText(words, s)) == QuoteTokens(words, Lex(Sqlite, s))
            <==> !WordTouchesTick(words, Lex(Sqlite, s))
  {
    if WordTouchesTick(words, Lex(Sqlite, s)) {
      TicksNeverAdjacent(QuoteText(words, s));
    } else {
      QuotedLex(words, s);
    }
  }
}
