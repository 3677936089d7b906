/** Doubling the backslashes of string literals for MySQL. */
module Literals {
  import opened SqlLexer
  import opened ReservedWords
  import opened SqlMeaning

  function DoubleSlashes(s: string): string {
    if s == "" then ""
    else (if s[0] == '\\' then "\\\\" else [s[0]]) + DoubleSlashes(s[1..])
  }

  /** The characters before the next q, where doubling is not an escape. */
  function PlainLen(q: char, s: string): (n: nat)
    ensures n <= |s|
    ensures n < |s| ==> s[n] == q
    ensures forall k :: 0 <= k < n ==> s[k] != q
  {
    if s == "" || s[0] == q then 0 else 1 + PlainLen(q, s[1..])
  }

  /** One step of the walk: how much of the text it reads, and what it writes for it. */
  function Piece(s: string): (p: (nat, string))
    requires s != ""
    ensures 0 < p.0 <= |s|
  {
    if s[0] == '\'' then
      var n := BodyLen(false, '\'', s[1..]);
      (if n + 1 < |s| then n + 2 else |s|, "'" + DoubleSlashes(s[1..n + 1]) + "'")
    else if s[0] == '`' || s[0] == '"' then
      var n := PlainLen(s[0], s[1..]);
      var m := if n + 1 < |s| then n + 2 else |s|;
      (m, s[..m])
    else (1, [s[0]])
  }

  function DoubleText(s: string): string
    decreases |s|
  {
    if s == "" then "" else Piece(s).1 + DoubleText(s[Piece(s).0..])
  }

  ghost predicate Written(text: string, i: nat, out: string) {
    i <= |text| && out + DoubleText(text[i..]) == DoubleText(text)
  }

  lemma StepAt(text: string, i: nat, out: string, j: nat, piece: string)
    requires i < |text| && Written(text, i, out)
    requires j == i + Piece(text[i..]).0 && piece == Piece(text[i..]).1
    ensures Written(text, j, out + piece)
  {
    assert text[i..][j - i..] == text[j..];
    Associate(out, piece, DoubleText(text[j..]));
  }

  lemma PieceAt(text: string, i: nat)
    requires i < |text|
    ensures var ch := text[i];
      Piece(text[i..]) ==
      if ch == '\'' then
        var j := i + 1 + BodyLen(false, '\'', text[i + 1..]);
        (if j < |text| then j + 1 - i else |text| - i, "'" + DoubleSlashes(text[i + 1..j]) + "'")
      else if ch == '`' || ch == '"' then
        var j := i + 1 + PlainLen(ch, text[i + 1..]);
        var k := if j < |text| then j + 1 else |text|;
        (k - i, text[i..k])
      else (1, [ch])
  {
    var s := text[i..];
    assert s[1..] == text[i + 1..];
    if s[0] == '\'' {
      var n := BodyLen(false, '\'', s[1..]);
      assert s[1..n + 1] == text[i + 1..i + 1 + n];
    } else if s[0] == '`' || s[0] == '"' {
      var m := Piece(s).0;
      assert s[..m] == text[i..i + m];
    }
  }

  method NextQuote(text: string, i: nat) returns (j: nat)
    requires i < |text|
    ensures j == i + 1 + PlainLen(text[i], text[i + 1..])
  {
    j := i + 1;
    while j < |text| && text[j] != text[i]
      invariant i + 1 <= j <= |text|
      invariant PlainLen(text[i], text[i + 1..]) == j - (i + 1) + PlainLen(text[i], text[j..])
    {
      assert text[j..][1..] == text[j + 1..];
      j := j + 1;
    }
  }

  /** One piece of the walk: where it ends and what is written for it. */
  method NextPiece(text: string, i: nat) returns (j: nat, piece: string)
    requires i < |text|
    ensures (j - i, piece) == Piece(text[i..]) && j <= |text|
  {
    var ch := text[i];
    PieceAt(text, i);
    if ch == '\'' {
      j := CloseOfSpan(text, i);
      piece := "'" + DoubleSlashes(text[i + 1..j]) + "'";
      j := if j < |text| then j + 1 else |text|;
    } else if ch == '`' || ch == '"' {
      j := NextQuote(text, i);
      j := if j < |text| then j + 1 else |text|;
      piece := text[i..j];
    } else {
      j, piece := i + 1, [ch];
    }
  }

  method DoubleBackslashesInLiterals(text: string) returns (out: string)
    ensures out == DoubleText(text)
  {
    out := "";
    var i := 0;
    assert text[0..] == text;
    while i < |text|
      invariant Written(text, i, out)
    {
      var j, piece := NextPiece(text, i);
      StepAt(text, i, out, j, piece);
      out, i := out + piece, j;
    }
    assert text[i..] == "";
  }

  // ---- What the doubled text lexes to -----------------------------------------------------

  /** The token the walk turns a token into: a literal's backslashes doubled, and closed. */
  function DoubleToken(t: Token): Token {
    if t.Span? && t.quote == '\'' then Span('\'', DoubleSlashes(t.body), true) else t
  }

  function DoubleTokens(ts: seq<Token>): (r: seq<Token>)
    ensures |r| == |ts|
    ensures forall i :: 0 <= i < |ts| ==> r[i] == DoubleToken(ts[i])
  {
    if ts == [] then [] else [DoubleToken(ts[0])] + DoubleTokens(ts[1..])
  }

  /** A token the later walkers are written for: anything but a comment in either dialect. */
  predicate NotRemark(t: Token) { !t.Comment? && t != Sym('#') }

  predicate CommentFree(ts: seq<Token>) { forall i :: 0 <= i < |ts| ==> NotRemark(ts[i]) }

  predicate IsDoubleQuoted(t: Token) { t.Span? && t.quote == '"' }

  predicate IsOpenLiteral(t: Token) { t.Span? && t.quote == '\'' && !t.closed }

  /** A token both dialects read alike once the backslashes are doubled. */
  predicate Portable(t: Token) { !IsDoubleQuoted(t) && !IsOpenLiteral(t) }

  lemma TwoQuotes(b: string)
    requires |b| > 1 && b[0] == '\'' && b[1] == '\''
    ensures DoubleSlashes(b) == ['\'', '\''] + DoubleSlashes(b[2..])
  {
    assert b[1..][1..] == b[2..];
  }

  lemma BodyStart(b: string)
    requires b != "" && b[0] == '\'' && BodyLen(false, '\'', b + "'") == |b|
    ensures |b| > 1 && b[1] == '\''
  {
  }

  /** A literal's body is a run of doubled quotes ... */
  lemma BodyAfterQuotes(b: string)
    requires b != "" && b[0] == '\'' && BodyLen(false, '\'', b + "'") == |b|
    ensures |b| > 1 && b[1] == '\'' && BodyLen(false, '\'', b[2..] + "'") == |b| - 2
  {
    BodyStart(b);
    SplitTwo(b, "'");
    BodyTwo(false, '\'', b[0], b[1], b[2..] + "'");
  }

  /** ... and of other characters. */
  lemma BodyAfterChar(b: string)
    requires b != "" && b[0] != '\'' && BodyLen(false, '\'', b + "'") == |b|
    ensures BodyLen(false, '\'', b[1..] + "'") == |b| - 1
  {
    SplitOne(b, "'");
    BodyOne(false, '\'', b[0], b[1..] + "'");
  }

  lemma {:induction false} DoubledBody(esc: bool, b: string)
    requires BodyLen(false, '\'', b + "'") == |b|
    ensures BodyLen(esc, '\'', DoubleSlashes(b) + "'") == |DoubleSlashes(b)|
    decreases |b|
  {
    if b != "" {
      if b[0] == '\'' {
        BodyAfterQuotes(b);
        TwoQuotes(b);
        DoubledBody(esc, b[2..]);
        var v := DoubleSlashes(b[2..]);
        Associate("''", v, "'");
        BodyTwo(esc, '\'', '\'', '\'', v + "'");
      } else {
        BodyAfterChar(b);
        DoubledBody(esc, b[1..]);
        DoubledChar(esc, b[0], DoubleSlashes(b[1..]));
      }
    }
  }

  lemma DoubledChar(esc: bool, c: char, v: string)
    requires c != '\'' && BodyLen(esc, '\'', v + "'") == |v|
    ensures var u := (if c == '\\' then "\\\\" else [c]) + v; BodyLen(esc, '\'', u + "'") == |u|
  {
    if c == '\\' {
      Associate("\\\\", v, "'");
      if esc {
        BodyTwo(esc, '\'', c, c, v + "'");
      } else {
        BodyOne(esc, '\'', c, v + "'");
        BodyOne(esc, '\'', c, [c] + (v + "'"));
        assert [c] + ([c] + (v + "'")) == "\\\\" + (v + "'");
      }
    } else {
      Associate([c], v, "'");
      BodyOne(esc, '\'', c, v + "'");
    }
  }

  lemma {:induction false} DoubledValue(b: string)
    requires BodyLen(false, '\'', b + "'") == |b|
    ensures Value(true, '\'', DoubleSlashes(b)) == Value(false, '\'', b)
    decreases |b|
  {
    if b == "" {
    } else if b[0] == '\'' {
      BodyAfterQuotes(b);
      TwoQuotes(b);
      DoubledValue(b[2..]);
      ValueTwo(true, '\'', '\'', '\'', DoubleSlashes(b[2..]));
    } else {
      BodyAfterChar(b);
      DoubledValue(b[1..]);
      var v := DoubleSlashes(b[1..]);
      if b[0] == '\\' {
        ValueTwo(true, '\'', '\\', '\\', v);
      } else {
        ValueOne(true, '\'', b[0], v);
      }
    }
  }

  lemma ValueOne(esc: bool, q: char, c: char, v: string)
    requires c != q && c != '\\'
    ensures Value(esc, q, [c] + v) == [c] + Value(esc, q, v)
  {
    assert ([c] + v)[1..] == v;
  }

  lemma ValueTwo(esc: bool, q: char, x: char, y: char, v: string)
    requires q != '\\' && ((esc && x == '\\') || (x == q && y == q))
    ensures Value(esc, q, [x, y] + v) == (if x == q then [q] else Unescape(y)) + Value(esc, q, v)
  {
    assert ([x, y] + v)[2..] == v;
  }

  lemma SpanSize(d: Dialect, s: string, n: nat)
    requires s != "" && IsQuote(s[0]) && n == BodyLen(Escapes(d, s[0]), s[0], s[1..])
    ensures |Text(First(d, s))| == if n + 1 < |s| then n + 2 else |s|
  {
  }

  lemma TickSplit(s: string, p: nat) returns (u: string)
    requires s != "" && s[0] == '`' && p == PlainLen('`', s[1..]) < BodyLen(false, '`', s[1..])
    ensures Piece(s).0 == p + 2 < |s| && u == s[p + 2..] && u[0] == '`'
    ensures |Text(First(Sqlite, s))| == p + 2 + |Text(First(Sqlite, u))|
  {
    var v := s[1..];
    PlainInBody(v);
    u := s[p + 2..];
    assert v[p + 1..] == u && v[p + 2..] == u[1..];
    SpanSize(Sqlite, s, BodyLen(false, '`', v));
    SpanSize(Sqlite, u, BodyLen(false, '`', v[p + 2..]));
  }

  lemma SplitPrefix(s: string, m: nat, n: nat)
    requires m + n <= |s|
    ensures s[..m + n] == s[..m] + s[m..][..n] && s[m..][n..] == s[m + n..]
  {
  }

  lemma TickParts(s: string, u: string)
    requires s != "" && u != "" && Piece(s).0 < |s| && u == s[Piece(s).0..] && s[0] == '`'
    requires |Text(First(Sqlite, s))| == Piece(s).0 + |Text(First(Sqlite, u))|
    ensures Text(First(Sqlite, s)) == Piece(s).1 + Text(First(Sqlite, u)) && Rest(Sqlite, u) == Rest(Sqlite, s)
  {
    SplitPrefix(s, Piece(s).0, |Text(First(Sqlite, u))|);
  }

  /** The walk copies a backtick span whole, though it does not know about doubled backticks. */
  lemma {:induction false} TickCopied(s: string)
    requires s != "" && s[0] == '`'
    ensures DoubleText(s) == Text(First(Sqlite, s)) + DoubleText(Rest(Sqlite, s))
    decreases |s|
  {
    PlainInBody(s[1..]);
    if PlainLen('`', s[1..]) < BodyLen(false, '`', s[1..]) {
      var u := TickSplit(s, PlainLen('`', s[1..]));
      TickCopied(u);
      TickParts(s, u);
      Associate(Piece(s).1, Text(First(Sqlite, u)), DoubleText(Rest(Sqlite, u)));
    }
  }

  lemma {:induction false} PlainInBody(s: string)
    ensures var n, p := BodyLen(false, '`', s), PlainLen('`', s);
      p <= n && (p < n ==> p + 2 <= |s| && s[p + 1] == '`' && n == p + 2 + BodyLen(false, '`', s[p + 2..]))
    decreases |s|
  {
    if s != "" && s[0] != '`' {
      PlainInBody(s[1..]);
      var p := PlainLen('`', s);
      if p < BodyLen(false, '`', s) { assert s[1..][p + 1..] == s[p + 2..]; }
    }
  }

  lemma {:induction false} WordCopied(w: string, r: string)
    requires forall k :: 0 <= k < |w| ==> !IsQuote(w[k])
    ensures DoubleText(w + r) == w + DoubleText(r)
    decreases |w|
  {
    if w == "" {
      assert w + r == r;
    } else {
      assert (w + r)[1..] == w[1..] + r;
      WordCopied(w[1..], r);
      assert w == [w[0]] + w[1..];
    }
  }

  lemma DoubleStep(s: string)
    requires s != "" && NotRemark(First(Sqlite, s)) && !IsDoubleQuoted(First(Sqlite, s))
    ensures DoubleText(s) == Text(DoubleToken(First(Sqlite, s))) + DoubleText(Rest(Sqlite, s))
  {
    var t := First(Sqlite, s);
    if s[0] == '`' {
      TickCopied(s);
    } else if t.Word? {
      WordCopied(t.text, Rest(Sqlite, s));
    } else if s[0] == '\'' {
      assert s[Piece(s).0..] == Rest(Sqlite, s);
    }
  }

  lemma DoubleHead(s: string)
    ensures s == "" <==> DoubleText(s) == ""
    ensures s != "" ==> DoubleText(s)[0] == s[0]
  {
  }

  /** A portable token, doubled, is read back whole by either dialect whatever follows it. */
  lemma DoubledStands(d: Dialect, s: string)
    requires s != "" && NotRemark(First(Sqlite, s)) && Portable(First(Sqlite, s))
    ensures var t, u := DoubleToken(First(Sqlite, s)), DoubleText(Rest(Sqlite, s));
      First(d, Text(t) + u) == t && Rest(d, Text(t) + u) == u
  {
    var t, r := First(Sqlite, s), Rest(Sqlite, s);
    FirstIsSeparate(Sqlite, s);
    DoubleHead(r);
    if t.Span? && t.quote == '\'' { DoubledBody(Escapes(d, '\''), t.body); }
    FirstOfText(d, DoubleToken(t), DoubleText(r));
  }

  /** The doubled text lexes, in either dialect, to the original's tokens with literals doubled. */
  lemma {:induction false} DoubledLex(d: Dialect, s: string)
    requires CommentFree(Lex(Sqlite, s))
    requires forall i :: 0 <= i < |Lex(Sqlite, s)| ==> Portable(Lex(Sqlite, s)[i])
    ensures Lex(d, DoubleText(s)) == DoubleTokens(Lex(Sqlite, s))
    decreases |s|
  {
    if s != "" {
      var ts := Lex(Sqlite, s);
      LexStep(Sqlite, s);
      forall i | 0 <= i < |ts[1..]| ensures NotRemark(ts[1..][i]) && Portable(ts[1..][i]) {
        assert ts[1..][i] == ts[i + 1];
      }
      DoubledLex(d, Rest(Sqlite, s));
      DoubleStep(s);
      DoubledStands(d, s);
      LexStep(d, DoubleText(s));
    }
  }

  lemma DoubledAtom(words: set<string>, s: string)
    requires s != "" && Portable(First(Sqlite, s))
    ensures var t := First(Sqlite, s);
      t.Word? || AtomOf(Mysql, words, DoubleToken(t)) == AtomOf(Sqlite, words, t)
  {
    var t := First(Sqlite, s);
    if t.Span? && t.quote == '\'' {
      FirstIsSeparate(Sqlite, s);
      DoubledValue(t.body);
    }
  }

  lemma {:induction false} OpenThenQuote(b: string)
    requires BodyLen(false, '\'', b) == |b|
    ensures BodyLen(false, '\'', b + "'") == |b|
    decreases |b|
  {
    if b == "" {
    } else if b[0] == '\'' {
      OpenThenQuote(b[2..]);
      SplitTwo(b, "'");
      BodyTwo(false, '\'', b[0], b[1], b[2..] + "'");
    } else {
      OpenThenQuote(b[1..]);
      SplitOne(b, "'");
      BodyOne(false, '\'', b[0], b[1..] + "'");
    }
  }

  /** The walk closes a literal that nothing closed. */
  lemma OpenLiteralCloses(s: string)
    requires s != "" && IsOpenLiteral(First(Sqlite, s))
    ensures DoubleText(s) != "" && First(Mysql, DoubleText(s)) == DoubleToken(First(Sqlite, s))
  {
    var b := First(Sqlite, s).body;
    var t := DoubleToken(First(Sqlite, s));
    assert b == s[1..];
    OpenThenQuote(b);
    DoubledBody(true, b);
    FirstOfText(Mysql, t, "");
    assert s[Piece(s).0..] == "";
    assert DoubleText(s) == Text(t) + "";
  }

  /** A span that is not portable is never read alike: the two dialects see different kinds of thing. */
  lemma NotPortableDiffers(s: string)
    requires s != "" && !Portable(First(Sqlite, s))
    ensures DoubleText(s) != ""
    ensures AtomOf(Mysql, {}, First(Mysql, DoubleText(s))) != AtomOf(Sqlite, {}, First(Sqlite, s))
  {
    if IsOpenLiteral(First(Sqlite, s)) {
      OpenLiteralCloses(s);
    } else {
      DoubleHead(s);
    }
  }

  predicate AllPortable(ts: seq<Token>) { forall i :: 0 <= i < |ts| ==> Portable(ts[i]) }

  /** A comment for both dialects, without a quote in it. */
  predicate QuietRemark(t: Token) {
    t.Comment? && (forall k :: 0 <= k < |t.text| ==> !IsQuote(t.text[k]))
    && (|t.text| > 2 && t.text[0] == '-' ==> t.text[2] <= ' ')
  }

  predicate QuietlyRemarked(ts: seq<Token>) { forall i :: 0 <= i < |ts| ==> NotRemark(ts[i]) || QuietRemark(ts[i]) }

  /** The walk copies such a comment, and both dialects still take it for one. */
  lemma RemarkCopied(s: string, u: string)
    requires s != "" && QuietRemark(First(Sqlite, s)) && u == DoubleText(Rest(Sqlite, s))
    ensures DoubleText(s) == Text(First(Sqlite, s)) + u
    ensures First(Mysql, DoubleText(s)) == First(Sqlite, s) && Rest(Mysql, DoubleText(s)) == u
  {
    var c, r := Text(First(Sqlite, s)), Rest(Sqlite, s);
    WordCopied(c, r);
    DoubleHead(r);
    CommentStands(s, u);
    BothComment(s, c + u);
  }

  lemma BothComment(s: string, w: string)
    requires s != "" && w != "" && QuietRemark(First(Sqlite, s)) && First(Sqlite, w) == First(Sqlite, s)
    requires Rest(Sqlite, w) == "" <==> Rest(Sqlite, s) == ""
    ensures First(Mysql, w) == First(Sqlite, w) && Rest(Mysql, w) == Rest(Sqlite, w)
  {
    var c := First(Sqlite, w).text;
    assert c == w[..|c|];
    if w[0] == '-' {
      assert |c| >= 2 by { assert LineLen(w) >= 2 by { assert w[1] == '-' && LineLen(w[1..]) >= 1; } }
      if |c| == 2 && |w| > 2 { assert w[2] == '\n'; } else if |c| > 2 { assert w[2] == c[2]; }
    }
  }

  /**
   MySQL reads the doubled statement exactly as SQLite reads the original -- the same tokens, the
   same string values -- if and only if every literal is closed and nothing is double-quoted. The
   statement may hold comments, if they are comments to both and hold no quote.
   */
  lemma {:induction false} DoublingKeepsMeaning(s: string)
    requires QuietlyRemarked(Lex(Sqlite, s))
    ensures Reading(Mysql, {}, DoubleText(s)) == Reading(Sqlite, {}, s) <==> AllPortable(Lex(Sqlite, s))
    decreases |s|
  {
    if s != "" {
      var ts, t, r := Lex(Sqlite, s), First(Sqlite, s), Rest(Sqlite, s);
      LexStep(Sqlite, s);
      assert forall i :: 0 <= i < |ts[1..]| ==> ts[1..][i] == ts[i + 1];
      assert NotRemark(ts[0]) || QuietRemark(ts[0]);
      DoublingKeepsMeaning(r);
      FirstOfAll(ts);
      if Portable(t) {
        DoubledFirst(s, DoubleText(r));
        ReadingStep(Mysql, {}, DoubleText(s));
        ReadingStep(Sqlite, {}, s);
        ConsSame(AtomOf(Sqlite, {}, t), Reading(Mysql, {}, DoubleText(r)), Reading(Sqlite, {}, r));
      } else {
        NotPortableDiffers(s);
        LexStep(Mysql, DoubleText(s));
        assert Reading(Mysql, {}, DoubleText(s))[0] != Reading(Sqlite, {}, s)[0];
      }
    }
  }

  lemma FirstOfAll(ts: seq<Token>)
    requires ts != []
    ensures AllPortable(ts) <==> Portable(ts[0]) && AllPortable(ts[1..])
  {
    if Portable(ts[0]) && AllPortable(ts[1..]) {
      forall i | 0 <= i < |ts| ensures Portable(ts[i]) { if i > 0 { assert ts[i] == ts[1..][i - 1]; } }
    } else if AllPortable(ts) {
      forall i | 0 <= i < |ts| - 1 ensures Portable(ts[1..][i]) { assert ts[1..][i] == ts[i + 1]; }
    }
  }

  lemma DoubledFirst(s: string, u: string)
    requires s != "" && Portable(First(Sqlite, s)) && (NotRemark(First(Sqlite, s)) || QuietRemark(First(Sqlite, s)))
    requires u == DoubleText(Rest(Sqlite, s))
    ensures DoubleText(s) != "" && Rest(Mysql, DoubleText(s)) == u
    ensures AtomOf(Mysql, {}, First(Mysql, DoubleText(s))) == AtomOf(Sqlite, {}, First(Sqlite, s))
  {
    if First(Sqlite, s).Comment? {
      RemarkCopied(s, u);
    } else {
      DoubleStep(s);
      DoubledStands(Mysql, s);
      DoubledAtom({}, s);
    }
  }

  lemma ConsSame<T>(x: T, a: seq<T>, b: seq<T>)
    ensures [x] + a == [x] + b <==> a == b
  {
    if [x] + a == [x] + b {
      assert ([x] + a)[1..] == a && ([x] + b)[1..] == b;
    }
  }

  lemma CommentDoubled()
    ensures DoubleText("/*'*/") == "/*'*/'"
  {
    var s := "/*'*/";
    assert s[1..] == "*'*/" && s[1..][1..] == "'*/" && "'*/"[1..] == "*/" && "'*/"[3..] == "";
    assert BodyLen(false, '\'', "*/") == 2;
    assert DoubleSlashes("*/") == "*/";
    assert Piece("'*/").1 == "'*/'";
  }

  lemma BlocksEnd()
    ensures BlockLen("'*/") == 3 && BlockLen("'*/'") == 3
  {
    assert "'*/"[1..] == "*/" && "'*/'"[1..] == "*/'";
  }

  lemma OneComment(s: string)
    requires s == "/*'*/"
    ensures |Lex(Sqlite, s)| == 1
  {
    BlocksEnd();
    assert s[2..] == "'*/";
    assert |Text(First(Sqlite, s))| == 5;
    LexStep(Sqlite, s);
  }

  lemma CommentAndMore(u: string)
    requires u == "/*'*/'"
    ensures |Lex(Mysql, u)| > 1
  {
    BlocksEnd();
    assert u[2..] == "'*/'";
    assert |Text(First(Mysql, u))| == 5;
    LexStep(Mysql, u);
  }

  lemma CommentRead()
    ensures |Lex(Sqlite, "/*'*/")| == 1 && |Lex(Mysql, "/*'*/'")| > 1
  {
    OneComment("/*'*/");
    CommentAndMore("/*'*/'");
  }

  /** Why comments are ruled out: an apostrophe in one opens a literal as far as the walk knows. */
  lemma CommentBreaksDoubling()
    ensures var s := "/*'*/"; Reading(Mysql, {}, DoubleText(s)) != Reading(Sqlite, {}, s)
  {
    CommentDoubled();
    CommentRead();
  }
}
