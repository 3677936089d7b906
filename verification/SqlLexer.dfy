/** The lexical grammar of the two SQL dialects. */
module SqlLexer {
  // As far as the translator depends on it: where a quoted span ends, what it means, where a
  // comment starts and where a word ends.

  datatype Dialect = Sqlite | Mysql

  datatype Token =
    | Span(quote: char, body: string, closed: bool)
    | Comment(text: string)
    | Word(text: string)
    | Sym(c: char)

  predicate IsQuote(c: char) { c == '\'' || c == '"' || c == '`' }

  predicate IsDigit(c: char) { '0' <= c <= '9' }

  predicate IsWordStart(c: char) { 'A' <= c <= 'Z' || 'a' <= c <= 'z' || c == '_' }

  predicate IsWordChar(c: char) { IsWordStart(c) || IsDigit(c) || c == '$' }

  /** Whether a backslash inside this kind of span escapes the character after it. */
  predicate Escapes(d: Dialect, q: char) { d.Mysql? && q != '`' }

  /** The characters of a span's body, given the text after its opening quote. */
  function BodyLen(esc: bool, q: char, s: string): (n: nat)
    ensures n <= |s|
    ensures n < |s| ==> s[n] == q
  {
    if s == "" then 0
    else if s[0] == '\\' && esc then
      if |s| == 1 then 1 else 2 + BodyLen(esc, q, s[2..])
    else if s[0] == q then
      if |s| > 1 && s[1] == q then 2 + BodyLen(esc, q, s[2..]) else 0
    else 1 + BodyLen(esc, q, s[1..])
  }

  lemma BodyOne(esc: bool, q: char, c: char, v: string)
    requires c != q && !(c == '\\' && esc)
    ensures BodyLen(esc, q, [c] + v) == 1 + BodyLen(esc, q, v)
  {
    assert ([c] + v)[1..] == v;
  }

  lemma BodyTwo(esc: bool, q: char, x: char, y: char, v: string)
    requires (x == '\\' && esc) || (x == q && y == q)
    ensures BodyLen(esc, q, [x, y] + v) == 2 + BodyLen(esc, q, v)
  {
    assert ([x, y] + v)[2..] == v;
  }

  /** What one backslash escape denotes inside a MySQL string. */
  function Unescape(c: char): string {
    match c
    case '0' => "\0"
    case 'b' => [8 as char]
    case 'n' => "\n"
    case 'r' => "\r"
    case 't' => "\t"
    case 'Z' => [26 as char]
    case '%' => "\\%"
    case '_' => "\\_"
    case _ => [c]
  }

  /** The string a span's body denotes. */
  function Value(esc: bool, q: char, b: string): string {
    if b == "" then ""
    else if |b| > 1 && b[0] == '\\' && esc then Unescape(b[1]) + Value(esc, q, b[2..])
    else if |b| > 1 && b[0] == q && b[1] == q then [q] + Value(esc, q, b[2..])
    else [b[0]] + Value(esc, q, b[1..])
  }

  predicate OpensComment(d: Dialect, s: string) {
    || (|s| > 1 && s[0] == '/' && s[1] == '*')
    || (d.Sqlite? && |s| > 1 && s[0] == '-' && s[1] == '-')
    || (d.Mysql? && |s| > 1 && s[0] == '-' && s[1] == '-' && (|s| == 2 || s[2] <= ' '))
    || (d.Mysql? && |s| > 0 && s[0] == '#')
  }

  /** The position of the first newline, or the end. */
  function LineLen(s: string): (n: nat)
    ensures n <= |s|
    ensures n < |s| ==> s[n] == '\n'
    ensures forall k :: 0 <= k < n ==> s[k] != '\n'
  {
    if s == "" || s[0] == '\n' then 0 else 1 + LineLen(s[1..])
  }

  /** The characters up to and including the first closing star-slash, or to the end. */
  function BlockLen(s: string): (n: nat)
    ensures n <= |s|
  {
    if |s| < 2 then |s|
    else if s[0] == '*' && s[1] == '/' then 2
    else 1 + BlockLen(s[1..])
  }

  function CommentLen(s: string): (n: nat)
    requires s != ""
    ensures n <= |s|
  {
    if |s| > 1 && s[0] == '/' then 2 + BlockLen(s[2..]) else LineLen(s)
  }

  function WordLen(s: string): (n: nat)
    ensures n <= |s|
    ensures forall k :: 0 <= k < n ==> IsWordChar(s[k])
    ensures n < |s| ==> !IsWordChar(s[n])
  {
    if s == "" || !IsWordChar(s[0]) then 0 else 1 + WordLen(s[1..])
  }

  function Text(t: Token): string {
    match t
    case Span(q, b, closed) => [q] + b + (if closed then [q] else "")
    case Comment(text) => text
    case Word(text) => text
    case Sym(c) => [c]
  }

  function First(d: Dialect, s: string): (t: Token)
    requires s != ""
    ensures 0 < |Text(t)| <= |s|
    ensures Text(t) == s[..|Text(t)|]
  {
    if IsQuote(s[0]) then
      var n := BodyLen(Escapes(d, s[0]), s[0], s[1..]);
      Span(s[0], s[1..n + 1], n + 1 < |s|)
    else if OpensComment(d, s) then Comment(s[..CommentLen(s)])
    else if IsWordStart(s[0]) then Word(s[..WordLen(s)])
    else Sym(s[0])
  }

  function Rest(d: Dialect, s: string): (r: string)
    requires s != ""
    ensures |r| < |s|
    ensures s == Text(First(d, s)) + r
  {
    s[|Text(First(d, s))|..]
  }

  function Lex(d: Dialect, s: string): seq<Token>
    decreases |s|
  {
    if s == "" then [] else [First(d, s)] + Lex(d, Rest(d, s))
  }

  lemma Associate<T>(a: seq<T>, b: seq<T>, c: seq<T>)
    ensures a + b + c == a + (b + c)
  {
  }

  lemma SplitOne(b: string, e: string)
    requires b != ""
    ensures b + e == [b[0]] + (b[1..] + e)
  {
  }

  lemma SplitTwo(b: string, e: string)
    requires |b| > 1
    ensures b + e == [b[0], b[1]] + (b[2..] + e)
  {
  }

  lemma LexStep(d: Dialect, s: string)
    requires s != ""
    ensures Lex(d, s) != [] && Lex(d, s)[0] == First(d, s) && Lex(d, s)[1..] == Lex(d, Rest(d, s))
  {
  }

  function Render(ts: seq<Token>): string {
    if ts == [] then "" else Text(ts[0]) + Render(ts[1..])
  }

  lemma {:induction false} RenderLex(d: Dialect, s: string)
    ensures Render(Lex(d, s)) == s
    decreases |s|
  {
    if s != "" { RenderLex(d, Rest(d, s)); }
  }

  // ---- When a token followed by more text is read back as the same token ------------------

  /** The token's own text is one token, whatever the dialect makes of its characters. */
  predicate WellFormed(d: Dialect, t: Token) {
    match t
    case Span(q, b, closed) =>
      IsQuote(q) && BodyLen(Escapes(d, q), q, if closed then b + [q] else b) == |b|
    case Comment(text) => false
    case Word(text) => text != "" && IsWordStart(text[0]) && WordLen(text) == |text|
    case Sym(c) => !IsQuote(c) && !IsWordStart(c) && !(d.Mysql? && c == '#')
  }

  /** The text r cannot run into the token before it. */
  predicate Follows(t: Token, r: string) {
    r == "" ||
    match t
    case Span(q, b, closed) => closed && r[0] != q
    case Comment(text) => false
    case Word(text) => !IsWordChar(r[0])
    case Sym(c) => !(c == '-' && r[0] == '-') && !(c == '/' && r[0] == '*')
  }

  lemma {:induction false} BodyThenMore(esc: bool, q: char, b: string, r: string)
    requires BodyLen(esc, q, b + [q]) == |b|
    requires r == "" || r[0] != q
    ensures BodyLen(esc, q, b + [q] + r) == |b|
    decreases |b|
  {
    var s, u := b + [q], b + [q] + r;
    if b == "" {
    } else if (s[0] == '\\' && esc) || s[0] == q {
      if |b| > 1 {
        assert s[2..] == b[2..] + [q] && u[2..] == b[2..] + [q] + r;
        BodyThenMore(esc, q, b[2..], r);
      }
    } else {
      assert s[1..] == b[1..] + [q] && u[1..] == b[1..] + [q] + r;
      BodyThenMore(esc, q, b[1..], r);
    }
  }

  lemma {:induction false} WordThenMore(w: string, r: string)
    requires WordLen(w) == |w|
    requires r == "" || !IsWordChar(r[0])
    ensures WordLen(w + r) == |w|
    decreases |w|
  {
    if w == "" {
      assert w + r == r;
    } else {
      assert (w + r)[1..] == w[1..] + r;
      WordThenMore(w[1..], r);
    }
  }

  lemma ClosedText(q: char, b: string, r: string)
    ensures var s := [q] + b + [q] + r;
      s[1..] == b + [q] + r && s[1..|b| + 1] == b
  {
  }

  lemma OpenText(q: char, b: string)
    ensures ([q] + b)[1..] == b && ([q] + b)[1..|b| + 1] == b
  {
  }

  lemma FirstOfClosed(d: Dialect, q: char, b: string, r: string)
    requires WellFormed(d, Span(q, b, true)) && Follows(Span(q, b, true), r)
    ensures First(d, [q] + b + [q] + r) == Span(q, b, true)
  {
    ClosedText(q, b, r);
    BodyThenMore(Escapes(d, q), q, b, r);
  }

  lemma FirstOfSpan(d: Dialect, t: Token, r: string)
    requires t.Span? && WellFormed(d, t) && Follows(t, r)
    ensures First(d, Text(t) + r) == t
  {
    if t.closed {
      FirstOfClosed(d, t.quote, t.body, r);
    } else {
      OpenText(t.quote, t.body);
      assert Text(t) + r == [t.quote] + t.body;
    }
  }

  lemma FirstOfWord(d: Dialect, w: string, r: string)
    requires WellFormed(d, Word(w)) && Follows(Word(w), r)
    ensures First(d, w + r) == Word(w)
  {
    WordThenMore(w, r);
    assert (w + r)[..|w|] == w;
  }

  /** A well-formed token followed by text that cannot run into it is read back whole. */
  lemma FirstOfText(d: Dialect, t: Token, r: string)
    requires WellFormed(d, t) && Follows(t, r)
    ensures Text(t) + r != "" && First(d, Text(t) + r) == t && Rest(d, Text(t) + r) == r
  {
    match t
    case Span(_, _, _) => FirstOfSpan(d, t, r);
    case Word(text) => FirstOfWord(d, text, r);
    case Sym(c) => assert [c] + r == Text(t) + r;
  }

  lemma {:induction false} PrefixOfClosed(esc: bool, q: char, s: string, n: nat)
    requires n == BodyLen(esc, q, s) < |s|
    ensures BodyLen(esc, q, s[..n] + [q]) == n
    decreases |s|
  {
    var u := s[..n] + [q];
    if (s[0] == '\\' && esc) || (s[0] == q && n > 0) {
      assert u[2..] == s[2..][..n - 2] + [q];
      PrefixOfClosed(esc, q, s[2..], n - 2);
    } else if n > 0 {
      assert u[1..] == s[1..][..n - 1] + [q];
      PrefixOfClosed(esc, q, s[1..], n - 1);
    }
  }

  lemma {:induction false} AfterClosed(esc: bool, q: char, s: string, n: nat)
    requires n == BodyLen(esc, q, s) < |s|
    ensures n + 1 < |s| ==> s[n + 1] != q
    decreases |s|
  {
    if (s[0] == '\\' && esc) || (s[0] == q && n > 0) {
      AfterClosed(esc, q, s[2..], n - 2);
    } else if n > 0 {
      AfterClosed(esc, q, s[1..], n - 1);
    }
  }

  /** Every token but a comment is well formed and cannot run into what follows it. */
  lemma FirstIsSeparate(d: Dialect, s: string)
    requires s != "" && !First(d, s).Comment?
    ensures WellFormed(d, First(d, s))
    ensures d.Sqlite? ==> Follows(First(d, s), Rest(d, s))
    ensures First(d, s).Span? ==> Follows(First(d, s), Rest(d, s))
    ensures First(d, s).Word? ==> Follows(First(d, s), Rest(d, s))
  {
    var t, r := First(d, s), Rest(d, s);
    if t.Span? {
      var n := BodyLen(Escapes(d, s[0]), s[0], s[1..]);
      assert t.body == s[1..][..n];
      if t.closed {
        PrefixOfClosed(Escapes(d, s[0]), s[0], s[1..], n);
        AfterClosed(Escapes(d, s[0]), s[0], s[1..], n);
        assert r == s[n + 2..];
      } else {
        assert t.body == s[1..];
      }
    } else if t.Word? {
      WordPrefix(s);
    }
  }

  lemma {:induction false} WordPrefix(s: string)
    ensures WordLen(s[..WordLen(s)]) == WordLen(s)
    decreases |s|
  {
    if s != "" && IsWordChar(s[0]) {
      WordPrefix(s[1..]);
      assert s[..WordLen(s)][1..] == s[1..][..WordLen(s[1..])];
    }
  }
}
