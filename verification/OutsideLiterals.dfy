/** Rewriting everything but what stands between quotes. */
module OutsideLiterals {
  // The rules that look at no context are regular expressions, and this walk is what keeps them
  // away from the values somebody typed: string literals and backticked names are copied.
  import opened SqlLexer
  import opened ReservedWords
  import opened Wrappers
  import opened Literals

  predicate Opens(c: char) { c == '\'' || c == '`' }

  /** The characters before the next span. */
  function ChunkLen(s: string): (n: nat)
    ensures n <= |s|
    ensures n < |s| ==> Opens(s[n])
    ensures forall k :: 0 <= k < n ==> !Opens(s[k])
  {
    if s == "" || Opens(s[0]) then 0 else 1 + ChunkLen(s[1..])
  }

  function SpanLen(s: string): (n: nat)
    requires s != "" && Opens(s[0])
    ensures 0 < n <= |s|
  {
    var n := BodyLen(false, s[0], s[1..]);
    if n + 1 < |s| then n + 2 else |s|
  }

  /** Each stretch between spans rewritten, the spans as they stand. */
  function MapText(f: string -> string, s: string): string
    decreases |s|
  {
    var n := ChunkLen(s);
    if n == |s| then f(s)
    else
      var r := s[n..];
      f(s[..n]) + (r[..SpanLen(r)] + MapText(f, r[SpanLen(r)..]))
  }

  /** The walk between two steps: what is written, the stretch being collected, what is left. */
  ghost predicate Mapped(f: string -> string, text: string, i: nat, out: string, chunk: string) {
    i <= |text| && (forall k :: 0 <= k < |chunk| ==> !Opens(chunk[k]))
    && out + MapText(f, chunk + text[i..]) == MapText(f, text)
  }

  lemma {:induction false} ChunkThen(chunk: string, r: string)
    requires forall k :: 0 <= k < |chunk| ==> !Opens(chunk[k])
    ensures ChunkLen(chunk + r) == |chunk| + ChunkLen(r)
    decreases |chunk|
  {
    if chunk == "" {
      assert chunk + r == r;
    } else {
      assert (chunk + r)[1..] == chunk[1..] + r;
      ChunkThen(chunk[1..], r);
    }
  }

  lemma MapSpan(f: string -> string, chunk: string, r: string)
    requires forall k :: 0 <= k < |chunk| ==> !Opens(chunk[k])
    requires r != "" && Opens(r[0])
    ensures MapText(f, chunk + r) == f(chunk) + (r[..SpanLen(r)] + MapText(f, r[SpanLen(r)..]))
  {
    ChunkThen(chunk, r);
    assert (chunk + r)[..|chunk|] == chunk && (chunk + r)[|chunk|..] == r;
  }

  lemma SpanAt(text: string, i: nat, j: nat)
    requires i < |text| && Opens(text[i]) && j == i + 1 + BodyLen(false, text[i], text[i + 1..])
    ensures SpanLen(text[i..]) == if j < |text| then j + 1 - i else |text| - i
  {
    assert text[i..][1..] == text[i + 1..];
  }

  /** A span reached: the stretch before it is rewritten, the span copied. */
  lemma SpanStep(f: string -> string, text: string, i: nat, out: string, chunk: string, end: nat)
    requires Mapped(f, text, i, out, chunk) && i < |text| && Opens(text[i]) && end == i + SpanLen(text[i..])
    ensures Mapped(f, text, end, out + f(chunk) + text[i..end], "")
  {
    SpanSlices(text, i, end);
    MapSpan(f, chunk, text[i..]);
    assert "" + text[end..] == text[end..];
    Regroup(out, f(chunk), text[i..end], MapText(f, text[end..]));
  }

  lemma SpanSlices(text: string, i: nat, end: nat)
    requires i < |text| && Opens(text[i]) && end == i + SpanLen(text[i..])
    ensures text[i..][..SpanLen(text[i..])] == text[i..end] && text[i..][SpanLen(text[i..])..] == text[end..]
  {
  }

  lemma Regroup(a: string, b: string, c: string, d: string)
    ensures a + (b + (c + d)) == (a + b + c) + d
  {
    Associate(a, b, c + d);
    Associate(a + b, c, d);
  }

  lemma CharStep(f: string -> string, text: string, i: nat, out: string, chunk: string)
    requires Mapped(f, text, i, out, chunk) && i < |text| && !Opens(text[i])
    ensures Mapped(f, text, i + 1, out, chunk + [text[i]])
  {
    assert chunk + text[i..] == (chunk + [text[i]]) + text[i + 1..];
  }

  lemma LastStretch(f: string -> string, text: string, out: string, chunk: string)
    requires Mapped(f, text, |text|, out, chunk)
    ensures out + f(chunk) == MapText(f, text)
  {
    assert chunk + text[|text|..] == chunk && chunk + "" == chunk;
    ChunkThen(chunk, "");
  }

  // ---- Stretches ---------------------------------------------------------------------------

  /** What stands between the spans, the texts before the first and after the last included. */
  function Stretches(s: string): (r: seq<string>)
    ensures r != [] && forall k, i :: 0 <= k < |r| && 0 <= i < |r[k]| ==> !Opens(r[k][i])
    decreases |s|
  {
    var n := ChunkLen(s);
    if n == |s| then [s] else [s[..n]] + Stretches(s[n..][SpanLen(s[n..])..])
  }

  /** Whether a rule that throws finds something to throw about. */
  predicate AnyRefused(refused: string -> bool, s: string) { exists c :: c in Stretches(s) && refused(c) }

  lemma StretchThenSpan(chunk: string, r: string)
    requires forall k :: 0 <= k < |chunk| ==> !Opens(chunk[k])
    requires r != "" && Opens(r[0])
    ensures Stretches(chunk + r) == [chunk] + Stretches(r[SpanLen(r)..])
  {
    ChunkThen(chunk, r);
    assert (chunk + r)[..|chunk|] == chunk && (chunk + r)[|chunk|..] == r;
  }

  lemma SpanRefusal(refused: string -> bool, text: string, i: nat, chunk: string, end: nat)
    requires i < |text| && Opens(text[i]) && end == i + SpanLen(text[i..])
    requires forall k :: 0 <= k < |chunk| ==> !Opens(chunk[k])
    ensures AnyRefused(refused, chunk + text[i..]) <==> refused(chunk) || AnyRefused(refused, "" + text[end..])
  {
    SpanSlices(text, i, end);
    StretchThenSpan(chunk, text[i..]);
    assert "" + text[end..] == text[end..];
    var rest := Stretches(text[end..]);
    assert ([chunk] + rest)[0] == chunk;
    forall c ensures c in [chunk] + rest <==> c == chunk || c in rest {}
  }

  lemma LastRefusal(refused: string -> bool, chunk: string)
    requires forall k :: 0 <= k < |chunk| ==> !Opens(chunk[k])
    ensures AnyRefused(refused, chunk) <==> refused(chunk)
  {
    ChunkThen(chunk, "");
    assert chunk + "" == chunk;
    assert Stretches(chunk) == [chunk] && [chunk][0] == chunk;
  }

  /** The walk between two steps, none of the stretches it has come through refused. */
  ghost predicate Passing(f: string -> string, refused: string -> bool, text: string, i: nat, done: string, chunk: string) {
    Mapped(f, text, i, done, chunk) && AnyRefused(refused, chunk + text[i..]) == AnyRefused(refused, text)
  }

  lemma PassStart(f: string -> string, refused: string -> bool, text: string)
    ensures Passing(f, refused, text, 0, "", "")
  {
    assert "" + text[0..] == text && "" + MapText(f, text) == MapText(f, text);
  }

  lemma PassSpan(f: string -> string, refused: string -> bool, text: string, i: nat, done: string, chunk: string, end: nat)
    requires Passing(f, refused, text, i, done, chunk) && i < |text| && Opens(text[i]) && end == i + SpanLen(text[i..])
    ensures refused(chunk) ==> AnyRefused(refused, text)
    ensures !refused(chunk) ==> Passing(f, refused, text, end, done + f(chunk) + text[i..end], "")
  {
    SpanRefusal(refused, text, i, chunk, end);
    SpanStep(f, text, i, done, chunk, end);
  }

  lemma PassChar(f: string -> string, refused: string -> bool, text: string, i: nat, done: string, chunk: string)
    requires Passing(f, refused, text, i, done, chunk) && i < |text| && !Opens(text[i])
    ensures Passing(f, refused, text, i + 1, done, chunk + [text[i]])
  {
    assert chunk + text[i..] == (chunk + [text[i]]) + text[i + 1..];
    CharStep(f, text, i, done, chunk);
  }

  lemma PassEnd(f: string -> string, refused: string -> bool, text: string, done: string, chunk: string)
    requires Passing(f, refused, text, |text|, done, chunk)
    ensures refused(chunk) <==> AnyRefused(refused, text)
    ensures done + f(chunk) == MapText(f, text)
  {
    assert chunk + text[|text|..] == chunk;
    LastRefusal(refused, chunk);
    LastStretch(f, text, done, chunk);
  }

  /** The walk; a stretch the rule throws about stops it. */
  method MapOutsideLiterals(text: string, f: string -> string, refused: string -> bool) returns (out: Option<string>)
    ensures out == if AnyRefused(refused, text) then None else Some(MapText(f, text))
  {
    var done, chunk, i := "", "", 0;
    PassStart(f, refused, text);
    while i < |text|
      invariant Passing(f, refused, text, i, done, chunk)
    {
      if Opens(text[i]) {
        var j := CloseOfSpan(text, i);
        SpanAt(text, i, j);
        j := if j < |text| then j + 1 else |text|;
        PassSpan(f, refused, text, i, done, chunk, j);
        if refused(chunk) { return None; }
        done, chunk, i := done + f(chunk) + text[i..j], "", j;
      } else {
        PassChar(f, refused, text, i, done, chunk);
        chunk, i := chunk + [text[i]], i + 1;
      }
    }
    PassEnd(f, refused, text, done, chunk);
    if refused(chunk) { return None; }
    return Some(done + f(chunk));
  }

  // ---- What the spans are afterwards -------------------------------------------------------

  /** The quoted spans of a statement, in order. */
  function Spans(ts: seq<Token>): seq<Token> {
    if ts == [] then []
    else if ts[0].Span? then [ts[0]] + Spans(ts[1..])
    else Spans(ts[1..])
  }

  /** Text that opens neither a span nor a comment. */
  ghost predicate Calm(x: string) {
    forall k :: 0 <= k < |x| ==> !IsQuote(x[k]) && !StartsComment(x, k)
  }

  predicate StartsComment(x: string, k: nat) {
    k + 1 < |x| && ((x[k] == '-' && x[k + 1] == '-') || (x[k] == '/' && x[k + 1] == '*'))
  }

  lemma CalmRest(x: string, n: nat)
    requires Calm(x) && n <= |x|
    ensures Calm(x[n..])
  {
    forall k | 0 <= k < |x| - n ensures x[n..][k] == x[n + k] {}
  }

  /** Calm text in front of a span, or of nothing, adds no span. */
  lemma {:induction false} CalmHasNoSpan(x: string, r: string)
    requires Calm(x) && (r == "" || Opens(r[0]))
    ensures Spans(Lex(Sqlite, x + r)) == Spans(Lex(Sqlite, r))
    decreases |x|
  {
    if x == "" {
      assert x + r == r;
    } else {
      var s := x + r;
      var t := First(Sqlite, s);
      assert s[0] == x[0] && (|s| > 1 ==> s[1] == if |x| > 1 then x[1] else r[0]);
      assert !OpensComment(Sqlite, s);
      var n := |Text(t)|;
      if t.Word? { WordEndsInside(x, r); }
      assert n <= |x| && Rest(Sqlite, s) == x[n..] + r;
      CalmRest(x, n);
      CalmHasNoSpan(x[n..], r);
      LexStep(Sqlite, s);
    }
  }

  lemma WordEndsInside(x: string, r: string)
    requires r == "" || Opens(r[0])
    ensures WordLen(x + r) <= |x|
  {
    if r != "" { assert (x + r)[|x|] == r[0] && !IsWordChar((x + r)[|x|]); }
  }

  /** Where two calm texts meet, no comment starts. */
  predicate Meets(x: string, y: string) {
    x == "" || y == "" || !StartsComment([x[|x| - 1], y[0]], 0)
  }

  lemma CalmJoin(x: string, y: string)
    requires Calm(x) && Calm(y) && Meets(x, y)
    ensures Calm(x + y)
  {
    forall k | 0 <= k < |x + y| ensures !IsQuote((x + y)[k]) && !StartsComment(x + y, k) {
      if k < |x| { assert (x + y)[k] == x[k]; } else { assert (x + y)[k] == y[k - |x|]; }
    }
  }

  /** A statement's own stretches are calm when it has no comment and nothing double-quoted. */
  lemma {:induction false} ChunkIsCalm(s: string)
    requires CommentFree(Lex(Sqlite, s)) && AllPortable(Lex(Sqlite, s))
    ensures Calm(s[..ChunkLen(s)])
    ensures Spans(Lex(Sqlite, s)) == Spans(Lex(Sqlite, s[ChunkLen(s)..]))
    ensures CommentFree(Lex(Sqlite, s[ChunkLen(s)..])) && AllPortable(Lex(Sqlite, s[ChunkLen(s)..]))
    decreases |s|
  {
    if s == "" || Opens(s[0]) {
      assert s[0..] == s;
    } else {
      var ts := Lex(Sqlite, s);
      LexStep(Sqlite, s);
      assert NotRemark(ts[0]) && Portable(ts[0]);
      TailsToo(ts);
      var r := Rest(Sqlite, s);
      ChunkIsCalm(r);
      TokenInChunk(s);
      TokenIsCalm(s, First(Sqlite, s), r);
    }
  }

  lemma TokenIsCalm(s: string, t: Token, r: string)
    requires s != "" && t == First(Sqlite, s) && r == Rest(Sqlite, s) && !t.Span? && !t.Comment?
    requires Calm(r[..ChunkLen(r)])
    ensures Calm(Text(t) + r[..ChunkLen(r)])
  {
    var c := r[..ChunkLen(r)];
    assert Calm(Text(t));
    assert Meets(Text(t), c) by {
      if t.Sym? && c != "" { assert s[0] == t.c && s[1] == c[0]; }
    }
    CalmJoin(Text(t), c);
  }

  lemma TailsToo(ts: seq<Token>)
    requires ts != [] && CommentFree(ts) && AllPortable(ts)
    ensures CommentFree(ts[1..]) && AllPortable(ts[1..])
  {
    forall i | 0 <= i < |ts| - 1 ensures ts[1..][i] == ts[i + 1] {}
  }

  lemma NoSpanInside(s: string, t: Token)
    requires s != "" && !Opens(s[0]) && t == First(Sqlite, s) && NotRemark(t) && Portable(t)
    ensures !t.Span? && forall k :: 0 <= k < |Text(t)| ==> !Opens(Text(t)[k])
  {
  }

  lemma ChunkOfBoth(s: string, x: string, r: string)
    requires s == x + r && forall k :: 0 <= k < |x| ==> !Opens(x[k])
    ensures s[ChunkLen(s)..] == r[ChunkLen(r)..] && s[..ChunkLen(s)] == x + r[..ChunkLen(r)]
  {
    ChunkThen(x, r);
    DropBoth(x, r, ChunkLen(r));
  }

  lemma TokenInChunk(s: string)
    requires s != "" && !Opens(s[0]) && NotRemark(First(Sqlite, s)) && Portable(First(Sqlite, s))
    ensures var t, r := First(Sqlite, s), Rest(Sqlite, s);
      && !t.Span? && s[ChunkLen(s)..] == r[ChunkLen(r)..] && s[..ChunkLen(s)] == Text(t) + r[..ChunkLen(r)]
  {
    var t, r := First(Sqlite, s), Rest(Sqlite, s);
    NoSpanInside(s, t);
    ChunkOfBoth(s, Text(t), r);
  }

  lemma DropBoth(x: string, r: string, n: nat)
    requires n <= |r|
    ensures (x + r)[|x| + n..] == r[n..] && (x + r)[..|x| + n] == x + r[..n]
  {
  }

  /** A rewrite that keeps calm text calm, and makes no such text appear or disappear. */
  ghost predicate Quiet(f: string -> string) {
    forall c :: Calm(c) ==> Calm(f(c)) && (c == "" <==> f(c) == "")
  }

  lemma QuietHere(f: string -> string, c: string)
    requires Quiet(f) && Calm(c)
    ensures Calm(f(c)) && (c == "" <==> f(c) == "")
  {
  }

  lemma MapParts(f: string -> string, s: string)
    ensures var n := ChunkLen(s);
      MapText(f, s) == if n == |s| then f(s[..n]) else f(s[..n]) + (s[n..][..SpanLen(s[n..])] + MapText(f, s[n..][SpanLen(s[n..])..]))
  {
    if ChunkLen(s) == |s| { assert s[..|s|] == s; }
  }

  lemma MapHead(f: string -> string, s: string)
    requires Quiet(f) && Calm(s[..ChunkLen(s)])
    ensures MapText(f, s) == "" <==> s == ""
    ensures s != "" && Opens(s[0]) ==> MapText(f, s)[0] == s[0]
    ensures s != "" && !Opens(s[0]) ==> !IsQuote(MapText(f, s)[0])
  {
    var n := ChunkLen(s);
    QuietHere(f, s[..n]);
    MapParts(f, s);
    if s != "" && Opens(s[0]) {
      assert s[..0] == "" && s[0..] == s;
    }
  }

  /**
   Whatever such a rewrite does between them, every string literal and every quoted name of a
   statement is in the result, unchanged and in order, and there are no others.
   */
  lemma {:induction false} SpansSurvive(f: string -> string, s: string)
    requires Quiet(f) && CommentFree(Lex(Sqlite, s)) && AllPortable(Lex(Sqlite, s))
    ensures Spans(Lex(Sqlite, MapText(f, s))) == Spans(Lex(Sqlite, s))
    decreases |s|
  {
    var n := ChunkLen(s);
    ChunkIsCalm(s);
    QuietHere(f, s[..n]);
    MapParts(f, s);
    if n == |s| {
      assert s[n..] == "" && f(s[..n]) + "" == f(s[..n]);
      CalmHasNoSpan(f(s[..n]), "");
    } else {
      var r := s[n..];
      SpanSurvives(f, r);
      CalmHasNoSpan(f(s[..n]), r[..SpanLen(r)] + MapText(f, r[SpanLen(r)..]));
    }
  }

  lemma {:induction false} SpanSurvives(f: string -> string, r: string)
    requires Quiet(f) && CommentFree(Lex(Sqlite, r)) && AllPortable(Lex(Sqlite, r))
    requires r != "" && Opens(r[0])
    ensures var u := r[..SpanLen(r)] + MapText(f, r[SpanLen(r)..]);
      u != "" && Opens(u[0]) && Spans(Lex(Sqlite, u)) == Spans(Lex(Sqlite, r))
    decreases |r|, 0
  {
    var t, rest := First(Sqlite, r), Rest(Sqlite, r);
    LexStep(Sqlite, r);
    TailsToo(Lex(Sqlite, r));
    assert Text(t) == r[..SpanLen(r)] && rest == r[SpanLen(r)..];
    SpansSurvive(f, rest);
    FirstIsSeparate(Sqlite, r);
    SpanFollowed(f, t, rest);
    FirstOfText(Sqlite, t, MapText(f, rest));
    LexStep(Sqlite, Text(t) + MapText(f, rest));
  }

  lemma SpanFollowed(f: string -> string, t: Token, rest: string)
    requires Quiet(f) && t.Span? && IsQuote(t.quote) && Follows(t, rest)
    requires CommentFree(Lex(Sqlite, rest)) && AllPortable(Lex(Sqlite, rest))
    ensures Follows(t, MapText(f, rest))
  {
    ChunkIsCalm(rest);
    MapHead(f, rest);
  }
}
