/** What the text of a WHERE condition says of a row. */
module Conditions {
  import opened Wrappers
  import opened Values
  import opened SqlLexer
  import opened ReservedWords
  import opened LikeSearch

  // ---- Truth -------------------------------------------------------------------------------

  /** SQL's three truth values; a row is kept only when the condition is True. */
  datatype Truth = True | False | Unknown

  function And(a: Truth, b: Truth): Truth {
    if a.False? || b.False? then False else if a.True? && b.True? then True else Unknown
  }

  function Or(a: Truth, b: Truth): Truth {
    if a.True? || b.True? then True else if a.False? && b.False? then False else Unknown
  }

  function Of(b: bool): Truth { if b then True else False }

  type Row = map<string, Value>

  function Cell(row: Row, column: string): Value { if column in row then row[column] else Null }

  /**
   What depends on the database: how it compares values, writes them as text and lower-cases; the
   escape character and the folding its LIKE has by itself; and what it makes of any condition that
   is not one of those read below.
   */
  datatype Engine = Engine(
    same: (Value, Value) -> bool,
    less: (Value, Value) -> bool,
    text: Value -> string,
    lower: char -> char,
    escape: Option<char>,
    fold: char -> char,
    other: (Row, seq<Token>, seq<Value>) -> Truth)

  // ---- Tokens ------------------------------------------------------------------------------

  predicate IsBlank(t: Token) { t == Sym(' ') || t == Sym('\n') || t == Sym('\t') || t == Sym('\r') }

  function Solid(ts: seq<Token>): seq<Token> {
    if ts == [] then [] else if IsBlank(ts[0]) then Solid(ts[1..]) else [ts[0]] + Solid(ts[1..])
  }

  /** The tokens of a text without the blanks between them. */
  function Code(s: string): seq<Token> { Solid(Lex(Sqlite, s)) }

  predicate IsKeyword(t: Token, word: string) { t.Word? && Lower(t.text) == word }

  function Deeper(t: Token, depth: nat): nat {
    if t == Sym('(') then depth + 1 else if t == Sym(')') && depth > 0 then depth - 1 else depth
  }

  /** The first place outside all parentheses where a keyword stands, or the end. */
  function Find(ts: seq<Token>, word: string, depth: nat): (n: nat)
    ensures n <= |ts|
    ensures n < |ts| ==> IsKeyword(ts[n], word)
  {
    if ts == [] then 0
    else if depth == 0 && IsKeyword(ts[0], word) then 0
    else 1 + Find(ts[1..], word, Deeper(ts[0], depth))
  }

  /** The place where the parenthesis opened before is closed, or the end. */
  function Close(ts: seq<Token>, depth: nat): (n: nat)
    ensures n <= |ts|
  {
    if ts == [] then 0
    else if depth == 1 && ts[0] == Sym(')') then 0
    else 1 + Close(ts[1..], Deeper(ts[0], depth))
  }

  predicate Enclosed(ts: seq<Token>) { |ts| > 1 && ts[0] == Sym('(') && Close(ts[1..], 1) == |ts| - 2 }

  function HoleCount(ts: seq<Token>): nat {
    if ts == [] then 0 else (if ts[0] == Sym('?') then 1 else 0) + HoleCount(ts[1..])
  }

  function Take(args: seq<Value>, n: nat): seq<Value> { if n <= |args| then args[..n] else args }

  function Drop(args: seq<Value>, n: nat): seq<Value> { if n <= |args| then args[n..] else [] }

  // ---- Reading -----------------------------------------------------------------------------

  /** A condition on one column. */
  datatype Test = Eq | Ne | Gt | Lt | Gte | Lte | Matching | IsNull | NotNull | Among

  function CompareTruth(e: Engine, test: Test, cell: Value, arg: Value): Truth {
    if cell == Null || arg == Null then Unknown
    else
      match test
      case Eq => Of(e.same(cell, arg))
      case Ne => Of(!e.same(cell, arg))
      case Gt => Of(e.less(arg, cell))
      case Lt => Of(e.less(cell, arg))
      case Gte => Of(!e.less(cell, arg))
      case Lte => Of(!e.less(arg, cell))
      case _ => Of(LikeFolded(e.escape, e.fold, e.text(arg), e.text(cell)))
  }

  /** A list is as many equalities joined by OR. */
  function AmongTruth(e: Engine, cell: Value, args: seq<Value>): Truth {
    if args == [] then False else Or(CompareTruth(e, Eq, cell, args[0]), AmongTruth(e, cell, args[1..]))
  }

  function TestTruth(e: Engine, test: Test, cell: Value, args: seq<Value>): Truth {
    match test
    case IsNull => Of(cell == Null)
    case NotNull => Of(cell != Null)
    case Among => AmongTruth(e, cell, args)
    case _ => CompareTruth(e, test, cell, if args == [] then Null else args[0])
  }

  /** LOWER(COALESCE(column, '')) LIKE ? ESCAPE '\' */
  function SearchTruth(e: Engine, cell: Value, args: seq<Value>): Truth {
    var arg := if args == [] then Null else args[0];
    if arg == Null then Unknown
    else Of(LikeFolded(Some('\\'), e.fold, e.text(arg), Fold(e.lower, if cell == Null then "" else e.text(cell))))
  }

  /** How many tokens a column takes: one, or three with its table's alias. */
  function ColumnSize(ts: seq<Token>): (n: nat)
    ensures n <= |ts|
  {
    if ts == [] || !ts[0].Word? then 0
    else if |ts| > 2 && ts[1] == Sym('.') && ts[2].Word? then 3
    else 1
  }

  function ColumnName(ts: seq<Token>): string
    requires ColumnSize(ts) > 0
  {
    if ColumnSize(ts) == 3 then ts[0].text + "." + ts[2].text else ts[0].text
  }

  /** Placeholders separated by commas, and the parenthesis that closes them. */
  predicate IsMarks(ts: seq<Token>) {
    |ts| > 1 && ts[0] == Sym('?') && (ts[1..] == [Sym(')')] || (ts[1] == Sym(',') && IsMarks(ts[2..])))
  }

  /** What follows a column, if it is one of the conditions read. */
  function TestOf(ts: seq<Token>): Option<Test> {
    if ts == [Sym('='), Sym('?')] then Some(Eq)
    else if ts == [Sym('!'), Sym('='), Sym('?')] then Some(Ne)
    else if ts == [Sym('>'), Sym('?')] then Some(Gt)
    else if ts == [Sym('<'), Sym('?')] then Some(Lt)
    else if ts == [Sym('>'), Sym('='), Sym('?')] then Some(Gte)
    else if ts == [Sym('<'), Sym('='), Sym('?')] then Some(Lte)
    else if |ts| == 2 && IsKeyword(ts[0], "like") && ts[1] == Sym('?') then Some(Matching)
    else if |ts| == 2 && IsKeyword(ts[0], "is") && IsKeyword(ts[1], "null") then Some(IsNull)
    else if |ts| == 3 && IsKeyword(ts[0], "is") && IsKeyword(ts[1], "not") && IsKeyword(ts[2], "null") then Some(NotNull)
    else if |ts| > 2 && IsKeyword(ts[0], "in") && ts[1] == Sym('(') && IsMarks(ts[2..]) then Some(Among)
    else None
  }

  predicate IsSearchTail(ts: seq<Token>) {
    && |ts| == 8 && ts[0] == Sym(',') && ts[1] == Span('\'', "", true) && ts[2] == ts[3] == Sym(')')
    && IsKeyword(ts[4], "like") && ts[5] == Sym('?') && IsKeyword(ts[6], "escape") && ts[7] == Span('\'', "\\", true)
  }

  predicate IsSearch(ts: seq<Token>) {
    && |ts| > 4 && IsKeyword(ts[0], "lower") && ts[1] == Sym('(') && IsKeyword(ts[2], "coalesce") && ts[3] == Sym('(')
    && ColumnSize(ts[4..]) > 0 && IsSearchTail(ts[4..][ColumnSize(ts[4..])..])
  }

  /** One condition that is no conjunction. */
  function AtomTruth(e: Engine, row: Row, ts: seq<Token>, args: seq<Value>): Truth {
    var n := ColumnSize(ts);
    if |ts| == 3 && ts[1] == Sym('=') && ts[0].Sym? && IsDigit(ts[0].c) && ts[2].Sym? && IsDigit(ts[2].c) then
      Of(ts[0] == ts[2])
    else if IsSearch(ts) then SearchTruth(e, Cell(row, ColumnName(ts[4..])), args)
    else if n > 0 && TestOf(ts[n..]).Some? then TestTruth(e, TestOf(ts[n..]).value, Cell(row, ColumnName(ts)), args)
    else e.other(row, ts, args)
  }

  /** OR binds looser than AND, parentheses tightest; values go to placeholders in order. */
  function Eval(e: Engine, row: Row, ts: seq<Token>, args: seq<Value>): Truth
    decreases |ts|
  {
    var o, a := Find(ts, "or", 0), Find(ts, "and", 0);
    if o < |ts| then
      var h := HoleCount(ts[..o]);
      Or(Eval(e, row, ts[..o], Take(args, h)), Eval(e, row, ts[o + 1..], Drop(args, h)))
    else if a < |ts| then
      var h := HoleCount(ts[..a]);
      And(Eval(e, row, ts[..a], Take(args, h)), Eval(e, row, ts[a + 1..], Drop(args, h)))
    else if Enclosed(ts) then Eval(e, row, ts[1..|ts| - 1], args)
    else AtomTruth(e, row, ts, args)
  }

  /** What a text says with its values. */
  function Says(e: Engine, row: Row, text: string, args: seq<Value>): Truth { Eval(e, row, Code(text), args) }

  // ---- Putting tokens together -------------------------------------------------------------

  function Level(ts: seq<Token>, depth: nat): nat {
    if ts == [] then depth else Level(ts[1..], Deeper(ts[0], depth))
  }

  /** Every parenthesis that is closed was opened. */
  predicate NoStray(ts: seq<Token>, depth: nat) {
    ts == [] || (!(ts[0] == Sym(')') && depth == 0) && NoStray(ts[1..], Deeper(ts[0], depth)))
  }

  /** Parentheses that match, and no OR outside them. */
  predicate Whole(ts: seq<Token>) { NoStray(ts, 0) && Level(ts, 0) == 0 && Find(ts, "or", 0) == |ts| }

  lemma {:induction false} FindThen(a: seq<Token>, b: seq<Token>, word: string, depth: nat)
    ensures Find(a + b, word, depth)
            == if Find(a, word, depth) < |a| then Find(a, word, depth) else |a| + Find(b, word, Level(a, depth))
    decreases |a|
  {
    if a == [] {
      assert a + b == b;
    } else {
      assert (a + b)[1..] == a[1..] + b;
      FindThen(a[1..], b, word, Deeper(a[0], depth));
    }
  }

  lemma {:induction false} LevelThen(a: seq<Token>, b: seq<Token>, depth: nat)
    ensures Level(a + b, depth) == Level(b, Level(a, depth))
    ensures NoStray(a + b, depth) <==> NoStray(a, depth) && NoStray(b, Level(a, depth))
    decreases |a|
  {
    if a == [] {
      assert a + b == b;
    } else {
      assert (a + b)[1..] == a[1..] + b;
      LevelThen(a[1..], b, Deeper(a[0], depth));
    }
  }

  lemma {:induction false} HolesThen(a: seq<Token>, b: seq<Token>)
    ensures HoleCount(a + b) == HoleCount(a) + HoleCount(b)
    decreases |a|
  {
    if a == [] {
      assert a + b == b;
    } else {
      assert (a + b)[1..] == a[1..] + b;
      HolesThen(a[1..], b);
    }
  }

  lemma AndAssociates(a: Truth, b: Truth, c: Truth)
    ensures And(a, And(b, c)) == And(And(a, b), c)
  {
  }

  lemma SplitArgs(x: seq<Value>, y: seq<Value>, n: nat)
    requires n <= |x|
    ensures Take(x + y, n) == Take(x, n) && Drop(x + y, n) == Drop(x, n) + y
  {
  }

  /** What stands after an AND of a whole condition is whole, and holds the rest of its placeholders. */
  lemma WholeAfter(ts: seq<Token>, a: seq<Token>, t: Token, b: seq<Token>)
    requires ts == a + ([t] + b) && Whole(ts) && Level(a, 0) == 0 && IsKeyword(t, "and")
    ensures Whole(b) && HoleCount(ts) == HoleCount(a) + HoleCount(b)
  {
    assert ([t] + b)[1..] == b;
    LevelThen(a, [t] + b, 0);
    FindThen(a, [t] + b, "or", 0);
    HolesThen(a, [t] + b);
  }

  lemma CutAt(ts: seq<Token>, k: nat)
    requires k < |ts|
    ensures ts == ts[..k] + ([ts[k]] + ts[k + 1..])
  {
  }

  lemma WholeHalves(ts: seq<Token>, k: nat)
    requires Whole(ts) && k == Find(ts, "and", 0) < |ts|
    ensures Whole(ts[k + 1..]) && HoleCount(ts) == HoleCount(ts[..k]) + HoleCount(ts[k + 1..])
  {
    FirstAtTop(ts, "and", 0);
    CutAt(ts, k);
    WholeAfter(ts, ts[..k], ts[k], ts[k + 1..]);
  }

  /** Where a keyword is found, no parenthesis is open. */
  lemma {:induction false} FirstAtTop(ts: seq<Token>, word: string, depth: nat)
    requires Find(ts, word, depth) < |ts|
    ensures Level(ts[..Find(ts, word, depth)], depth) == 0
    decreases |ts|
  {
    var k := Find(ts, word, depth);
    if k > 0 {
      FirstAtTop(ts[1..], word, Deeper(ts[0], depth));
      assert ts[..k][1..] == ts[1..][..k - 1];
    }
  }

  const AND := Word("AND")

  lemma WholeAndWhole(a: seq<Token>, b: seq<Token>)
    requires Whole(a) && Whole(b)
    ensures Whole(a + ([AND] + b))
  {
    assert ([AND] + b)[1..] == b;
    LevelThen(a, [AND] + b, 0);
    FindThen(a, [AND] + b, "or", 0);
  }

  lemma AtAnd(e: Engine, row: Row, a: seq<Token>, t: Token, b: seq<Token>, x: seq<Value>, y: seq<Value>)
    requires Find(a + ([t] + b), "or", 0) == |a + ([t] + b)| && Find(a + ([t] + b), "and", 0) == |a|
    requires HoleCount(a) == |x|
    ensures Eval(e, row, a + ([t] + b), x + y) == And(Eval(e, row, a, x), Eval(e, row, b, y))
  {
    var ts := a + ([t] + b);
    assert ts[..|a|] == a && ts[|a| + 1..] == b;
    SplitArgs(x, y, |x|);
    assert Take(x, |x|) == x && Drop(x, |x|) + y == y;
  }

  /** The first of several conjuncts, when the others are joined to one more. */
  lemma MoreAnd(e: Engine, row: Row, a: seq<Token>, k: nat, b: seq<Token>, u: seq<Value>, v: seq<Value>, y: seq<Value>)
    requires Whole(a) && Whole(b) && k == Find(a, "and", 0) < |a| && |u| == HoleCount(a[..k])
    ensures var rest := a[k + 1..];
      && Eval(e, row, a, u + v) == And(Eval(e, row, a[..k], u), Eval(e, row, rest, v))
      && Eval(e, row, a + ([AND] + b), u + (v + y)) == And(Eval(e, row, a[..k], u), Eval(e, row, rest + ([AND] + b), v + y))
  {
    var first, rest := a[..k], a[k + 1..];
    WholeAndWhole(a, b);
    FindThen(a, [AND] + b, "and", 0);
    CutAt(a, k);
    AtAnd(e, row, first, a[k], rest, u, v);
    Regroup(first, a[k], rest, [AND] + b);
    AtAnd(e, row, first, a[k], rest + ([AND] + b), u, v + y);
  }

  lemma Regroup(a: seq<Token>, t: Token, b: seq<Token>, c: seq<Token>)
    ensures (a + ([t] + b)) + c == a + ([t] + (b + c))
  {
  }

  /** Two whole conditions joined by AND say what each says with its own values. */
  lemma {:induction false} JoinedByAnd(e: Engine, row: Row, a: seq<Token>, x: seq<Value>, b: seq<Token>, y: seq<Value>)
    requires Whole(a) && Whole(b) && HoleCount(a) == |x|
    ensures Eval(e, row, a + ([AND] + b), x + y) == And(Eval(e, row, a, x), Eval(e, row, b, y))
    decreases |a|
  {
    var k := Find(a, "and", 0);
    if k < |a| {
      var rest, h := a[k + 1..], HoleCount(a[..k]);
      WholeHalves(a, k);
      var u, v := x[..h], x[h..];
      assert x == u + v;
      Associate(u, v, y);
      MoreAnd(e, row, a, k, b, u, v, y);
      JoinedByAnd(e, row, rest, v, b, y);
      AndAssociates(Eval(e, row, a[..k], u), Eval(e, row, rest, v), Eval(e, row, b, y));
    } else {
      WholeAndWhole(a, b);
      FindThen(a, [AND] + b, "and", 0);
      AtAnd(e, row, a, AND, b, x, y);
    }
  }

  // ---- Texts put together ------------------------------------------------------------------

  /** No comment, and every quote closed. */
  predicate Settled(s: string) {
    forall i :: 0 <= i < |Lex(Sqlite, s)| ==>
      !Lex(Sqlite, s)[i].Comment? && (Lex(Sqlite, s)[i].Span? ==> Lex(Sqlite, s)[i].closed)
  }

  /** Text that starts a token of its own, whatever stands before it. */
  predicate Loose(b: string) { b == "" || b[0] == ' ' || b[0] == '(' || b[0] == ')' || b[0] == ',' }

  lemma SettledRest(s: string)
    requires s != "" && Settled(s)
    ensures !First(Sqlite, s).Comment? && (First(Sqlite, s).Span? ==> First(Sqlite, s).closed)
    ensures Settled(Rest(Sqlite, s))
  {
    LexStep(Sqlite, s);
    var ts := Lex(Sqlite, s);
    assert ts[0] == First(Sqlite, s);
    forall i | 0 <= i < |ts[1..]| ensures ts[1..][i] == ts[i + 1] {}
  }

  lemma StillFollows(a: string, b: string)
    requires a != "" && Settled(a) && Loose(b)
    ensures Follows(First(Sqlite, a), Rest(Sqlite, a) + b)
  {
    var r := Rest(Sqlite, a);
    SettledRest(a);
    FirstIsSeparate(Sqlite, a);
    if r == "" { assert r + b == b; } else { assert (r + b)[0] == r[0]; }
  }

  lemma FirstThen(a: string, b: string)
    requires a != "" && Settled(a) && Loose(b)
    ensures a + b != "" && First(Sqlite, a + b) == First(Sqlite, a) && Rest(Sqlite, a + b) == Rest(Sqlite, a) + b
  {
    var t, r := First(Sqlite, a), Rest(Sqlite, a);
    SettledRest(a);
    FirstIsSeparate(Sqlite, a);
    StillFollows(a, b);
    FirstOfText(Sqlite, t, r + b);
    Associate(Text(t), r, b);
  }

  lemma {:induction false} LexThen(a: string, b: string)
    requires Settled(a) && Loose(b)
    ensures Lex(Sqlite, a + b) == Lex(Sqlite, a) + Lex(Sqlite, b)
    decreases |a|
  {
    if a == "" {
      assert a + b == b;
    } else {
      FirstThen(a, b);
      SettledRest(a);
      LexThen(Rest(Sqlite, a), b);
      LexUnfold(a);
      LexUnfold(a + b);
      Associate([First(Sqlite, a)], Lex(Sqlite, Rest(Sqlite, a)), Lex(Sqlite, b));
    }
  }

  lemma LexUnfold(s: string)
    requires s != ""
    ensures Lex(Sqlite, s) == [First(Sqlite, s)] + Lex(Sqlite, Rest(Sqlite, s))
  {
  }

  lemma {:induction false} SolidThen(x: seq<Token>, y: seq<Token>)
    ensures Solid(x + y) == Solid(x) + Solid(y)
    decreases |x|
  {
    if x == [] {
      assert x + y == y;
    } else {
      assert (x + y)[1..] == x[1..] + y;
      SolidThen(x[1..], y);
    }
  }

  lemma CodeThen(a: string, b: string)
    requires Settled(a) && Loose(b)
    ensures Code(a + b) == Code(a) + Code(b) && (Settled(b) ==> Settled(a + b))
  {
    LexThen(a, b);
    SolidThen(Lex(Sqlite, a), Lex(Sqlite, b));
  }

  /** A character that is a token by itself, whatever follows. */
  predicate IsMark(c: char) { !IsQuote(c) && !IsWordStart(c) && c != '-' && c != '/' }

  lemma MarkThen(c: char, r: string)
    requires IsMark(c) && !IsBlank(Sym(c))
    ensures Code([c] + r) == [Sym(c)] + Code(r)
    ensures Settled(r) ==> Settled([c] + r)
  {
    FirstOfText(Sqlite, Sym(c), r);
    LexUnfold([c] + r);
  }

  lemma BlankThen(c: char, r: string)
    requires IsBlank(Sym(c))
    ensures Code([c] + r) == Code(r)
    ensures Settled(r) ==> Settled([c] + r)
  {
    FirstOfText(Sqlite, Sym(c), r);
    LexUnfold([c] + r);
  }

  predicate IsName(w: string) { w != "" && IsWordStart(w[0]) && forall k :: 0 <= k < |w| ==> IsWordChar(w[k]) }

  lemma {:induction false} NameLen(w: string)
    requires forall k :: 0 <= k < |w| ==> IsWordChar(w[k])
    ensures WordLen(w) == |w|
    decreases |w|
  {
    if w != "" { NameLen(w[1..]); }
  }

  lemma NameThen(w: string, r: string)
    requires IsName(w) && (r == "" || !IsWordChar(r[0]))
    ensures Code(w + r) == [Word(w)] + Code(r)
    ensures Settled(r) ==> Settled(w + r)
  {
    NameLen(w);
    FirstOfText(Sqlite, Word(w), r);
    LexUnfold(w + r);
  }

  /** A string literal, given with its quotes. */
  lemma LiteralThen(literal: string, b: string, r: string)
    requires literal == Text(Span('\'', b, true)) && BodyLen(false, '\'', b + "'") == |b| && (r == "" || r[0] != '\'')
    ensures Code(literal + r) == [Span('\'', b, true)] + Code(r)
    ensures Settled(r) ==> Settled(literal + r)
  {
    var t := Span('\'', b, true);
    assert ['\''] == "'";
    FirstOfText(Sqlite, t, r);
    TokenThen(t, r);
  }

  lemma TokenThen(t: Token, r: string)
    requires Text(t) + r != "" && First(Sqlite, Text(t) + r) == t && Rest(Sqlite, Text(t) + r) == r
    requires !t.Comment? && (t.Span? ==> t.closed)
    ensures Code(Text(t) + r) == (if IsBlank(t) then [] else [t]) + Code(r)
    ensures Settled(r) ==> Settled(Text(t) + r)
  {
    LexUnfold(Text(t) + r);
  }

  lemma Nothing()
    ensures Code("") == [] && Settled("")
  {
  }

  function Spaced(word: string, rest: string): string { [' '] + (word + ([' '] + rest)) }

  /** A word between blanks. */
  lemma SpacedCode(word: string, rest: string)
    requires IsName(word)
    ensures Code(Spaced(word, rest)) == [Word(word)] + Code(rest)
    ensures Settled(rest) ==> Settled(Spaced(word, rest))
  {
    BlankThen(' ', rest);
    NameThen(word, [' '] + rest);
    BlankThen(' ', word + ([' '] + rest));
  }

  /** Text of single-character tokens only. */
  function Symbols(s: string): seq<Token> {
    if s == "" then [] else (if IsBlank(Sym(s[0])) then [] else [Sym(s[0])]) + Symbols(s[1..])
  }

  lemma {:induction false} SymbolsCode(s: string)
    requires forall k :: 0 <= k < |s| ==> IsMark(s[k])
    ensures Code(s) == Symbols(s) && Settled(s)
    decreases |s|
  {
    if s == "" {
      Nothing();
    } else {
      SymbolsCode(s[1..]);
      if IsBlank(Sym(s[0])) { BlankThen(s[0], s[1..]); } else { MarkThen(s[0], s[1..]); }
      assert s == [s[0]] + s[1..];
    }
  }

  // ---- Column names ------------------------------------------------------------------------

  predicate IdentPart(s: string) {
    s != "" && IsWordStart(s[0]) && forall k :: 0 <= k < |s| ==> IsWordStart(s[k]) || IsDigit(s[k])
  }

  /** The first dot of a name, or its end. */
  function Dot(name: string): (n: nat)
    ensures n <= |name| && (n < |name| ==> name[n] == '.') && forall k :: 0 <= k < n ==> name[k] != '.'
  {
    if name == "" || name[0] == '.' then 0 else 1 + Dot(name[1..])
  }

  /** A bare column, or one qualified by a table alias. */
  predicate Ident(name: string) {
    var d := Dot(name);
    if d == |name| then IdentPart(name) else IdentPart(name[..d]) && IdentPart(name[d + 1..])
  }

  lemma DotEndsPart(name: string, d: nat, k: nat)
    requires d < |name| && k <= |name| && name[d] == '.'
    ensures IdentPart(name[..k]) ==> k <= d
  {
    assert d < k ==> name[..k][d] == '.';
  }

  /** One dot at most, with a plain name on either side of it: letters, digits and underscores, no digit first. */
  lemma IdentExactly(name: string)
    ensures Ident(name) <==> IdentPart(name) || exists k :: 0 <= k < |name| && name[k] == '.' && IdentPart(name[..k]) && IdentPart(name[k + 1..])
  {
    var d := Dot(name);
    if k :| 0 <= k < |name| && name[k] == '.' && IdentPart(name[..k]) && IdentPart(name[k + 1..]) {
      DotEndsPart(name, d, k);
    }
  }

  lemma {:induction false} NoDot(s: string)
    requires forall k :: 0 <= k < |s| ==> s[k] != '.'
    ensures Dot(s) == |s|
    decreases |s|
  {
    if s != "" { NoDot(s[1..]); }
  }

  lemma PartIsIdent(s: string)
    requires IdentPart(s)
    ensures Ident(s)
  {
    NoDot(s);
  }

  predicate IsJoint(w: string) { Lower(w) == "and" || Lower(w) == "or" }

  /** A name no part of which SQL takes for AND or OR. */
  predicate IsColumn(name: string) {
    var d := Dot(name);
    Ident(name) && (if d == |name| then !IsJoint(name) else !IsJoint(name[..d]) && !IsJoint(name[d + 1..]))
  }

  function ColumnTokens(name: string): seq<Token>
    requires Ident(name)
  {
    var d := Dot(name);
    if d == |name| then [Word(name)] else [Word(name[..d]), Sym('.'), Word(name[d + 1..])]
  }

  lemma NameFirst(w: string, c: char, r: string)
    requires IsName(w) && IsMark(c) && !IsBlank(Sym(c)) && !IsWordChar(c)
    ensures Code(w + ([c] + r)) == [Word(w), Sym(c)] + Code(r)
    ensures Settled(r) ==> Settled(w + ([c] + r))
  {
    MarkThen(c, r);
    NameThen(w, [c] + r);
    OneThenOne(Word(w), Sym(c), Code(r));
  }

  lemma OneThenOne(x: Token, y: Token, r: seq<Token>)
    ensures [x] + ([y] + r) == [x, y] + r
  {
  }

  lemma QualifiedCode(a: string, b: string, tail: string)
    requires IsName(a) && IsName(b) && Loose(tail)
    ensures Code(a + ("." + (b + tail))) == [Word(a), Sym('.'), Word(b)] + Code(tail)
    ensures Settled(tail) ==> Settled(a + ("." + (b + tail)))
  {
    var rest := b + tail;
    NameThen(b, tail);
    NameFirst(a, '.', rest);
    ThreeTokens(Word(a), Sym('.'), Word(b), Code(tail));
  }

  lemma ThreeTokens(x: Token, y: Token, z: Token, r: seq<Token>)
    ensures [x, y] + ([z] + r) == [x, y, z] + r
  {
  }

  lemma ColumnCode(col: string, tail: string)
    requires Ident(col) && Loose(tail)
    ensures Code(col + tail) == ColumnTokens(col) + Code(tail)
    ensures Settled(tail) ==> Settled(col + tail)
  {
    var d := Dot(col);
    if d == |col| {
      NameThen(col, tail);
    } else {
      QualifiedCode(col[..d], col[d + 1..], tail);
      QualifiedText(col, d, tail);
    }
  }

  lemma QualifiedText(col: string, d: nat, tail: string)
    requires d < |col| && col[d] == '.'
    ensures col + tail == col[..d] + ("." + (col[d + 1..] + tail))
  {
  }

  lemma ColumnRead(col: string, rest: seq<Token>)
    requires Ident(col) && (rest == [] || rest[0] != Sym('.'))
    ensures var ts := ColumnTokens(col) + rest; var n := |ColumnTokens(col)|;
      ColumnSize(ts) == n && ColumnName(ts) == col && ts[n..] == rest
  {
    var d := Dot(col);
    if d < |col| { assert col == col[..d] + "." + col[d + 1..]; }
  }

  /** Tokens among which no AND, OR or parenthesis stands. */
  predicate IsFlat(ts: seq<Token>) {
    forall i :: 0 <= i < |ts| ==> !IsKeyword(ts[i], "and") && !IsKeyword(ts[i], "or") && ts[i] != Sym('(') && ts[i] != Sym(')')
  }

  lemma {:induction false} FlatAt(ts: seq<Token>, depth: nat)
    requires IsFlat(ts)
    ensures Find(ts, "and", depth) == |ts| && Find(ts, "or", depth) == |ts|
    ensures Level(ts, depth) == depth && NoStray(ts, depth)
    decreases |ts|
  {
    if ts != [] {
      assert IsFlat(ts[1..]) by { forall i | 0 <= i < |ts[1..]| ensures ts[1..][i] == ts[i + 1] {} }
      FlatAt(ts[1..], depth);
    }
  }

  lemma FlatIsWhole(ts: seq<Token>)
    requires IsFlat(ts)
    ensures Find(ts, "and", 0) == |ts| && Whole(ts)
  {
    FlatAt(ts, 0);
  }

  lemma ColumnIsFlat(col: string)
    requires IsColumn(col)
    ensures IsFlat(ColumnTokens(col)) && HoleCount(ColumnTokens(col)) == 0
  {
    var ts, d := ColumnTokens(col), Dot(col);
    if d < |col| {
      var b := Word(col[d + 1..]);
      assert ts[1..] == [Sym('.'), b] && ts[1..][1..] == [b] && [b][1..] == [];
      assert HoleCount([b]) == 0 && HoleCount([Sym('.'), b]) == 0;
    } else {
      assert ts[1..] == [];
    }
  }

  /** A column and a condition on it read as that condition of that column. */
  lemma ColumnTest(e: Engine, row: Row, col: string, rest: seq<Token>, args: seq<Value>)
    requires IsColumn(col) && TestOf(rest).Some?
    requires Find(ColumnTokens(col) + rest, "and", 0) == Find(ColumnTokens(col) + rest, "or", 0) == |ColumnTokens(col) + rest|
    ensures Eval(e, row, ColumnTokens(col) + rest, args) == TestTruth(e, TestOf(rest).value, Cell(row, col), args)
  {
    var ts := ColumnTokens(col) + rest;
    assert rest[0] != Sym('.') && rest[0] != Sym('(');
    ColumnRead(col, rest);
    assert ts[0].Word?;
    assert !IsSearch(ts) by { if |ColumnTokens(col)| == 1 { assert ts[1] == rest[0]; } }
  }
}
