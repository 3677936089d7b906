/** What the conditions a builder makes, alone and joined, say of a row once their text is read as SQL. */
module WhereMeaning {
  import opened Wrappers
  import opened Values
  import opened SqlLexer
  import opened ReservedWords
  import opened Placeholders
  import opened LikeSearch
  import opened Conditions
  import opened WhereBuilder

  /** A clause that keeps its own meaning among others: nothing is left open, and no OR is loose. */
  predicate Composable(p: Clause) {
    Balanced(p) && Settled(p.text) && Whole(Code(p.text)) && HoleCount(Code(p.text)) == |p.args|
  }

  predicate AllComposable(ps: seq<Clause>) { forall i :: 0 <= i < |ps| ==> Composable(ps[i]) }

  lemma ComposableBoth(a: seq<Clause>, b: seq<Clause>)
    requires AllComposable(a) && AllComposable(b)
    ensures AllComposable(a + b)
  {
  }

  /** Every clause said of the row with its own values. */
  function AllSay(e: Engine, row: Row, ps: seq<Clause>): Truth {
    if ps == [] then True else And(Says(e, row, ps[0].text, ps[0].args), AllSay(e, row, ps[1..]))
  }

  /** Whether a clause is true of the row. */
  predicate Kept(e: Engine, row: Row, p: Clause) { Says(e, row, p.text, p.args) == True }

  predicate AllKept(e: Engine, row: Row, ps: seq<Clause>) { forall i :: 0 <= i < |ps| ==> Kept(e, row, ps[i]) }

  lemma KeptBoth(e: Engine, row: Row, a: seq<Clause>, b: seq<Clause>)
    ensures AllKept(e, row, a + b) <==> AllKept(e, row, a) && AllKept(e, row, b)
  {
    forall i | 0 <= i < |a| ensures (a + b)[i] == a[i] {}
    forall i | 0 <= i < |b| ensures (a + b)[|a| + i] == b[i] {}
  }

  /** A row is kept exactly when every clause is true of it. */
  lemma {:induction false} KeptByAll(e: Engine, row: Row, ps: seq<Clause>)
    ensures AllSay(e, row, ps) == True <==> AllKept(e, row, ps)
  {
    if ps != [] {
      KeptByAll(e, row, ps[1..]);
      KeptBoth(e, row, [ps[0]], ps[1..]);
      assert [ps[0]] + ps[1..] == ps;
    }
  }

  // ---- Joining -----------------------------------------------------------------------------

  lemma SpacedText(word: string, rest: string)
    ensures " " + word + " " + rest == Spaced(word, rest)
  {
  }

  lemma AndText()
    ensures " AND " == " " + "AND" + " " && " OR " == " " + "OR" + " "
  {
  }

  lemma AndCode(rest: string)
    ensures Code(" AND " + rest) == [AND] + Code(rest)
    ensures Settled(rest) ==> Settled(" AND " + rest)
  {
    AndText();
    SpacedText("AND", rest);
    SpacedCode("AND", rest);
  }

  lemma JoinCode(a: string, rest: string)
    requires Settled(a) && Settled(rest)
    ensures Code(a + " AND " + rest) == Code(a) + ([AND] + Code(rest)) && Settled(a + " AND " + rest)
  {
    AndCode(rest);
    CodeThen(a, " AND " + rest);
    Associate(a, " AND ", rest);
  }

  lemma TailComposable(ps: seq<Clause>)
    requires AllComposable(ps) && ps != []
    ensures AllComposable(ps[1..]) && Composable(ps[0])
  {
    forall i | 0 <= i < |ps[1..]| ensures ps[1..][i] == ps[i + 1] {}
  }

  lemma TextsTail(ps: seq<Clause>)
    requires |ps| > 1
    ensures Join(Texts(ps)) == ps[0].text + " AND " + Join(Texts(ps[1..]))
  {
    assert Texts(ps)[1..] == Texts(ps[1..]);
  }

  /** Conditions joined are one condition without a loose OR. */
  lemma {:induction false} JoinedIsWhole(ps: seq<Clause>)
    requires AllComposable(ps) && ps != []
    ensures Settled(Join(Texts(ps))) && Whole(Code(Join(Texts(ps))))
  {
    TailComposable(ps);
    if |ps| > 1 {
      JoinedIsWhole(ps[1..]);
      TextsTail(ps);
      JoinCode(ps[0].text, Join(Texts(ps[1..])));
      WholeAndWhole(Code(ps[0].text), Code(Join(Texts(ps[1..]))));
    }
  }

  lemma OneIsOne()
    ensures Code("1=1") == [Sym('1'), Sym('='), Sym('1')]
  {
    SymbolsCode("1=1");
    assert "1=1"[1..] == "=1" && "=1"[1..] == "1" && "1"[1..] == "";
    assert Symbols("1") == [Sym('1')] && Symbols("=1") == [Sym('='), Sym('1')];
  }

  lemma AlwaysTrue(e: Engine, row: Row)
    ensures Says(e, row, "1=1", []) == True
  {
    OneIsOne();
    NumbersCompared(e, row, Code("1=1"));
  }

  lemma NumbersCompared(e: Engine, row: Row, ts: seq<Token>)
    requires ts == [Sym('1'), Sym('='), Sym('1')]
    ensures Eval(e, row, ts, []) == True
  {
    FlatIsWhole(ts);
  }

  /**
   The text built from any clauses that are each composable says exactly what every clause says
   with its own values, whatever the clauses are and in whatever order.
   */
  lemma {:induction false} JoinedSays(e: Engine, row: Row, ps: seq<Clause>)
    requires AllComposable(ps)
    ensures Says(e, row, TextOf(ps), Args(ps)) == AllSay(e, row, ps)
    decreases |ps|
  {
    if ps == [] {
      AlwaysTrue(e, row);
    } else {
      TailComposable(ps);
      JoinedSays(e, row, ps[1..]);
      if |ps| == 1 {
        assert Args(ps) == ps[0].args;
      } else {
        TextsTail(ps);
        JoinedIsWhole(ps[1..]);
        JoinCode(ps[0].text, Join(Texts(ps[1..])));
        JoinedByAnd(e, row, Code(ps[0].text), ps[0].args, Code(Join(Texts(ps[1..]))), Args(ps[1..]));
      }
    }
  }

  /** One more clause narrows what was built by exactly what that clause says. */
  lemma AddingNarrows(e: Engine, row: Row, ps: seq<Clause>, p: Clause)
    requires AllComposable(ps) && Composable(p)
    ensures Says(e, row, TextOf(ps + [p]), Args(ps + [p]))
            == And(Says(e, row, TextOf(ps), Args(ps)), Says(e, row, p.text, p.args))
  {
    JoinedSays(e, row, ps);
    JoinedSays(e, row, ps + [p]);
    OneMoreSays(e, row, ps, p);
  }

  lemma {:induction false} OneMoreSays(e: Engine, row: Row, ps: seq<Clause>, p: Clause)
    ensures AllSay(e, row, ps + [p]) == And(AllSay(e, row, ps), Says(e, row, p.text, p.args))
  {
    if ps == [] {
      assert [] + [p] == [p] && [p][1..] == [];
    } else {
      assert (ps + [p])[1..] == ps[1..] + [p];
      OneMoreSays(e, row, ps[1..], p);
      AndAssociates(Says(e, row, ps[0].text, ps[0].args), AllSay(e, row, ps[1..]), Says(e, row, p.text, p.args));
    }
  }

  const OR := Word("OR")

  lemma AtOr(e: Engine, row: Row, a: seq<Token>, b: seq<Token>, x: seq<Value>, y: seq<Value>)
    requires Find(a + ([OR] + b), "or", 0) == |a| && HoleCount(a) == |x|
    ensures Eval(e, row, a + ([OR] + b), x + y) == Or(Eval(e, row, a, x), Eval(e, row, b, y))
  {
    var ts := a + ([OR] + b);
    assert ts[..|a|] == a && ts[|a| + 1..] == b;
    SplitArgs(x, y, |x|);
    assert Take(x, |x|) == x && Drop(x, |x|) + y == y;
  }

  lemma OrCode(a: string, rest: string)
    requires Settled(a) && Settled(rest)
    ensures Code(a + " OR " + rest) == Code(a) + ([OR] + Code(rest)) && Settled(a + " OR " + rest)
  {
    AndText();
    SpacedText("OR", rest);
    SpacedCode("OR", rest);
    CodeThen(a, " OR " + rest);
    Associate(a, " OR ", rest);
  }

  lemma WholeThenOr(a: seq<Token>, b: seq<Token>)
    requires Whole(a)
    ensures Find(a + ([OR] + b), "or", 0) == |a|
  {
    FindThen(a, [OR] + b, "or", 0);
  }

  /**
   Why a loose OR must stay out: added without parentheses after another condition, its second half
   is no longer subject to that condition. So a row is kept although the first condition is not true
   of it exactly when the second half is.
   */
  lemma LooseOrEscapes(e: Engine, row: Row, p: Clause, q: Clause, r: Clause)
    requires Composable(p) && Composable(q) && Settled(r.text)
    ensures var text := Join([p.text, q.text + " OR " + r.text]);
      && Says(e, row, text, p.args + q.args + r.args)
         == Or(And(Says(e, row, p.text, p.args), Says(e, row, q.text, q.args)), Says(e, row, r.text, r.args))
      && (Says(e, row, p.text, p.args) != True ==>
            (Says(e, row, text, p.args + q.args + r.args) == True <==> Says(e, row, r.text, r.args) == True))
  {
    var a, b, c := Code(p.text), Code(q.text), Code(r.text);
    LooseOrCode(p.text, q.text, r.text);
    WholeAndWhole(a, b);
    WholeThenOr(a + ([AND] + b), c);
    BothHoles(a, b);
    AtOr(e, row, a + ([AND] + b), c, p.args + q.args, r.args);
    JoinedByAnd(e, row, a, p.args, b, q.args);
  }

  lemma BothHoles(a: seq<Token>, b: seq<Token>)
    ensures HoleCount(a + ([AND] + b)) == HoleCount(a) + HoleCount(b)
  {
    assert ([AND] + b)[1..] == b;
    HolesThen(a, [AND] + b);
  }

  lemma LooseOrCode(p: string, q: string, r: string)
    requires Settled(p) && Settled(q) && Settled(r)
    ensures Code(Join([p, q + " OR " + r])) == (Code(p) + ([AND] + Code(q))) + ([OR] + Code(r))
  {
    OrIsLast(p, q, r);
    JoinCode(p, q);
    OrCode(p + " AND " + q, r);
  }

  lemma OrIsLast(p: string, q: string, r: string)
    ensures Join([p, q + " OR " + r]) == p + " AND " + q + " OR " + r
  {
    assert [p, q + " OR " + r][1..] == [q + " OR " + r];
    Associate(p + " AND ", q, " OR " + r);
    Associate(q, " OR ", r);
    Associate(p + " AND " + q, " OR ", r);
  }

  // ---- What each clause says ---------------------------------------------------------------

  /** A condition without an AND or OR of its own. */
  predicate Single(ts: seq<Token>) { Whole(ts) && Find(ts, "and", 0) == |ts| }

  lemma SingleThen(a: seq<Token>, b: seq<Token>)
    requires Single(a) && Single(b)
    ensures Single(a + b)
  {
    FindThen(a, b, "and", 0);
    FindThen(a, b, "or", 0);
    LevelThen(a, b, 0);
  }

  /** What is asked of a column, with its placeholders, read as that test. */
  predicate Reads(tail: string, test: Option<Test>, n: nat) {
    Settled(tail) && Loose(tail) && TestOf(Code(tail)) == test && Single(Code(tail)) && HoleCount(Code(tail)) == n
  }

  /** A column and what is asked of it, as text. */
  lemma ColumnSays(e: Engine, row: Row, col: string, tail: string, test: Test, args: seq<Value>)
    requires IsColumn(col) && Reads(tail, Some(test), |args|)
    ensures Settled(col + tail) && Whole(Code(col + tail)) && HoleCount(Code(col + tail)) == |args|
    ensures Says(e, row, col + tail, args) == TestTruth(e, test, Cell(row, col), args)
  {
    var ts, rest := ColumnTokens(col), Code(tail);
    ColumnCode(col, tail);
    ColumnIsFlat(col);
    FlatIsWhole(ts);
    SingleThen(ts, rest);
    HolesThen(ts, rest);
    ColumnTest(e, row, col, rest, args);
  }

  function TestNamed(op: string): Option<Test> {
    if op == "=" then Some(Eq)
    else if op == "!=" then Some(Ne)
    else if op == ">" then Some(Gt)
    else if op == "<" then Some(Lt)
    else if op == ">=" then Some(Gte)
    else if op == "<=" then Some(Lte)
    else if op == "LIKE" then Some(Matching)
    else None
  }

  lemma HoleCode()
    ensures Code([' ', '?']) == [Sym('?')] && Settled([' ', '?'])
  {
    Nothing();
    MarkThen('?', "");
    BlankThen(' ', ['?'] + "");
    assert ['?'] + "" == ['?'] && [' '] + ['?'] == [' ', '?'];
  }

  lemma OneSymbol(c: char)
    requires IsMark(c) && !IsBlank(Sym(c))
    ensures Code([' ', c, ' ', '?']) == [Sym(c), Sym('?')] && Settled([' ', c, ' ', '?'])
  {
    HoleCode();
    MarkThen(c, [' ', '?']);
    BlankThen(' ', [c] + [' ', '?']);
    assert [' ', c, ' ', '?'] == [' '] + ([c] + [' ', '?']) && [Sym(c)] + [Sym('?')] == [Sym(c), Sym('?')];
  }

  lemma TwoSymbols(c: char, d: char)
    requires IsMark(c) && !IsBlank(Sym(c)) && IsMark(d) && !IsBlank(Sym(d))
    ensures Code([' ', c, d, ' ', '?']) == [Sym(c), Sym(d), Sym('?')] && Settled([' ', c, d, ' ', '?'])
  {
    HoleCode();
    TwoMarks(c, d, [' ', '?'], [Sym('?')]);
    BlankThen(' ', [c, d] + [' ', '?']);
    TwoSymbolsText(c, d);
  }

  lemma TwoSymbolsText(c: char, d: char)
    ensures [' ', c, d, ' ', '?'] == [' '] + ([c, d] + [' ', '?']) && [Sym(c), Sym(d)] + [Sym('?')] == [Sym(c), Sym(d), Sym('?')]
  {
  }

  lemma HoleIsLast(a: seq<Token>)
    requires IsFlat(a) && HoleCount(a) == 0
    ensures Single(a + [Sym('?')]) && HoleCount(a + [Sym('?')]) == 1
  {
    FlatIsWhole(a + [Sym('?')]);
    HolesThen(a, [Sym('?')]);
  }

  lemma FlatPair(t: Token, u: Token)
    requires IsFlat([t]) && IsFlat([u]) && t != Sym('?') && u != Sym('?')
    ensures IsFlat([t]) && HoleCount([t]) == 0
    ensures IsFlat([t, u]) && HoleCount([t, u]) == 0
  {
    assert [t][0] == t && [u][0] == u && [t, u][1..] == [u] && [t][1..] == [] && [u][1..] == [];
    assert HoleCount([u]) == HoleCount([]) == 0;
  }

  lemma OneSymbolReads(c: char, op: string, tail: string)
    requires (c == '=' || c == '>' || c == '<') && op == [c] && tail == [' ', c, ' ', '?']
    ensures Reads(tail, TestNamed(op), 1)
  {
    OneSymbol(c);
    FlatPair(Sym(c), Sym(c));
    HoleIsLast([Sym(c)]);
    assert [Sym(c)] + [Sym('?')] == [Sym(c), Sym('?')];
  }

  lemma TwoSymbolsRead(c: char, op: string, tail: string)
    requires (c == '!' || c == '>' || c == '<') && op == [c, '='] && tail == [' ', c, '=', ' ', '?']
    ensures Reads(tail, TestNamed(op), 1)
  {
    TwoSymbols(c, '=');
    FlatPair(Sym(c), Sym('='));
    HoleIsLast([Sym(c), Sym('=')]);
    assert [Sym(c), Sym('=')] + [Sym('?')] == [Sym(c), Sym('='), Sym('?')];
  }

  lemma LikeTailCode()
    ensures Code(" LIKE ?") == [Word("LIKE"), Sym('?')] && Settled(" LIKE ?")
  {
    Nothing();
    MarkThen('?', "");
    SpacedCode("LIKE", ['?'] + "");
    assert " LIKE ?" == Spaced("LIKE", ['?'] + "");
  }

  lemma LikeTokens(ts: seq<Token>)
    requires ts == [Word("LIKE"), Sym('?')]
    ensures TestOf(ts) == Some(Matching) && Single(ts) && HoleCount(ts) == 1
  {
    assert Lower("LIKE") == "like";
    FlatPair(Word("LIKE"), Word("LIKE"));
    HoleIsLast([Word("LIKE")]);
    assert [Word("LIKE")] + [Sym('?')] == ts;
  }

  lemma LikeReads(tail: string)
    requires tail == " LIKE ?"
    ensures Reads(tail, Some(Matching), 1)
  {
    LikeTailCode();
    LikeTokens(Code(tail));
  }

  lemma TailReads(op: string, tail: string)
    requires TestNamed(op).Some? && tail == " " + op + " ?"
    ensures Reads(tail, TestNamed(op), 1)
  {
    if op == "LIKE" {
      LikeReads(tail);
    } else if |op| == 1 {
      OneSymbolReads(op[0], op, tail);
    } else {
      TwoSymbolsRead(op[0], op, tail);
    }
  }

  lemma OperatorsArePlain(op: string)
    requires TestNamed(op).Some?
    ensures Plain(op)
  {
  }

  /** A comparison is the comparison of that column with the bound value. */
  lemma CompareSays(e: Engine, row: Row, col: string, op: string, v: Value)
    requires IsColumn(col) && TestNamed(op).Some?
    ensures Composable(Clause(Compare(col, op), [v]))
    ensures Says(e, row, Compare(col, op), [v]) == CompareTruth(e, TestNamed(op).value, Cell(row, col), v)
  {
    var tail := " " + op + " ?";
    TailReads(op, tail);
    OperatorsArePlain(op);
    CompareIsFragment(col, op);
    OneValueSays(e, row, col, tail, TestNamed(op).value, v, Clause(Compare(col, op), [v]));
  }

  lemma OneValueSays(e: Engine, row: Row, col: string, tail: string, test: Test, v: Value, p: Clause)
    requires IsColumn(col) && Reads(tail, Some(test), 1) && p == Clause(col + tail, [v]) && Balanced(p)
    requires test.Eq? || test.Ne? || test.Gt? || test.Lt? || test.Gte? || test.Lte? || test.Matching?
    ensures Composable(p) && Says(e, row, p.text, p.args) == CompareTruth(e, test, Cell(row, col), v)
  {
    ColumnSays(e, row, col, tail, test, [v]);
  }

  // ---- A list ------------------------------------------------------------------------------

  /** n placeholders, n > 0, and the closing parenthesis. */
  function MarkTokens(n: nat): seq<Token> {
    if n < 2 then [Sym('?'), Sym(')')] else [Sym('?'), Sym(',')] + MarkTokens(n - 1)
  }

  lemma TwoMarks(c: char, d: char, r: string, ts: seq<Token>)
    requires IsMark(c) && !IsBlank(Sym(c)) && IsMark(d) && !IsBlank(Sym(d)) && ts == Code(r)
    ensures Code([c, d] + r) == [Sym(c), Sym(d)] + ts
    ensures Settled(r) ==> Settled([c, d] + r)
  {
    MarkThen(d, r);
    MarkThen(c, [d] + r);
    assert [c] + [d] == [c, d] && [Sym(c)] + [Sym(d)] == [Sym(c), Sym(d)];
    Associate([c], [d], r);
    Associate([Sym(c)], [Sym(d)], ts);
  }

  lemma MarksText(n: nat)
    requires n > 0
    ensures Marks(n) + ")" == if n == 1 then "?)" else ['?', ','] + ([' '] + (Marks(n - 1) + ")"))
  {
  }

  lemma OneMarkRead()
    ensures Code("?)") == [Sym('?'), Sym(')')] && Settled("?)")
  {
    Nothing();
    TwoMarks('?', ')', "", []);
    assert "?)" == ['?', ')'] + "" && [Sym('?'), Sym(')')] + [] == [Sym('?'), Sym(')')];
  }

  lemma {:induction false} MarksRead(n: nat)
    requires n > 0
    ensures Code(Marks(n) + ")") == MarkTokens(n) && Settled(Marks(n) + ")")
  {
    MarksText(n);
    if n == 1 {
      OneMarkRead();
    } else {
      MarksRead(n - 1);
      var r := Marks(n - 1) + ")";
      BlankThen(' ', r);
      TwoMarks('?', ',', [' '] + r, MarkTokens(n - 1));
    }
  }

  /** What the readings of a list of tokens make of its first token. */
  lemma Unfolded(t: Token, r: seq<Token>, word: string, depth: nat)
    ensures Find([t] + r, word, depth) == if depth == 0 && IsKeyword(t, word) then 0 else 1 + Find(r, word, Deeper(t, depth))
    ensures HoleCount([t] + r) == (if t == Sym('?') then 1 else 0) + HoleCount(r)
    ensures Level([t] + r, depth) == Level(r, Deeper(t, depth))
    ensures NoStray([t] + r, depth) <==> !(t == Sym(')') && depth == 0) && NoStray(r, Deeper(t, depth))
  {
    assert ([t] + r)[1..] == r;
  }

  /** Tokens that leave no parenthesis open, counted from depth d, and hold no AND or OR outside. */
  predicate Ending(ts: seq<Token>, d: nat, n: nat) {
    && HoleCount(ts) == n && NoStray(ts, d) && Level(ts, d) == 0
    && Find(ts, "and", d) == |ts| && Find(ts, "or", d) == |ts|
  }

  lemma EndingStep(t: Token, r: seq<Token>, d: nat, n: nat)
    requires Ending(r, Deeper(t, d), n) && !(t == Sym(')') && d == 0) && !IsKeyword(t, "and") && !IsKeyword(t, "or")
    ensures Ending([t] + r, d, if t == Sym('?') then n + 1 else n)
  {
    Unfolded(t, r, "and", d);
    Unfolded(t, r, "or", d);
  }

  lemma {:induction false} MarkTokensRead(n: nat)
    requires n > 0
    ensures IsMarks(MarkTokens(n)) && Ending(MarkTokens(n), 1, n)
  {
    var r := if n == 1 then [] else MarkTokens(n - 1);
    var t := Sym(if n == 1 then ')' else ',');
    if n > 1 { MarkTokensRead(n - 1); }
    EndingStep(t, r, 1, n - 1);
    EndingStep(Sym('?'), [t] + r, 1, n - 1);
    assert MarkTokens(n) == [Sym('?')] + ([t] + r);
    assert MarkTokens(n)[1..] == [t] + r && MarkTokens(n)[2..] == r;
  }

  function InTokens(n: nat): seq<Token> { [Word("IN"), Sym('(')] + MarkTokens(n) }

  lemma InTailText(r: string)
    ensures " IN (" + r == Spaced("IN", ['('] + r)
  {
  }

  lemma InTailCode(n: nat)
    requires n > 0
    ensures var tail := " IN (" + (Marks(n) + ")"); Code(tail) == InTokens(n) && Settled(tail) && Loose(tail)
  {
    var r := Marks(n) + ")";
    MarksRead(n);
    MarkThen('(', r);
    SpacedCode("IN", ['('] + r);
    InTailText(r);
    Associate([Word("IN")], [Sym('(')], MarkTokens(n));
  }

  lemma InIsNoJoint()
    ensures Lower("IN") == "in" && !IsKeyword(Word("IN"), "and") && !IsKeyword(Word("IN"), "or")
  {
    assert Lower("IN")[0] == 'i';
  }

  lemma InTokensRead(n: nat)
    requires n > 0
    ensures TestOf(InTokens(n)) == Some(Among) && Single(InTokens(n)) && HoleCount(InTokens(n)) == n
  {
    var r := MarkTokens(n);
    MarkTokensRead(n);
    EndingStep(Sym('('), r, 0, n);
    InIsNoJoint();
    EndingStep(Word("IN"), [Sym('(')] + r, 0, n);
    assert InTokens(n) == [Word("IN")] + ([Sym('(')] + r) && InTokens(n)[2..] == r;
  }

  lemma InTailReads(n: nat, tail: string)
    requires n > 0 && tail == " IN (" + (Marks(n) + ")")
    ensures Reads(tail, Some(Among), n)
  {
    InTailCode(n);
    InTokensRead(n);
  }

  /** A list condition is true exactly when the column equals one of the values. */
  lemma InSays(e: Engine, row: Row, col: string, values: seq<Value>)
    requires IsColumn(col) && values != []
    ensures Composable(InClause(col, values))
    ensures Says(e, row, InText(col, |values|), values) == AmongTruth(e, Cell(row, col), values)
    ensures Says(e, row, InText(col, |values|), values) == True
            <==> exists i :: 0 <= i < |values| && CompareTruth(e, Eq, Cell(row, col), values[i]) == True
  {
    ListSays(e, row, col, values, " IN (" + (Marks(|values|) + ")"));
    AmongIsTrue(e, Cell(row, col), values);
  }

  lemma ListSays(e: Engine, row: Row, col: string, values: seq<Value>, tail: string)
    requires IsColumn(col) && values != [] && tail == " IN (" + (Marks(|values|) + ")")
    ensures Composable(InClause(col, values))
    ensures Says(e, row, InText(col, |values|), values) == AmongTruth(e, Cell(row, col), values)
  {
    InTailReads(|values|, tail);
    ColumnSays(e, row, col, tail, Among, values);
    InIsFragment(col, |values|);
  }

  lemma {:induction false} AmongIsTrue(e: Engine, cell: Value, args: seq<Value>)
    ensures AmongTruth(e, cell, args) == True <==> exists i :: 0 <= i < |args| && CompareTruth(e, Eq, cell, args[i]) == True
  {
    if args != [] {
      AmongIsTrue(e, cell, args[1..]);
      forall i | 1 <= i < |args| ensures args[i] == args[1..][i - 1] {}
      if AmongTruth(e, cell, args[1..]) == True {
        var i :| 0 <= i < |args[1..]| && CompareTruth(e, Eq, cell, args[1..][i]) == True;
        assert args[i + 1] == args[1..][i];
      }
    }
  }

  // ---- The search box ----------------------------------------------------------------------

  const EMPTY := Span('\'', "", true)
  const BACKSLASH := Span('\'', "\\", true)

  function EscapeTokens(): seq<Token> { [Word("ESCAPE"), BACKSLASH] }

  function TailTokens(): seq<Token> {
    [Sym(','), EMPTY, Sym(')'), Sym(')'), Word("LIKE"), Sym('?'), Word("ESCAPE"), BACKSLASH]
  }

  lemma EscapeCode(s: string)
    requires s == " ESCAPE " + "'\\'"
    ensures Code(s) == EscapeTokens() && Settled(s)
  {
    Nothing();
    assert "\\'"[1..] == "'";
    LiteralThen("'\\'", "\\", "");
    assert "'\\'" + "" == "'\\'" && [BACKSLASH] + [] == [BACKSLASH];
    SpacedCode("ESCAPE", "'\\'");
    EscapeText(s);
    assert [Word("ESCAPE")] + [BACKSLASH] == EscapeTokens();
  }

  lemma EscapeText(s: string)
    requires s == " ESCAPE " + "'\\'"
    ensures s == Spaced("ESCAPE", "'\\'")
  {
  }

  lemma LikeHoleCode(s: string)
    requires Code(s) == EscapeTokens() && Settled(s)
    ensures Code(Spaced("LIKE", ['?'] + s)) == [Word("LIKE"), Sym('?')] + EscapeTokens()
    ensures Settled(Spaced("LIKE", ['?'] + s))
  {
    MarkThen('?', s);
    SpacedCode("LIKE", ['?'] + s);
    Associate([Word("LIKE")], [Sym('?')], EscapeTokens());
    assert [Word("LIKE")] + [Sym('?')] == [Word("LIKE"), Sym('?')];
  }

  lemma ParensCode(s: string, ts: seq<Token>)
    requires Code(s) == ts && Settled(s)
    ensures var r := [')', ')'] + s;
      Code("''" + r) == [EMPTY] + ([Sym(')'), Sym(')')] + ts) && Settled("''" + r)
  {
    var r := [')', ')'] + s;
    TwoMarks(')', ')', s, ts);
    assert r[0] == ')';
    assert "" + "'" == "'";
    LiteralThen("''", "", r);
  }

  lemma CommaCode(s: string, ts: seq<Token>)
    requires Code(s) == ts && Settled(s)
    ensures Code([','] + ([' '] + s)) == [Sym(',')] + ts && Settled([','] + ([' '] + s))
  {
    BlankThen(' ', s);
    MarkThen(',', [' '] + s);
  }

  lemma LikeTailText(s: string)
    requires s == " ESCAPE " + "'\\'"
    ensures LikeTail("''", "'\\'") == [','] + ([' '] + ("''" + ([')', ')'] + Spaced("LIKE", ['?'] + s))))
  {
    assert ")) LIKE " + ("?" + s) == [')', ')'] + Spaced("LIKE", ['?'] + s);
  }

  lemma TailTokensText(l: seq<Token>)
    requires l == [Word("LIKE"), Sym('?')] + EscapeTokens()
    ensures [Sym(',')] + ([EMPTY] + ([Sym(')'), Sym(')')] + l)) == TailTokens()
  {
  }

  /** What follows the column, read. */
  lemma SearchTailCode()
    ensures Code(LikeTail("''", "'\\'")) == TailTokens() && Settled(LikeTail("''", "'\\'"))
  {
    var s := " ESCAPE " + "'\\'";
    var l := [Word("LIKE"), Sym('?')] + EscapeTokens();
    EscapeCode(s);
    LikeHoleCode(s);
    ParensCode(Spaced("LIKE", ['?'] + s), l);
    CommaCode("''" + ([')', ')'] + Spaced("LIKE", ['?'] + s)), [EMPTY] + ([Sym(')'), Sym(')')] + l));
    LikeTailText(s);
    TailTokensText(l);
  }

  function SearchTokens(col: string): seq<Token>
    requires IsColumn(col)
  {
    [Word("LOWER"), Sym('(')] + ([Word("COALESCE"), Sym('(')] + (ColumnTokens(col) + TailTokens()))
  }

  lemma SearchOneText(r: string)
    ensures "LOWER(COALESCE(" + r == "LOWER" + (['('] + ("COALESCE" + (['('] + r)))
  {
  }

  lemma NestedCode(a: string, b: string, r: string, ts: seq<Token>)
    requires IsName(a) && IsName(b) && Code(r) == ts && Settled(r)
    ensures var s := a + (['('] + (b + (['('] + r)));
      Code(s) == [Word(a), Sym('(')] + ([Word(b), Sym('(')] + ts) && Settled(s)
  {
    NameFirst(b, '(', r);
    NameFirst(a, '(', b + (['('] + r));
  }

  lemma SearchOneCode(col: string)
    requires IsColumn(col)
    ensures Code(SearchOne(col)) == SearchTokens(col) && Settled(SearchOne(col))
  {
    var tail := LikeTail("''", "'\\'");
    SearchTailCode();
    ColumnCode(col, tail);
    LowerCode(col + tail, ColumnTokens(col) + TailTokens());
  }

  lemma LowerCode(r: string, ts: seq<Token>)
    requires Code(r) == ts && Settled(r)
    ensures Code("LOWER(COALESCE(" + r) == [Word("LOWER"), Sym('(')] + ([Word("COALESCE"), Sym('(')] + ts)
    ensures Settled("LOWER(COALESCE(" + r)
  {
    NestedCode("LOWER", "COALESCE", r, ts);
    SearchOneText(r);
  }

  // ---- Depth -------------------------------------------------------------------------------

  /** One parenthesis further in, nothing stands outside, and the same parentheses match. */
  lemma {:induction false} Inside(ts: seq<Token>, word: string, d: nat, r: seq<Token>)
    requires NoStray(ts, d)
    ensures Find(ts, word, d + 1) == |ts| && Level(ts, d + 1) == Level(ts, d) + 1 && NoStray(ts, d + 1)
    ensures Close(ts + r, d + 1) == |ts| + Close(r, Level(ts, d) + 1)
    decreases |ts|
  {
    if ts == [] {
      assert ts + r == r;
    } else {
      assert (ts + r)[1..] == ts[1..] + r;
      Inside(ts[1..], word, Deeper(ts[0], d), r);
    }
  }

  /** A condition in parentheses is that condition, and stays in one piece. */
  lemma Parenthesised(e: Engine, row: Row, ts: seq<Token>, args: seq<Value>)
    requires NoStray(ts, 0) && Level(ts, 0) == 0
    ensures var p := [Sym('(')] + (ts + [Sym(')')]);
      Ending(p, 0, HoleCount(ts)) && Eval(e, row, p, args) == Eval(e, row, ts, args)
  {
    var p := [Sym('(')] + (ts + [Sym(')')]);
    ParenthesisEnds(ts);
    Inside(ts, "or", 0, [Sym(')')]);
    assert Close([Sym(')')], 1) == 0;
    assert p[1..] == ts + [Sym(')')] && p[1..|p| - 1] == ts;
    assert Enclosed(p);
  }

  lemma ParenthesisEnds(ts: seq<Token>)
    requires NoStray(ts, 0) && Level(ts, 0) == 0
    ensures Ending([Sym('(')] + (ts + [Sym(')')]), 0, HoleCount(ts))
  {
    var c := [Sym(')')];
    Inside(ts, "or", 0, c);
    Inside(ts, "and", 0, c);
    FindThen(ts, c, "or", 1);
    FindThen(ts, c, "and", 1);
    LevelThen(ts, c, 1);
    HolesThen(ts, c);
    EndingStep(Sym(')'), [], 1, 0);
    assert [Sym(')')] + [] == c;
    EndingStep(Sym('('), ts + c, 0, HoleCount(ts));
  }

  lemma FlatThen(a: seq<Token>, b: seq<Token>, d: nat, n: nat)
    requires IsFlat(a) && HoleCount(a) == 0 && Ending(b, d, n)
    ensures Ending(a + b, d, n)
  {
    FlatAt(a, d);
    FindThen(a, b, "or", d);
    FindThen(a, b, "and", d);
    LevelThen(a, b, d);
    HolesThen(a, b);
  }

  lemma TailKeywords()
    ensures Lower("LIKE") == "like" && Lower("ESCAPE") == "escape" && Lower("LOWER") == "lower" && Lower("COALESCE") == "coalesce"
  {
  }

  lemma TailFromLike(t: seq<Token>, l: seq<Token>)
    requires t == EscapeTokens() && l == [Word("LIKE")] + ([Sym('?')] + t)
    ensures Ending(l, 0, 1)
  {
    TailKeywords();
    FlatPair(Word("ESCAPE"), BACKSLASH);
    FlatAt(t, 0);
    EndingStep(Sym('?'), t, 0, 0);
    EndingStep(Word("LIKE"), [Sym('?')] + t, 0, 1);
  }

  lemma TailIsTail(l: seq<Token>)
    requires l == [Word("LIKE")] + ([Sym('?')] + EscapeTokens())
    ensures TailTokens() == [Sym(',')] + ([EMPTY] + ([Sym(')')] + ([Sym(')')] + l))) && IsSearchTail(TailTokens())
  {
    TailKeywords();
  }

  lemma TailEnds()
    ensures Ending(TailTokens(), 2, 1) && IsSearchTail(TailTokens())
  {
    var l := [Word("LIKE")] + ([Sym('?')] + EscapeTokens());
    TailFromLike(EscapeTokens(), l);
    TailIsTail(l);
    var p := [Sym(')')] + ([Sym(')')] + l);
    EndingStep(Sym(')'), l, 1, 1);
    EndingStep(Sym(')'), [Sym(')')] + l, 2, 1);
    EndingStep(EMPTY, p, 2, 1);
    EndingStep(Sym(','), [EMPTY] + p, 2, 1);
  }

  lemma SearchTokensRead(e: Engine, row: Row, col: string, args: seq<Value>)
    requires IsColumn(col)
    ensures Ending(SearchTokens(col), 0, 1)
    ensures Eval(e, row, SearchTokens(col), args) == SearchTruth(e, Cell(row, col), args)
  {
    var r := ColumnTokens(col) + TailTokens();
    SearchTokensEnd(col, r);
    SearchIsRead(col, r);
  }

  lemma SearchTokensEnd(col: string, r: seq<Token>)
    requires IsColumn(col) && r == ColumnTokens(col) + TailTokens()
    ensures Ending(SearchTokens(col), 0, 1)
  {
    TailEnds();
    TailKeywords();
    ColumnIsFlat(col);
    FlatThen(ColumnTokens(col), TailTokens(), 2, 1);
    var c := [Word("COALESCE")] + ([Sym('(')] + r);
    EndingStep(Sym('('), r, 1, 1);
    EndingStep(Word("COALESCE"), [Sym('(')] + r, 1, 1);
    EndingStep(Sym('('), c, 0, 1);
    EndingStep(Word("LOWER"), [Sym('(')] + c, 0, 1);
    assert SearchTokens(col) == [Word("LOWER")] + ([Sym('(')] + c);
  }

  lemma SearchIsRead(col: string, r: seq<Token>)
    requires IsColumn(col) && r == ColumnTokens(col) + TailTokens()
    ensures var ts := SearchTokens(col); IsSearch(ts) && ts[4..] == r && ColumnName(r) == col && |ts| > 3
  {
    TailEnds();
    ColumnRead(col, TailTokens());
    SearchHead(col, r);
  }

  lemma SearchHead(col: string, r: seq<Token>)
    requires IsColumn(col) && r == ColumnTokens(col) + TailTokens()
    ensures var ts := SearchTokens(col);
      && |ts| > 4 && ts[4..] == r && IsKeyword(ts[0], "lower") && ts[1] == Sym('(') && IsKeyword(ts[2], "coalesce") && ts[3] == Sym('(')
  {
    TailKeywords();
  }

  // ---- Several columns ---------------------------------------------------------------------

  predicate AllColumns(cols: seq<string>) { forall c :: c in cols ==> IsColumn(c) }

  function AnyTokens(cols: seq<string>): seq<Token>
    requires cols != [] && AllColumns(cols)
  {
    if |cols| == 1 then SearchTokens(cols[0]) else SearchTokens(cols[0]) + ([OR] + AnyTokens(cols[1..]))
  }

  lemma {:induction false} SearchAnyCode(cols: seq<string>)
    requires cols != [] && AllColumns(cols)
    ensures Code(SearchAny(cols)) == AnyTokens(cols) && Settled(SearchAny(cols))
  {
    SearchOneCode(cols[0]);
    if |cols| > 1 {
      SearchAnyCode(cols[1..]);
      OrCode(SearchOne(cols[0]), SearchAny(cols[1..]));
      Associate(SearchOne(cols[0]), " OR ", SearchAny(cols[1..]));
    }
  }

  /** One of the columns matches its pattern. */
  function AnyTruth(e: Engine, row: Row, cols: seq<string>, args: seq<Value>): Truth
    requires cols != [] && |args| == |cols|
  {
    if |cols| == 1 then SearchTruth(e, Cell(row, cols[0]), args)
    else Or(SearchTruth(e, Cell(row, cols[0]), args[..1]), AnyTruth(e, row, cols[1..], args[1..]))
  }

  lemma OrEnds(a: seq<Token>, b: seq<Token>, n: nat)
    requires Ending(a, 0, 1) && HoleCount(b) == n && NoStray(b, 0) && Level(b, 0) == 0
    ensures var ts := a + ([OR] + b);
      HoleCount(ts) == n + 1 && NoStray(ts, 0) && Level(ts, 0) == 0 && Find(ts, "or", 0) == |a|
  {
    Unfolded(OR, b, "or", 0);
    LevelThen(a, [OR] + b, 0);
    HolesThen(a, [OR] + b);
    FindThen(a, [OR] + b, "or", 0);
    assert IsKeyword(OR, "or") by { assert Lower("OR") == "or"; }
  }

  lemma {:induction false} AnyTokensRead(e: Engine, row: Row, cols: seq<string>, args: seq<Value>)
    requires cols != [] && AllColumns(cols) && |args| == |cols|
    ensures HoleCount(AnyTokens(cols)) == |cols| && NoStray(AnyTokens(cols), 0) && Level(AnyTokens(cols), 0) == 0
    ensures Eval(e, row, AnyTokens(cols), args) == AnyTruth(e, row, cols, args)
    decreases |cols|
  {
    if |cols| == 1 {
      SearchTokensRead(e, row, cols[0], args);
    } else {
      var a, b := SearchTokens(cols[0]), AnyTokens(cols[1..]);
      SearchTokensRead(e, row, cols[0], args[..1]);
      AnyTokensRead(e, row, cols[1..], args[1..]);
      OrEnds(a, b, |cols| - 1);
      assert args == args[..1] + args[1..];
      AtOr(e, row, a, b, args[..1], args[1..]);
    }
  }

  lemma SearchTextCode(cols: seq<string>)
    requires cols != [] && AllColumns(cols)
    ensures Code(SearchText(cols)) == [Sym('(')] + (AnyTokens(cols) + [Sym(')')]) && Settled(SearchText(cols))
  {
    SearchAnyCode(cols);
    Nothing();
    MarkThen(')', "");
    assert [')'] + "" == ")" && [Sym(')')] + [] == [Sym(')')];
    CodeThen(SearchAny(cols), ")");
    MarkThen('(', SearchAny(cols) + ")");
  }

  /** The search condition is one clause, true of a row when one of the columns matches. */
  lemma SearchReads(e: Engine, row: Row, cols: seq<string>, args: seq<Value>)
    requires cols != [] && AllColumns(cols) && |args| == |cols|
    ensures Composable(Clause(SearchText(cols), args))
    ensures Says(e, row, SearchText(cols), args) == AnyTruth(e, row, cols, args)
  {
    SearchTextCode(cols);
    AnyTokensRead(e, row, cols, args);
    Parenthesised(e, row, AnyTokens(cols), args);
    forall c | c in cols ensures Ident(c) { assert IsColumn(c); }
    SearchIsFragment(cols);
    PlainFragment("(", SearchAny(cols) + ")", |cols|);
  }

  // ---- Containing --------------------------------------------------------------------------

  /** Folding twice is folding by the two in turn. */
  lemma {:induction false} FoldTwice(f: char -> char, g: char -> char, s: string)
    ensures Fold(f, Fold(g, s)) == Fold(c => f(g(c)), s)
  {
    if s != "" {
      FoldTwice(f, g, s[1..]);
      assert Fold(g, s)[1..] == Fold(g, s[1..]);
    }
  }

  lemma PatternFolded(f: char -> char, g: char -> char, q: string)
    requires Folds(f)
    ensures Fold(f, SearchPattern(g, q)) == SearchPattern(c => f(g(c)), q)
  {
    FoldTwice(f, g, Escape(q));
    FoldJoin(f, "%" + Fold(g, Escape(q)), "%");
    FoldJoin(f, "%", Fold(g, Escape(q)));
    assert IsSpecial('%') && f('%') == '%';
    assert Fold(f, "%") == "%" by { assert "%"[1..] == ""; }
  }

  /** A column holds the term, letters compared as the program, LOWER and LIKE fold them. */
  predicate Holds(e: Engine, fold: char -> char, q: string, cell: Value) {
    Contains(Fold(e.fold, Fold(e.lower, if cell == Null then "" else e.text(cell))), Fold(e.fold, Fold(fold, q)))
  }

  lemma OneColumnHolds(e: Engine, fold: char -> char, q: string, cell: Value)
    requires Folds(fold) && Folds(e.fold) && forall s: string :: e.text(Str(s)) == s
    ensures SearchTruth(e, cell, [Str(SearchPattern(fold, q))]) == Of(Holds(e, fold, q, cell))
  {
    var both := (c: char) => e.fold(fold(c));
    PatternFolded(e.fold, fold, q);
    FoldTwice(e.fold, fold, q);
    SearchFindsContaining(both, q, Fold(e.fold, Fold(e.lower, if cell == Null then "" else e.text(cell))));
  }

  lemma {:induction false} AnyHolds(e: Engine, row: Row, cols: seq<string>, fold: char -> char, q: string, args: seq<Value>)
    requires cols != [] && Folds(fold) && Folds(e.fold) && forall s: string :: e.text(Str(s)) == s
    requires |args| == |cols| && forall i :: 0 <= i < |args| ==> args[i] == Str(SearchPattern(fold, q))
    ensures AnyTruth(e, row, cols, args) == Of(exists i :: 0 <= i < |cols| && Holds(e, fold, q, Cell(row, cols[i])))
    decreases |cols|
  {
    OneColumnHolds(e, fold, q, Cell(row, cols[0]));
    assert args[..1] == [Str(SearchPattern(fold, q))];
    if |cols| == 1 {
      assert args == args[..1];
    } else {
      AnyHolds(e, row, cols[1..], fold, q, args[1..]);
      forall i | 1 <= i < |cols| ensures cols[i] == cols[1..][i - 1] {}
      if exists i :: 0 <= i < |cols[1..]| && Holds(e, fold, q, Cell(row, cols[1..][i])) {
        var i :| 0 <= i < |cols[1..]| && Holds(e, fold, q, Cell(row, cols[1..][i]));
        assert cols[i + 1] == cols[1..][i];
      }
    }
  }

  /**
   The search condition keeps a row exactly when one of the columns contains the term, for every
   term and whatever wildcards and backslashes are in it.
   */
  lemma SearchSays(e: Engine, row: Row, cols: seq<string>, fold: char -> char, q: string)
    requires cols != [] && AllColumns(cols)
    requires Folds(fold) && Folds(e.fold) && forall s: string :: e.text(Str(s)) == s
    ensures var p := SearchClause(cols, fold, q);
      && Composable(p)
      && Says(e, row, p.text, p.args) == Of(exists i :: 0 <= i < |cols| && Holds(e, fold, q, Cell(row, cols[i])))
  {
    var args := SearchClause(cols, fold, q).args;
    SearchReads(e, row, cols, args);
    AnyHolds(e, row, cols, fold, q, args);
  }

  // ---- Single conditions of the builder ----------------------------------------------------

  /** An equality condition keeps the rows whose column has the value. */
  lemma EqSays(e: Engine, row: Row, col: string, v: Value)
    requires IsColumn(col)
    ensures Composable(EqClause(col, v))
    ensures Kept(e, row, EqClause(col, v)) <==> Cell(row, col) != Null && v != Null && e.same(Cell(row, col), v)
  {
    NamedSays(e, row, col, "=", Eq, v, EqClause(col, v));
  }

  /** A bound of a range that acts: given, and neither null, empty nor zero. */
  predicate Acts(bound: Option<Value>) {
    bound.Some? && bound.value != Null && bound.value != Str("") && bound.value != Int(0)
  }

  /** The conditions of a range, as they are added. */
  function Bounds(col: string, from: Option<Value>, to: Option<Value>): seq<Clause> {
    (if Truthy(from) then [FromClause(col, from.value)] else []) + (if Truthy(to) then [ToClause(col, to.value)] else [])
  }

  lemma FromSays(e: Engine, row: Row, col: string, v: Value)
    requires IsColumn(col)
    ensures Composable(FromClause(col, v))
    ensures Kept(e, row, FromClause(col, v)) <==> Cell(row, col) != Null && v != Null && !e.less(Cell(row, col), v)
  {
    NamedSays(e, row, col, ">=", Gte, v, FromClause(col, v));
  }

  lemma ToSays(e: Engine, row: Row, col: string, v: Value)
    requires IsColumn(col)
    ensures Composable(ToClause(col, v))
    ensures Kept(e, row, ToClause(col, v)) <==> Cell(row, col) != Null && v != Null && !e.less(v, Cell(row, col))
  {
    NamedSays(e, row, col, "<=", Lte, v, ToClause(col, v));
  }

  lemma NamedSays(e: Engine, row: Row, col: string, op: string, test: Test, v: Value, p: Clause)
    requires IsColumn(col) && TestNamed(op) == Some(test) && p == Clause(Compare(col, op), [v])
    ensures Composable(p) && (Kept(e, row, p) <==> CompareTruth(e, test, Cell(row, col), v) == True)
  {
    CompareSays(e, row, col, op, v);
  }

  /** A range keeps the rows whose column lies within the bounds that act, both included. */
  lemma BetweenSays(e: Engine, row: Row, col: string, from: Option<Value>, to: Option<Value>)
    requires IsColumn(col)
    ensures AllComposable(Bounds(col, from, to))
    ensures AllSay(e, row, Bounds(col, from, to)) == True
            <==> (Acts(from) ==> Cell(row, col) != Null && !e.less(Cell(row, col), from.value))
                 && (Acts(to) ==> Cell(row, col) != Null && !e.less(to.value, Cell(row, col)))
  {
    var ps := Bounds(col, from, to);
    if Truthy(from) { FromSays(e, row, col, from.value); }
    if Truthy(to) { ToSays(e, row, col, to.value); }
    BoundsAre(col, from, to, ps);
    KeptByAll(e, row, ps);
    BothKept(e, row, col, from, to, ps);
  }

  lemma BothKept(e: Engine, row: Row, col: string, from: Option<Value>, to: Option<Value>, ps: seq<Clause>)
    requires forall p :: p in ps <==> (Truthy(from) && p == FromClause(col, from.value)) || (Truthy(to) && p == ToClause(col, to.value))
    ensures AllKept(e, row, ps)
            <==> (Truthy(from) ==> Kept(e, row, FromClause(col, from.value))) && (Truthy(to) ==> Kept(e, row, ToClause(col, to.value)))
  {
    if AllKept(e, row, ps) {
      forall p | p in ps ensures Kept(e, row, p) {}
      assert Truthy(from) ==> FromClause(col, from.value) in ps;
      assert Truthy(to) ==> ToClause(col, to.value) in ps;
    } else {
      var i :| 0 <= i < |ps| && !Kept(e, row, ps[i]);
      assert ps[i] in ps;
    }
  }

  lemma BoundsAre(col: string, from: Option<Value>, to: Option<Value>, ps: seq<Clause>)
    requires ps == Bounds(col, from, to)
    ensures forall p :: p in ps <==> (Truthy(from) && p == FromClause(col, from.value)) || (Truthy(to) && p == ToClause(col, to.value))
  {
    var a := if Truthy(from) then [FromClause(col, from.value)] else [];
    var b := if Truthy(to) then [ToClause(col, to.value)] else [];
    assert ps == a + b;
    forall p ensures p in ps <==> p in a || p in b {}
  }
}
