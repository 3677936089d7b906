/** The composable WHERE builder. */
module WhereBuilder {
  // Whatever filters a caller adds, and in whatever order, the text has one placeholder for each
  // bound value, and each condition's placeholders receive its own.
  import opened Wrappers
  import opened Values
  import opened SqlLexer
  import opened Placeholders
  import opened LikeSearch
  import opened Conditions
  import opened Whitespace

  /** A condition with the values bound in it. */
  datatype Clause = Clause(text: string, args: seq<Value>)

  predicate Balanced(p: Clause) { p.text != "" && Fragment(p.text, |p.args|) }

  function Texts(ps: seq<Clause>): (r: seq<string>)
    ensures |r| == |ps|
  {
    if ps == [] then [] else [ps[0].text] + Texts(ps[1..])
  }

  function Args(ps: seq<Clause>): seq<Value> {
    if ps == [] then [] else ps[0].args + Args(ps[1..])
  }

  function Join(texts: seq<string>): string {
    if texts == [] then ""
    else if |texts| == 1 then texts[0]
    else texts[0] + " AND " + Join(texts[1..])
  }

  /** The text of the conditions, or a condition that always holds. */
  function TextOf(ps: seq<Clause>): string { if ps == [] then "1=1" else Join(Texts(ps)) }

  lemma {:induction false} ArgsConcat(a: seq<Clause>, b: seq<Clause>)
    ensures Texts(a + b) == Texts(a) + Texts(b) && Args(a + b) == Args(a) + Args(b)
  {
    if a == [] {
      assert a + b == b;
    } else {
      assert (a + b)[1..] == a[1..] + b;
      ArgsConcat(a[1..], b);
    }
  }

  /** The joined text has as many placeholders as there are values, whatever was put into it. */
  lemma {:induction false} JoinedIsBalanced(ps: seq<Clause>)
    requires forall i :: 0 <= i < |ps| ==> Balanced(ps[i])
    ensures Fragment(Join(Texts(ps)), |Args(ps)|)
  {
    if ps == [] {
      NoHoles("");
    } else {
      assert forall i :: 0 <= i < |ps[1..]| ==> ps[1..][i] == ps[i + 1];
      JoinedIsBalanced(ps[1..]);
      if |ps| == 1 {
        assert Args(ps) == ps[0].args;
      } else {
        var rest, n := Join(Texts(ps[1..])), |Args(ps[1..])|;
        PlainFragment(" AND ", rest, n);
        FragmentJoin(ps[0].text, |ps[0].args|, " AND " + rest, n);
        Associate(ps[0].text, " AND ", rest);
        assert Texts(ps)[1..] == Texts(ps[1..]);
      }
    }
  }

  /** How a driver deals positional values out: each text takes as many as it has placeholders. */
  function Deal(texts: seq<string>, values: seq<Value>): seq<seq<Value>> {
    if texts == [] then []
    else
      var n := if |Holes(texts[0])| <= |values| then |Holes(texts[0])| else |values|;
      [values[..n]] + Deal(texts[1..], values[n..])
  }

  /** Every condition's placeholders receive that condition's own values, and none are left over. */
  lemma {:induction false} EachGetsItsOwn(ps: seq<Clause>)
    requires forall i :: 0 <= i < |ps| ==> Balanced(ps[i])
    ensures |Deal(Texts(ps), Args(ps))| == |ps|
    ensures forall i :: 0 <= i < |ps| ==> Deal(Texts(ps), Args(ps))[i] == ps[i].args
  {
    if ps != [] {
      assert forall i :: 0 <= i < |ps[1..]| ==> ps[1..][i] == ps[i + 1];
      EachGetsItsOwn(ps[1..]);
      var n := |ps[0].args|;
      assert |Holes(ps[0].text)| == n;
      assert Args(ps)[..n] == ps[0].args && Args(ps)[n..] == Args(ps[1..]);
      assert Texts(ps)[1..] == Texts(ps[1..]);
    }
  }

  // ---- Identifiers -------------------------------------------------------------------------

  lemma PartIsPlain(s: string)
    requires IdentPart(s)
    ensures Plain(s)
  {
  }

  lemma IdentIsPlain(name: string)
    requires Ident(name)
    ensures Plain(name) && name != ""
  {
    var d := Dot(name);
    if d == |name| {
      PartIsPlain(name);
    } else {
      PartIsPlain(name[..d]);
      PartIsPlain(name[d + 1..]);
      forall k | 0 <= k < |name| ensures !IsQuote(name[k]) && name[k] != '?' {
        if k < d { assert name[k] == name[..d][k]; }
        if k > d { assert name[k] == name[d + 1..][k - d - 1]; }
      }
    }
  }

  // ---- Clause texts ------------------------------------------------------------------------

  function Compare(col: string, op: string): string { col + (" " + op + " ?") }

  /** n placeholders, separated by commas. */
  function Marks(n: nat): string {
    if n == 0 then "" else if n == 1 then "?" else "?" + (", " + Marks(n - 1))
  }

  function InText(col: string, n: nat): string { col + (" IN (" + (Marks(n) + ")")) }

  /** What follows the column: the empty-string default, the placeholder and the escape character. */
  function LikeTail(empty: string, slash: string): string {
    ", " + (empty + (")) LIKE " + ("?" + (" ESCAPE " + slash))))
  }

  function SearchOne(col: string): string { "LOWER(COALESCE(" + (col + LikeTail("''", "'\\'")) }

  function SearchAny(cols: seq<string>): string {
    if cols == [] then ""
    else if |cols| == 1 then SearchOne(cols[0])
    else SearchOne(cols[0]) + (" OR " + SearchAny(cols[1..]))
  }

  function SearchText(cols: seq<string>): string { "(" + (SearchAny(cols) + ")") }

  lemma CompareIsFragment(col: string, op: string)
    requires Ident(col) && Plain(op)
    ensures Fragment(Compare(col, op), 1)
  {
    IdentIsPlain(col);
    OneHole("");
    assert " " + op + " ?" == (" " + op + " ") + "?" && "?" + "" == "?";
    PlainFragment(" " + op + " ", "?", 1);
    PlainFragment(col, " " + op + " ?", 1);
  }

  lemma OneMoreMark(rest: string, n: nat)
    requires Fragment(rest, n) && Joins(rest)
    ensures Fragment("?" + rest, n + 1)
  {
    OneHole("");
    assert "?" + "" == "?";
    FragmentJoin("?", 1, rest, n);
  }

  lemma CommaThen(marks: string, n: nat)
    requires Fragment(marks + ")", n)
    ensures Fragment("?" + (", " + marks) + ")", n + 1)
  {
    PlainFragment(", ", marks + ")", n);
    OneMoreMark(", " + (marks + ")"), n);
    Associate(", ", marks, ")");
    Associate("?", ", " + marks, ")");
  }

  lemma {:induction false} MarksAreFragments(n: nat)
    ensures Fragment(Marks(n) + ")", n)
  {
    if n < 2 {
      NoHoles(")");
      OneMoreMark(")", 0);
      assert "" + ")" == ")";
    } else {
      MarksAreFragments(n - 1);
      CommaThen(Marks(n - 1), n - 1);
    }
  }

  lemma InIsFragment(col: string, n: nat)
    requires Ident(col)
    ensures Fragment(InText(col, n), n)
  {
    IdentIsPlain(col);
    MarksAreFragments(n);
    PlainFragment(" IN (", Marks(n) + ")", n);
    PlainFragment(col, " IN (" + (Marks(n) + ")"), n);
  }

  lemma QuotedFragment(q: string)
    requires |q| >= 2 && q[0] == '\'' && BodyLen(false, '\'', q[1..]) == |q| - 2
    ensures Fragment(q, 0)
  {
    assert StepOf(q).size == |q| && q[|q|..] == "";
  }

  lemma LiteralsAreFragments()
    ensures Fragment("''", 0) && Fragment("'\\'", 0)
  {
    assert "'\\'"[1..] == "\\'" && "\\'"[1..] == "'";
    QuotedFragment("''");
    QuotedFragment("'\\'");
  }

  lemma LikeTailIsFragment(empty: string, slash: string)
    requires Fragment(empty, 0) && Fragment(slash, 0)
    ensures Fragment(LikeTail(empty, slash), 1)
  {
    PlainFragment(" ESCAPE ", slash, 0);
    var escape := " ESCAPE " + slash;
    OneMoreMark(escape, 0);
    PlainFragment(")) LIKE ", "?" + escape, 1);
    var like := ")) LIKE " + ("?" + escape);
    FragmentJoin(empty, 0, like, 1);
    PlainFragment(", ", empty + like, 1);
  }

  lemma SearchOneIsFragment(col: string)
    requires Ident(col)
    ensures Fragment(SearchOne(col), 1)
  {
    LiteralsAreFragments();
    LikeTailIsFragment("''", "'\\'");
    ColumnThen(col, LikeTail("''", "'\\'"), 1);
  }

  lemma ColumnThen(col: string, tail: string, n: nat)
    requires Ident(col) && Fragment(tail, n)
    ensures Fragment("LOWER(COALESCE(" + (col + tail), n)
  {
    IdentIsPlain(col);
    PlainFragment(col, tail, n);
    PlainFragment("LOWER(COALESCE(", col + tail, n);
  }

  lemma OrThen(one: string, rest: string, n: nat)
    requires Fragment(one, 1) && Fragment(rest, n)
    ensures Fragment(one + (" OR " + rest), n + 1)
  {
    PlainFragment(" OR ", rest, n);
    FragmentJoin(one, 1, " OR " + rest, n);
  }

  lemma {:induction false} SearchIsFragment(cols: seq<string>)
    requires forall c :: c in cols ==> Ident(c)
    ensures Fragment(SearchAny(cols) + ")", |cols|)
  {
    NoHoles(")");
    if cols == [] {
      assert SearchAny(cols) + ")" == ")";
    } else {
      SearchOneIsFragment(cols[0]);
      if |cols| == 1 {
        FragmentJoin(SearchOne(cols[0]), 1, ")", 0);
      } else {
        var one, rest := SearchOne(cols[0]), SearchAny(cols[1..]);
        SearchIsFragment(cols[1..]);
        OrThen(one, rest + ")", |cols| - 1);
        Associate(" OR ", rest, ")");
        Associate(one, " OR " + rest, ")");
      }
    }
  }

  // ---- The builder -------------------------------------------------------------------------

  /** A value a filter acts on: present, not null and not the empty string. */
  predicate Meaningful(value: Option<Value>) {
    value.Some? && value.value != Null && value.value != Str("")
  }

  /** A bound is ignored when it is falsy: absent, null, zero or the empty string. */
  predicate Truthy(value: Option<Value>) { Meaningful(value) && value.value != Int(0) }

  /** What is searched for, without the space around it. */
  function Term(term: Option<string>): string { if term.Some? then Trim(term.value) else "" }

  function EqClause(col: string, v: Value): Clause { Clause(Compare(col, "="), [v]) }

  function InClause(col: string, values: seq<Value>): Clause { Clause(InText(col, |values|), values) }

  function FromClause(col: string, v: Value): Clause { Clause(Compare(col, ">="), [v]) }

  function ToClause(col: string, v: Value): Clause { Clause(Compare(col, "<="), [v]) }

  function SearchClause(cols: seq<string>, fold: char -> char, q: string): Clause {
    Clause(SearchText(cols), seq(|cols|, i => Str(SearchPattern(fold, q))))
  }

  class Where {
    var clauses: seq<string>
    var params: seq<Value>
    ghost var parts: seq<Clause>

    ghost predicate Valid()
      reads this
    {
      clauses == Texts(parts) && params == Args(parts)
    }

    constructor ()
      ensures Valid() && parts == []
    {
      clauses, params, parts := [], [], [];
    }

    function Conditions(): (text: string)
      reads this
      ensures Valid() ==> text == TextOf(parts)
    {
      if |clauses| > 0 then Join(clauses) else "1=1"
    }

    method Add(sql: string, args: seq<Value>)
      requires Valid()
      modifies this
      ensures Valid()
      ensures parts == if sql == "" then old(parts) else old(parts) + [Clause(sql, args)]
    {
      if sql != "" {
        clauses, params := clauses + [sql], params + args;
        ArgsConcat(parts, [Clause(sql, args)]);
        assert Args([Clause(sql, args)]) == args;
        parts := parts + [Clause(sql, args)];
      }
    }

    /** Adds col = value only when the value is meaningful; an unsafe column name is refused. */
    method EqIf(col: string, value: Option<Value>) returns (ok: bool)
      requires Valid()
      modifies this
      ensures Valid() && ok == (Meaningful(value) ==> Ident(col))
      ensures parts == if Meaningful(value) && ok then old(parts) + [EqClause(col, value.value)] else old(parts)
    {
      if Meaningful(value) {
        if !Ident(col) { return false; }
        Add(Compare(col, "="), [value.value]);
      }
      return true;
    }

    method InIf(col: string, values: seq<Value>) returns (ok: bool)
      requires Valid()
      modifies this
      ensures Valid() && ok == (values != [] ==> Ident(col))
      ensures parts == if values != [] && ok then old(parts) + [InClause(col, values)] else old(parts)
    {
      if |values| > 0 {
        if !Ident(col) { return false; }
        Add(InText(col, |values|), values);
      }
      return true;
    }

    /** Case-insensitive contains over several columns; a term that is absent or blank adds nothing. */
    method SearchIf(cols: seq<string>, term: Option<string>, fold: char -> char) returns (ok: bool)
      requires Valid()
      modifies this
      ensures Valid() && ok == (Term(term) != "" ==> forall c :: c in cols ==> Ident(c))
      ensures parts == if Term(term) != "" && ok then old(parts) + [SearchClause(cols, fold, Term(term))] else old(parts)
    {
      var q := Trim(if term.Some? then term.value else "");
      if q == "" { return true; }
      if exists i :: 0 <= i < |cols| && !Ident(cols[i]) { return false; }
      var like := SearchPattern(fold, q);
      Add(SearchText(cols), seq(|cols|, i => Str(like)));
      return true;
    }

    method BetweenIf(col: string, from: Option<Value>, to: Option<Value>) returns (ok: bool)
      requires Valid()
      modifies this
      ensures Valid() && ok == (Truthy(from) || Truthy(to) ==> Ident(col))
      ensures parts == if !ok then old(parts) else
                         old(parts)
                         + (if Truthy(from) then [FromClause(col, from.value)] else [])
                         + (if Truthy(to) then [ToClause(col, to.value)] else [])
    {
      if Truthy(from) {
        if !Ident(col) { return false; }
        Add(Compare(col, ">="), [from.value]);
      }
      if Truthy(to) {
        if !Ident(col) { return false; }
        Add(Compare(col, "<="), [to.value]);
      }
      return true;
    }
  }

  lemma FragmentIsKept(text: string, args: seq<Value>)
    requires Fragment(text, |args|)
    ensures |Holes(text)| == |args| && Rebind(text, args) == Bound(text, Present(args))
  {
    NumbersOfHoles(Holes(text));
    AnonymousUntouched(text);
  }

  /**
   Whatever was added: the conditions hold one bare placeholder for each value, so the statement
   passes the translator's placeholder step unchanged, and each condition gets its own values.
   */
  lemma ConditionsAreAligned(ps: seq<Clause>)
    requires forall i :: 0 <= i < |ps| ==> Balanced(ps[i])
    ensures var text := TextOf(ps);
      |Holes(text)| == |Args(ps)| && Rebind(text, Args(ps)) == Bound(text, Present(Args(ps)))
    ensures |Deal(Texts(ps), Args(ps))| == |ps|
    ensures forall i :: 0 <= i < |ps| ==> Deal(Texts(ps), Args(ps))[i] == ps[i].args
  {
    EachGetsItsOwn(ps);
    if ps == [] {
      NoHoles("1=1");
    } else {
      JoinedIsBalanced(ps);
    }
    FragmentIsKept(TextOf(ps), Args(ps));
  }

  /** What is searched for is the term given, without the space around it. */
  lemma TermIsTrimmed(a: string, t: string, b: string)
    requires (forall k :: 0 <= k < |a| ==> IsSpace(a[k])) && (forall k :: 0 <= k < |b| ==> IsSpace(b[k]))
    requires t != "" && !IsSpace(t[0]) && !IsSpace(t[|t| - 1])
    ensures Term(Some(a + t + b)) == t && Term(Some(a)) == "" && Term(None) == ""
  {
    TrimTakesOff(a, t, b);
  }
}
