/** The report builder's WHERE clause, and what it means. */
module QueryBuilder {
  import opened Wrappers
  import opened Values
  import opened SqlLexer
  import opened ReservedWords
  import opened Placeholders
  import opened LikeSearch
  import opened Conditions
  import opened WhereBuilder
  import opened WhereMeaning

  datatype Operator = Eq | Ne | Gt | Lt | Gte | Lte | Containing | Starting | IsNull | NotNull

  /** The operators a request can name. */
  const OPERATORS: map<string, Operator> :=
    map["eq" := Operator.Eq, "ne" := Operator.Ne, "gt" := Operator.Gt, "lt" := Operator.Lt,
        "gte" := Operator.Gte, "lte" := Operator.Lte, "contains" := Containing, "starts" := Starting,
        "is_null" := Operator.IsNull, "not_null" := Operator.NotNull]

  predicate NoValue(op: Operator) { op.IsNull? || op.NotNull? }

  function Symbol(op: Operator): string {
    match op
    case Eq => "="
    case Ne => "!="
    case Gt => ">"
    case Lt => "<"
    case Gte => ">="
    case Lte => "<="
    case Containing => "LIKE"
    case Starting => "LIKE"
    case IsNull => "IS NULL"
    case NotNull => "IS NOT NULL"
  }

  function Sql(op: Operator): string { if NoValue(op) then Symbol(op) else Symbol(op) + " ?" }

  /** `show` is how a value is written into a string. */
  function Wrap(op: Operator, show: Value -> string, v: Value): Value {
    match op
    case Containing => Str("%" + show(v) + "%")
    case Starting => Str(show(v) + "%")
    case _ => v
  }

  datatype Filter = Filter(field: string, operator: string, value: Value)

  /** A dataset of the catalogue: its alias, its own condition if any, and its columns by field. */
  datatype Dataset = Dataset(alias: string, base: Option<string>, columns: map<string, string>)

  datatype Refusal =
    | UnknownDataset(name: string)
    | UnknownField(name: string)
    | NoFields
    | UnknownFilterField(name: string)
    | UnknownOperator(name: string)

  datatype Built = Built(conditions: seq<string>, params: seq<Value>) | Refused(why: Refusal)

  // ---- The compiler ------------------------------------------------------------------------

  function TenantPart(ds: Dataset, tenant: Value): Clause { Clause(ds.alias + ".tenant_id = ?", [tenant]) }

  function BaseParts(ds: Dataset): seq<Clause> {
    if ds.base.Some? && ds.base.value != "" then [Clause(ds.base.value, [])] else []
  }

  predicate Known(ds: Dataset, f: Filter) { f.field in ds.columns && f.operator in OPERATORS }

  function FilterPart(ds: Dataset, show: Value -> string, f: Filter): Clause
    requires Known(ds, f)
  {
    var op := OPERATORS[f.operator];
    Clause(ds.columns[f.field] + " " + Sql(op), if NoValue(op) then [] else [Wrap(op, show, f.value)])
  }

  function FilterParts(ds: Dataset, show: Value -> string, fs: seq<Filter>): (r: seq<Clause>)
    requires forall i :: 0 <= i < |fs| ==> Known(ds, fs[i])
    ensures |r| == |fs| && forall i :: 0 <= i < |fs| ==> r[i] == FilterPart(ds, show, fs[i])
  {
    seq(|fs|, i requires 0 <= i < |fs| => FilterPart(ds, show, fs[i]))
  }

  function AllParts(ds: Dataset, tenant: Value, show: Value -> string, fs: seq<Filter>): seq<Clause>
    requires forall i :: 0 <= i < |fs| ==> Known(ds, fs[i])
  {
    [TenantPart(ds, tenant)] + BaseParts(ds) + FilterParts(ds, show, fs)
  }

  /** Why the first filter the catalogue does not know is refused; the field is looked at first. */
  function RefusalOf(ds: Dataset, f: Filter): Refusal {
    if f.field !in ds.columns then UnknownFilterField(f.field) else UnknownOperator(f.operator)
  }

  /** The refusal of the first filter that is not known, if there is one. */
  function FirstRefusal(ds: Dataset, fs: seq<Filter>): (r: Option<Refusal>)
    ensures r == None <==> forall i :: 0 <= i < |fs| ==> Known(ds, fs[i])
  {
    if fs == [] then None
    else if !Known(ds, fs[0]) then Some(RefusalOf(ds, fs[0]))
    else
      assert forall i :: 1 <= i < |fs| ==> fs[i] == fs[1..][i - 1];
      FirstRefusal(ds, fs[1..])
  }

  lemma OneMorePart(ps: seq<Clause>, p: Clause)
    ensures Texts(ps + [p]) == Texts(ps) + [p.text] && Args(ps + [p]) == Args(ps) + p.args
  {
    ArgsConcat(ps, [p]);
    assert Args([p]) == p.args && Texts([p]) == [p.text];
  }

  lemma NoFilters(ds: Dataset, tenant: Value, show: Value -> string)
    ensures var ps := AllParts(ds, tenant, show, []);
      Texts(ps) == [ds.alias + ".tenant_id = ?"] + (if BaseParts(ds) == [] then [] else [ds.base.value])
      && Args(ps) == [tenant]
  {
    var ps, t := AllParts(ds, tenant, show, []), TenantPart(ds, tenant);
    OneMorePart([], t);
    assert [] + [t] == [t] && Texts([t]) == [t.text] && Args([t]) == [tenant];
    if BaseParts(ds) == [] {
      assert ps == [t];
    } else {
      assert ps == [t] + [BaseParts(ds)[0]];
      OneMorePart([t], BaseParts(ds)[0]);
    }
  }

  lemma OneMoreFilter(ds: Dataset, tenant: Value, show: Value -> string, fs: seq<Filter>, f: Filter)
    requires (forall i :: 0 <= i < |fs| ==> Known(ds, fs[i])) && Known(ds, f)
    ensures var p, ps := FilterPart(ds, show, f), AllParts(ds, tenant, show, fs);
      Texts(AllParts(ds, tenant, show, fs + [f])) == Texts(ps) + [p.text]
      && Args(AllParts(ds, tenant, show, fs + [f])) == Args(ps) + p.args
  {
    var p, ps := FilterPart(ds, show, f), AllParts(ds, tenant, show, fs);
    assert AllParts(ds, tenant, show, fs + [f]) == ps + [p];
    OneMorePart(ps, p);
  }

  lemma RefusalStep(ds: Dataset, fs: seq<Filter>, k: nat)
    requires k < |fs|
    ensures FirstRefusal(ds, fs[k..])
            == if Known(ds, fs[k]) then FirstRefusal(ds, fs[k + 1..]) else Some(RefusalOf(ds, fs[k]))
  {
    assert fs[k..][1..] == fs[k + 1..];
  }

  /** The walk over the filters after its first `k`. */
  ghost predicate Walked(ds: Dataset, tenant: Value, show: Value -> string, filters: seq<Filter>, k: nat,
                         conditions: seq<string>, params: seq<Value>) {
    && k <= |filters|
    && FirstRefusal(ds, filters) == FirstRefusal(ds, filters[k..])
    && (forall i :: 0 <= i < k ==> Known(ds, filters[i]))
    && conditions == Texts(AllParts(ds, tenant, show, filters[..k]))
    && params == Args(AllParts(ds, tenant, show, filters[..k]))
  }

  lemma WalkStep(ds: Dataset, tenant: Value, show: Value -> string, filters: seq<Filter>, k: nat,
                 conditions: seq<string>, params: seq<Value>)
    requires Walked(ds, tenant, show, filters, k, conditions, params) && k < |filters| && Known(ds, filters[k])
    ensures var p := FilterPart(ds, show, filters[k]);
      Walked(ds, tenant, show, filters, k + 1, conditions + [p.text], params + p.args)
  {
    RefusalStep(ds, filters, k);
    assert filters[..k + 1] == filters[..k] + [filters[k]];
    OneMoreFilter(ds, tenant, show, filters[..k], filters[k]);
  }

  /** One filter more. */
  method AddFilter(ds: Dataset, ghost tenant: Value, show: Value -> string, filters: seq<Filter>, k: nat,
                   conditions: seq<string>, params: seq<Value>)
    returns (conditions': seq<string>, params': seq<Value>)
    requires Walked(ds, tenant, show, filters, k, conditions, params) && k < |filters| && Known(ds, filters[k])
    ensures Walked(ds, tenant, show, filters, k + 1, conditions', params')
  {
    var op := OPERATORS[filters[k].operator];
    WalkStep(ds, tenant, show, filters, k, conditions, params);
    conditions' := conditions + [ds.columns[filters[k].field] + " " + Sql(op)];
    params' := if NoValue(op) then params else params + [Wrap(op, show, filters[k].value)];
    assert params + [] == params;
  }

  lemma WalkEnds(ds: Dataset, tenant: Value, show: Value -> string, filters: seq<Filter>,
                 conditions: seq<string>, params: seq<Value>)
    requires Walked(ds, tenant, show, filters, |filters|, conditions, params)
    ensures FirstRefusal(ds, filters) == None
    ensures var ps := AllParts(ds, tenant, show, filters); conditions == Texts(ps) && params == Args(ps)
  {
    assert filters[..|filters|] == filters && filters[|filters|..] == [];
  }

  method BuildWhere(ds: Dataset, tenant: Value, show: Value -> string, filters: seq<Filter>) returns (r: Built)
    ensures match FirstRefusal(ds, filters)
      case Some(why) => r == Refused(why)
      case None =>
        var ps := AllParts(ds, tenant, show, filters);
        r == Built(Texts(ps), Args(ps))
  {
    var params := [];
    var conditions := [ds.alias + ".tenant_id = ?"];
    params := params + [tenant];
    if ds.base.Some? && ds.base.value != "" {
      conditions := conditions + [ds.base.value];
    }
    NoFilters(ds, tenant, show);
    assert filters[0..] == filters && filters[..0] == [];
    for k := 0 to |filters|
      invariant Walked(ds, tenant, show, filters, k, conditions, params)
    {
      var filter := filters[k];
      RefusalStep(ds, filters, k);
      if filter.field !in ds.columns { return Refused(UnknownFilterField(filter.field)); }
      if filter.operator !in OPERATORS { return Refused(UnknownOperator(filter.operator)); }
      conditions, params := AddFilter(ds, tenant, show, filters, k, conditions, params);
    }
    WalkEnds(ds, tenant, show, filters, conditions, params);
    return Built(conditions, params);
  }

  /** The first field of a list that the dataset does not have. */
  function FirstUnknown(ds: Dataset, fields: seq<string>): (r: Option<string>)
    ensures r == None <==> forall i :: 0 <= i < |fields| ==> fields[i] in ds.columns
  {
    if fields == [] then None
    else if fields[0] !in ds.columns then Some(fields[0])
    else
      assert forall i :: 1 <= i < |fields| ==> fields[i] == fields[1..][i - 1];
      FirstUnknown(ds, fields[1..])
  }

  /** A request: the dataset, the wanted fields and the filters, looked at in this order. */
  method BuildQuery(datasets: map<string, Dataset>, dataset: string, fields: seq<string>, tenant: Value,
                    show: Value -> string, filters: seq<Filter>) returns (r: Built)
    ensures dataset !in datasets ==> r == Refused(UnknownDataset(dataset))
    ensures dataset in datasets ==>
              var ds := datasets[dataset];
              match FirstUnknown(ds, fields)
              case Some(field) => r == Refused(UnknownField(field))
              case None =>
                if fields == [] then r == Refused(NoFields)
                else
                  match FirstRefusal(ds, filters)
                  case Some(why) => r == Refused(why)
                  case None =>
                    var ps := AllParts(ds, tenant, show, filters);
                    r == Built(Texts(ps), Args(ps))
  {
    if dataset !in datasets { return Refused(UnknownDataset(dataset)); }
    var ds := datasets[dataset];
    assert fields[0..] == fields;
    for k := 0 to |fields|
      invariant FirstUnknown(ds, fields) == FirstUnknown(ds, fields[k..])
    {
      assert fields[k..][1..] == fields[k + 1..];
      if fields[k] !in ds.columns { return Refused(UnknownField(fields[k])); }
    }
    if |fields| == 0 { return Refused(NoFields); }
    r := BuildWhere(ds, tenant, show, filters);
  }

  // ---- What the clause says ----------------------------------------------------------------

  /** What an operator asks of a cell and a value. */
  predicate Passes(e: Engine, op: Operator, cell: Value, v: Value) {
    && cell != Null && v != Null
    && match op
       case Eq => e.same(cell, v)
       case Ne => !e.same(cell, v)
       case Gt => e.less(v, cell)
       case Lt => e.less(cell, v)
       case Gte => !e.less(cell, v)
       case Lte => !e.less(v, cell)
       case _ => LikeFolded(e.escape, e.fold, e.text(v), e.text(cell))
  }

  /** What a filter means, said of the row directly. */
  predicate Meets(e: Engine, show: Value -> string, ds: Dataset, row: Row, f: Filter)
    requires Known(ds, f)
  {
    var op, cell := OPERATORS[f.operator], Cell(row, ds.columns[f.field]);
    match op
    case IsNull => cell == Null
    case NotNull => cell != Null
    case Containing => cell != Null && LikeFolded(e.escape, e.fold, "%" + show(f.value) + "%", e.text(cell))
    case Starting => cell != Null && LikeFolded(e.escape, e.fold, show(f.value) + "%", e.text(cell))
    case _ => Passes(e, op, cell, f.value)
  }

  /** What each name a request can give asks of a cell; there are no other names. */
  lemma NamesAsk(e: Engine, show: Value -> string, ds: Dataset, row: Row, f: Filter)
    requires Known(ds, f)
    ensures var cell, v := Cell(row, ds.columns[f.field]), f.value;
      var both := cell != Null && v != Null;
      && f.operator in {"eq", "ne", "gt", "lt", "gte", "lte", "contains", "starts", "is_null", "not_null"}
      && (f.operator == "eq" ==> (Meets(e, show, ds, row, f) <==> both && e.same(cell, v)))
      && (f.operator == "ne" ==> (Meets(e, show, ds, row, f) <==> both && !e.same(cell, v)))
      && (f.operator == "gt" ==> (Meets(e, show, ds, row, f) <==> both && e.less(v, cell)))
      && (f.operator == "lt" ==> (Meets(e, show, ds, row, f) <==> both && e.less(cell, v)))
      && (f.operator == "gte" ==> (Meets(e, show, ds, row, f) <==> both && !e.less(cell, v)))
      && (f.operator == "lte" ==> (Meets(e, show, ds, row, f) <==> both && !e.less(v, cell)))
      && (f.operator == "contains" ==>
            (Meets(e, show, ds, row, f) <==> cell != Null && LikeFolded(e.escape, e.fold, "%" + show(v) + "%", e.text(cell))))
      && (f.operator == "starts" ==>
            (Meets(e, show, ds, row, f) <==> cell != Null && LikeFolded(e.escape, e.fold, show(v) + "%", e.text(cell))))
      && (f.operator == "is_null" ==> (Meets(e, show, ds, row, f) <==> cell == Null))
      && (f.operator == "not_null" ==> (Meets(e, show, ds, row, f) <==> cell != Null))
  {
  }

  /** The dataset's own condition is one conjunct that binds nothing. */
  predicate OneConjunct(base: string) { base != "" ==> Composable(Clause(base, [])) }

  /** The catalogue's own texts: plain column names, and a condition without a loose OR. */
  predicate WellFormedDataset(ds: Dataset) {
    && IdentPart(ds.alias) && !IsJoint(ds.alias)
    && (ds.base.Some? ==> OneConjunct(ds.base.value))
    && forall f :: f in ds.columns ==> IsColumn(ds.columns[f])
  }

  lemma Qualified(alias: string, name: string)
    requires IdentPart(alias) && !IsJoint(alias) && IdentPart(name) && !IsJoint(name)
    ensures IsColumn(alias + "." + name)
  {
    DotOf(alias, name);
    QualifiedParts(alias, name);
  }

  lemma TenantColumn(alias: string)
    requires IdentPart(alias) && !IsJoint(alias)
    ensures IsColumn(alias + "." + "tenant_id")
  {
    TenantIsNoJoint();
    Qualified(alias, "tenant_id");
  }

  lemma TenantIsNoJoint()
    ensures IdentPart("tenant_id") && !IsJoint("tenant_id")
  {
    assert Lower("tenant_id")[0] == 't';
  }

  lemma QualifiedParts(a: string, b: string)
    ensures (a + "." + b)[..|a|] == a && (a + "." + b)[|a| + 1..] == b && |a + "." + b| == |a| + 1 + |b|
  {
  }

  lemma {:induction false} DotOf(a: string, b: string)
    requires forall k :: 0 <= k < |a| ==> a[k] != '.'
    ensures Dot(a + "." + b) == |a|
  {
    if a != "" {
      assert (a + "." + b)[1..] == a[1..] + "." + b;
      DotOf(a[1..], b);
    }
  }

  lemma TenantText(alias: string)
    ensures alias + ".tenant_id = ?" == Compare(alias + "." + "tenant_id", "=") && alias + "." + "tenant_id" == alias + ".tenant_id"
  {
  }

  lemma TenantSays(e: Engine, row: Row, ds: Dataset, tenant: Value)
    requires IdentPart(ds.alias) && !IsJoint(ds.alias)
    ensures var p := TenantPart(ds, tenant);
      Composable(p) && Says(e, row, p.text, p.args) == CompareTruth(e, Test.Eq, Cell(row, ds.alias + ".tenant_id"), tenant)
  {
    TenantColumn(ds.alias);
    CompareSays(e, row, ds.alias + "." + "tenant_id", "=", tenant);
    TenantText(ds.alias);
  }

  lemma NullCode()
    ensures Code("NULL") == [Word("NULL")] && Settled("NULL")
  {
    Nothing();
    NameThen("NULL", "");
    assert "NULL" + "" == "NULL" && [Word("NULL")] + [] == [Word("NULL")];
  }

  lemma IsNullTail(tail: string)
    requires tail == " IS NULL"
    ensures Settled(tail) && Code(tail) == [Word("IS"), Word("NULL")]
  {
    NullCode();
    SpacedCode("IS", "NULL");
    IsNullText(tail);
    assert [Word("IS")] + [Word("NULL")] == [Word("IS"), Word("NULL")];
  }

  lemma IsNullText(tail: string)
    ensures tail == " IS NULL" ==> tail == Spaced("IS", "NULL")
    ensures tail == " IS NOT NULL" ==> tail == Spaced("IS", "NOT" + ([' '] + "NULL"))
  {
  }

  lemma TwoWords(a: string, b: string)
    requires IsName(a) && Code(b) == [Word(b)] && Settled(b)
    ensures Code(a + ([' '] + b)) == [Word(a)] + [Word(b)] && Settled(a + ([' '] + b))
  {
    BlankThen(' ', b);
    NameThen(a, [' '] + b);
  }

  lemma NotNullCode()
    ensures Code("NOT" + ([' '] + "NULL")) == [Word("NOT")] + [Word("NULL")] && Settled("NOT" + ([' '] + "NULL"))
  {
    NullCode();
    TwoWords("NOT", "NULL");
  }

  lemma ThreeWords(t: Token, u: Token, v: Token)
    ensures [t] + ([u] + [v]) == [t, u, v]
  {
  }

  lemma NotNullTail(tail: string)
    requires tail == " IS NOT NULL"
    ensures Settled(tail) && Code(tail) == [Word("IS"), Word("NOT"), Word("NULL")]
  {
    NotNullCode();
    SpacedCode("IS", "NOT" + ([' '] + "NULL"));
    IsNullText(tail);
    ThreeWords(Word("IS"), Word("NOT"), Word("NULL"));
  }

  lemma NullTokens(ts: seq<Token>)
    requires ts == [Word("IS"), Word("NULL")]
    ensures TestOf(ts) == Some(Test.IsNull) && Single(ts) && HoleCount(ts) == 0
  {
    assert Lower("IS") == "is" && Lower("NULL") == "null";
    assert ts[1..] == [Word("NULL")] && HoleCount([Word("NULL")]) == 0;
    FlatIsWhole(ts);
  }

  lemma NotNullTokens(ts: seq<Token>)
    requires ts == [Word("IS"), Word("NOT"), Word("NULL")]
    ensures TestOf(ts) == Some(Test.NotNull) && Single(ts) && HoleCount(ts) == 0
  {
    assert Lower("IS") == "is" && Lower("NOT") == "not" && Lower("NULL") == "null";
    assert ts[1..] == [Word("NOT"), Word("NULL")] && ts[1..][1..] == [Word("NULL")] && HoleCount([Word("NULL")]) == 0;
    FlatIsWhole(ts);
  }

  function NullTest(op: Operator): Test { if op.IsNull? then Test.IsNull else Test.NotNull }

  lemma NullReads(op: Operator, tail: string)
    requires NoValue(op) && tail == " " + Symbol(op)
    ensures Reads(tail, Some(NullTest(op)), 0)
  {
    if op.IsNull? {
      assert tail == " IS NULL";
      IsNullTail(tail);
      NullTokens(Code(tail));
    } else {
      assert tail == " IS NOT NULL";
      NotNullTail(tail);
      NotNullTokens(Code(tail));
    }
  }

  /** A condition that asks for NULL binds nothing. */
  lemma NullSays(e: Engine, row: Row, col: string, op: Operator, test: Test, p: Clause)
    requires IsColumn(col) && NoValue(op) && p == Clause(col + " " + Symbol(op), [])
    requires test == NullTest(op)
    ensures Composable(p)
    ensures Kept(e, row, p) <==> TestTruth(e, test, Cell(row, col), []) == True
  {
    var tail := " " + Symbol(op);
    NullReads(op, tail);
    Associate(col, " ", Symbol(op));
    NullIsFragment(col, op);
    ColumnSays(e, row, col, tail, test, []);
  }

  lemma NullIsFragment(col: string, op: Operator)
    requires IsColumn(col) && NoValue(op)
    ensures Fragment(col + (" " + Symbol(op)), 0) && col != ""
  {
    var tail := " " + Symbol(op);
    IdentIsPlain(col);
    assert Plain(tail);
    NoHoles(tail);
    PlainFragment(col, tail, 0);
  }

  lemma ValueSays(e: Engine, row: Row, col: string, op: Operator, v: Value, p: Clause)
    requires IsColumn(col) && !NoValue(op) && p == Clause(col + " " + (Symbol(op) + " ?"), [v])
    ensures Composable(p)
    ensures Kept(e, row, p) <==> Passes(e, op, Cell(row, col), v)
  {
    SymbolIsNamed(e, op, Cell(row, col), v);
    CompareSays(e, row, col, Symbol(op), v);
    FilterText(col, Symbol(op));
  }

  lemma FilterText(col: string, symbol: string)
    ensures col + " " + (symbol + " ?") == Compare(col, symbol)
  {
  }

  lemma SymbolIsNamed(e: Engine, op: Operator, cell: Value, v: Value)
    requires !NoValue(op)
    ensures TestNamed(Symbol(op)).Some?
    ensures CompareTruth(e, TestNamed(Symbol(op)).value, cell, v) == True <==> Passes(e, op, cell, v)
  {
  }

  lemma MeetsPasses(e: Engine, show: Value -> string, ds: Dataset, row: Row, f: Filter)
    requires Known(ds, f) && forall s: string :: e.text(Str(s)) == s
    ensures var op, cell := OPERATORS[f.operator], Cell(row, ds.columns[f.field]);
      Meets(e, show, ds, row, f)
      <==> if NoValue(op) then TestTruth(e, NullTest(op), cell, []) == True else Passes(e, op, cell, Wrap(op, show, f.value))
  {
  }

  /** One filter's condition, read from its text, keeps exactly the rows that meet the filter. */
  lemma FilterSays(e: Engine, show: Value -> string, ds: Dataset, row: Row, f: Filter)
    requires WellFormedDataset(ds) && Known(ds, f) && forall s: string :: e.text(Str(s)) == s
    ensures Composable(FilterPart(ds, show, f)) && (Kept(e, row, FilterPart(ds, show, f)) <==> Meets(e, show, ds, row, f))
  {
    var op := OPERATORS[f.operator];
    MeetsPasses(e, show, ds, row, f);
    ClauseSays(e, row, ds.columns[f.field], op, Wrap(op, show, f.value), FilterPart(ds, show, f));
  }

  lemma ClauseSays(e: Engine, row: Row, col: string, op: Operator, v: Value, p: Clause)
    requires IsColumn(col) && p == Clause(col + " " + Sql(op), if NoValue(op) then [] else [v])
    ensures Composable(p)
    ensures Kept(e, row, p)
            <==> if NoValue(op) then TestTruth(e, NullTest(op), Cell(row, col), []) == True else Passes(e, op, Cell(row, col), v)
  {
    if NoValue(op) {
      NullSays(e, row, col, op, NullTest(op), p);
    } else {
      ValueSays(e, row, col, op, v, p);
    }
  }

  lemma FiltersCompose(e: Engine, show: Value -> string, ds: Dataset, fs: seq<Filter>, row: Row)
    requires WellFormedDataset(ds) && forall i :: 0 <= i < |fs| ==> Known(ds, fs[i])
    requires forall s: string :: e.text(Str(s)) == s
    ensures AllComposable(FilterParts(ds, show, fs))
  {
    var ps := FilterParts(ds, show, fs);
    forall i | 0 <= i < |ps| ensures Composable(ps[i]) { FilterSays(e, show, ds, row, fs[i]); }
  }

  lemma PartsCompose(e: Engine, show: Value -> string, ds: Dataset, tenant: Value, fs: seq<Filter>, row: Row)
    requires WellFormedDataset(ds) && forall i :: 0 <= i < |fs| ==> Known(ds, fs[i])
    requires forall s: string :: e.text(Str(s)) == s
    ensures AllComposable(AllParts(ds, tenant, show, fs))
  {
    var t := TenantPart(ds, tenant);
    TenantSays(e, row, ds, tenant);
    FiltersCompose(e, show, ds, fs, row);
    ComposableBoth([t] + BaseParts(ds), FilterParts(ds, show, fs));
    ComposableBoth([t], BaseParts(ds));
  }

  predicate AllMet(e: Engine, show: Value -> string, ds: Dataset, fs: seq<Filter>, row: Row)
    requires forall i :: 0 <= i < |fs| ==> Known(ds, fs[i])
  {
    forall i :: 0 <= i < |fs| ==> Meets(e, show, ds, row, fs[i])
  }

  lemma FiltersKeep(e: Engine, show: Value -> string, ds: Dataset, fs: seq<Filter>, row: Row)
    requires WellFormedDataset(ds) && forall i :: 0 <= i < |fs| ==> Known(ds, fs[i])
    requires forall s: string :: e.text(Str(s)) == s
    ensures AllKept(e, row, FilterParts(ds, show, fs)) <==> AllMet(e, show, ds, fs, row)
  {
    var ps := FilterParts(ds, show, fs);
    forall i | 0 <= i < |fs| ensures Kept(e, row, ps[i]) <==> Meets(e, show, ds, row, fs[i]) {
      FilterSays(e, show, ds, row, fs[i]);
    }
  }

  lemma OneKept(e: Engine, row: Row, p: Clause)
    ensures AllKept(e, row, [p]) <==> Kept(e, row, p)
  {
    assert [p][0] == p;
  }

  /** All the parts are true when the tenant's, the dataset's and the filters' are. */
  lemma PartsKeep(e: Engine, row: Row, ds: Dataset, t: Clause, qs: seq<Clause>)
    ensures AllKept(e, row, [t] + BaseParts(ds) + qs)
            <==> Kept(e, row, t) && (BaseParts(ds) != [] ==> Says(e, row, ds.base.value, []) == True) && AllKept(e, row, qs)
  {
    KeptBoth(e, row, [t] + BaseParts(ds), qs);
    KeptBoth(e, row, [t], BaseParts(ds));
    OneKept(e, row, t);
    if BaseParts(ds) != [] { OneKept(e, row, BaseParts(ds)[0]); }
  }

  /**
   The text of the compiled clause, read as SQL reads it with its placeholders filled in order,
   keeps a row exactly when the row is the tenant's, meets the dataset's condition and meets every
   filter. A filter that binds no value shifts nothing after it.
   */
  lemma ClauseMeansItsFilters(e: Engine, show: Value -> string, ds: Dataset, tenant: Value, fs: seq<Filter>, row: Row)
    requires WellFormedDataset(ds) && forall i :: 0 <= i < |fs| ==> Known(ds, fs[i])
    requires tenant != Null && forall s: string :: e.text(Str(s)) == s
    ensures var ps, owner := AllParts(ds, tenant, show, fs), Cell(row, ds.alias + ".tenant_id");
      Says(e, row, Join(Texts(ps)), Args(ps)) == True <==>
        && owner != Null && e.same(owner, tenant)
        && (BaseParts(ds) != [] ==> Says(e, row, ds.base.value, []) == True)
        && AllMet(e, show, ds, fs, row)
  {
    var ps := AllParts(ds, tenant, show, fs);
    PartsCompose(e, show, ds, tenant, fs, row);
    JoinedSays(e, row, ps);
    KeptByAll(e, row, ps);
    PartsKeep(e, row, ds, TenantPart(ds, tenant), FilterParts(ds, show, fs));
    FiltersKeep(e, show, ds, fs, row);
    TenantSays(e, row, ds, tenant);
  }

  lemma Two(x: string, y: string)
    ensures [x] + [y] == [x, y]
  {
  }

  /**
   A dataset's condition must not hold a loose OR: the compiled clause would keep every row its
   second half is true of, whoever's the row is.
   */
  lemma LooseBaseLetsOthersIn(e: Engine, ds: Dataset, tenant: Value, show: Value -> string, q: string, r: string, row: Row)
    requires IdentPart(ds.alias) && !IsJoint(ds.alias)
    requires ds.base == Some(q + " OR " + r) && Composable(Clause(q, [])) && Settled(r)
    requires Says(e, row, r, []) == True
    ensures var ps := AllParts(ds, tenant, show, []); Says(e, row, Join(Texts(ps)), Args(ps)) == True
  {
    TenantSays(e, row, ds, tenant);
    NoFilters(ds, tenant, show);
    var p := TenantPart(ds, tenant);
    LooseOrEscapes(e, row, p, Clause(q, []), Clause(r, []));
    Two(p.text, q + " OR " + r);
    assert p.args + [] + [] == [tenant];
  }

  lemma DeletedColumn(alias: string)
    requires alias == "c" || alias == "d"
    ensures IsColumn(alias + "." + "deleted_at")
  {
    assert Lower("deleted_at")[0] == 'd' && |Lower(alias)| == 1;
    Qualified(alias, "deleted_at");
  }

  /** The catalogue's "not deleted" conditions are one conjunct each, true of rows not deleted. */
  lemma NotDeletedIsOneConjunct(e: Engine, row: Row, alias: string, base: string)
    requires (alias == "c" || alias == "d") && base == alias + "." + "deleted_at" + " " + "IS NULL"
    ensures OneConjunct(base)
    ensures Says(e, row, base, []) == True <==> Cell(row, alias + "." + "deleted_at") == Null
  {
    DeletedColumn(alias);
    NullSays(e, row, alias + "." + "deleted_at", Operator.IsNull, Test.IsNull, Clause(base, []));
  }

  lemma OnesAreWhole(ts: seq<Token>)
    requires ts == [Sym('1'), Sym('='), Sym('1')]
    ensures Whole(ts) && HoleCount(ts) == 0
  {
    FlatIsWhole(ts);
    FlatPair(Sym('='), Sym('1'));
    Unfolded(Sym('1'), [Sym('='), Sym('1')], "or", 0);
    assert ts == [Sym('1')] + [Sym('='), Sym('1')];
  }

  /** So is the condition that always holds. */
  lemma OneIsOneIsOneConjunct(e: Engine, row: Row, base: string)
    requires base == "1 = 1"
    ensures OneConjunct(base) && Says(e, row, base, []) == True
  {
    SymbolsCode(base);
    SpacedOnes(base);
    NoHoles(base);
    OnesAreWhole(Code(base));
    NumbersCompared(e, row, Code(base));
  }

  lemma SpacedOnes(s: string)
    requires s == "1 = 1"
    ensures Symbols(s) == [Sym('1'), Sym('='), Sym('1')]
  {
    assert s[1..] == " = 1" && " = 1"[1..] == "= 1" && "= 1"[1..] == " 1" && " 1"[1..] == "1" && "1"[1..] == "";
    assert Symbols("1") == [Sym('1')] && Symbols(" 1") == [Sym('1')] && Symbols("= 1") == [Sym('='), Sym('1')];
  }
}
