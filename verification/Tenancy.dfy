/** Tenant isolation over one shared store: what the operations of a scope show, write and leave alone. */
module Tenancy {
  import opened Wrappers
  import opened Values
  import opened WhereBuilder
  import opened Selection
  import opened Ordering
  import Conditions

  type Row = map<string, Value>
  type Tables = map<string, seq<Row>>

  const OWNER := "tenant_id"

  function Cell(r: Row, column: string): Value { if column in r then r[column] else Null }

  function Owner(r: Row): Value { Cell(r, OWNER) }

  /**
   What never changes: which tables carry an owner, which carry a company, their columns, and how the
   database orders values.
   */
  datatype Schema = Schema(tenantTables: set<string>, companyTables: set<string>, columns: map<string, set<string>>,
                           rank: Value -> real)

  predicate HasColumn(sc: Schema, table: string, column: string) {
    table in sc.columns && column in sc.columns[table]
  }

  /** A scope of one organisation, possibly narrowed to some of its companies, or the platform's. */
  datatype Scope = Tenant(id: string, companies: Option<seq<Value>>) | Platform

  datatype Error =
    | ScopeMisuse | OrganisationRequired | OutsideOrganisation
    | UnsafeIdentifier | EmptyInsert | UnsafeUpdate | UnsafeDelete | Conflict

  datatype Answer = Rows(rows: seq<Row>) | Number(n: nat) | Stored(row: Row) | Failed(error: Error)

  datatype Key = Key(column: string, descending: bool)

  datatype Op =
    | First(table: string, where: Row)
    | All(table: string, where: Row, order: Option<seq<Key>>, limit: nat)
    | Count(table: string, where: Row)
    | Insert(table: string, data: Row, now: string)
    | Update(table: string, id: Value, data: Row, now: string)
    | UpdateWhere(table: string, where: Row, data: Row, now: string)
    | Delete(table: string, id: Value)
    | SoftDelete(table: string, id: Value, now: string)

  // ---- Order -------------------------------------------------------------------------------

  /** Whether a may stand before b, the first key that tells them apart deciding. */
  predicate NotAfter(sc: Schema, keys: seq<Key>, a: Row, b: Row) {
    keys == [] ||
    var x, y := sc.rank(Cell(a, keys[0].column)), sc.rank(Cell(b, keys[0].column));
    if x == y then NotAfter(sc, keys[1..], a, b) else (x < y) != keys[0].descending
  }

  lemma {:induction false} NotAfterIsTotal(sc: Schema, keys: seq<Key>, a: Row, b: Row)
    ensures NotAfter(sc, keys, a, b) || NotAfter(sc, keys, b, a)
  {
    if keys != [] { NotAfterIsTotal(sc, keys[1..], a, b); }
  }

  lemma {:induction false} NotAfterIsTransitive(sc: Schema, keys: seq<Key>, a: Row, b: Row, c: Row)
    requires NotAfter(sc, keys, a, b) && NotAfter(sc, keys, b, c)
    ensures NotAfter(sc, keys, a, c)
  {
    if keys != [] {
      var k := keys[0].column;
      if sc.rank(Cell(a, k)) == sc.rank(Cell(b, k)) == sc.rank(Cell(c, k)) { NotAfterIsTransitive(sc, keys[1..], a, b, c); }
    }
  }

  function By(sc: Schema, keys: seq<Key>): (Row, Row) -> bool { (a, b) => NotAfter(sc, keys, a, b) }

  lemma KeysOrder(sc: Schema, keys: seq<Key>)
    ensures Orders(By(sc, keys))
  {
    forall a: Row, b: Row ensures By(sc, keys)(a, b) || By(sc, keys)(b, a) { NotAfterIsTotal(sc, keys, a, b); }
    forall a: Row, b: Row, c: Row | By(sc, keys)(a, b) && By(sc, keys)(b, c) ensures By(sc, keys)(a, c) {
      NotAfterIsTransitive(sc, keys, a, b, c);
    }
  }

  /** The newest first where the table says when, else the highest id first. */
  function DefaultOrder(sc: Schema, table: string): seq<Key> {
    if HasColumn(sc, table, "created_at") then [Key("created_at", true)]
    else if HasColumn(sc, table, "updated_at") then [Key("updated_at", true)]
    else if HasColumn(sc, table, "id") then [Key("id", true)]
    else []
  }

  function OrderOf(sc: Schema, table: string, order: Option<seq<Key>>): seq<Key> {
    if order.Some? then order.value else DefaultOrder(sc, table)
  }

  // ---- The database: statements over one table's rows --------------------------------------

  function RowsOf(t: Tables, table: string): seq<Row> { if table in t then t[table] else [] }

  /** SQL equality on every column named: a comparison with NULL never holds. */
  predicate Equal(where: Row, r: Row) {
    forall c :: c in where ==> where[c] != Null && c in r && r[c] == where[c]
  }

  function EqualTo(where: Row): Row -> bool { r => Equal(where, r) }

  function OtherThan(where: Row): Row -> bool { r => !Equal(where, r) }

  /** The rows once those a condition picks are patched. */
  function Patched(rows: seq<Row>, where: Row, patch: Row): (r: seq<Row>)
    ensures |r| == |rows|
    ensures forall i :: 0 <= i < |rows| ==> r[i] == if Equal(where, rows[i]) then rows[i] + patch else rows[i]
  {
    seq(|rows|, i requires 0 <= i < |rows| => if Equal(where, rows[i]) then rows[i] + patch else rows[i])
  }

  predicate SafeKeys(r: Row) { forall c :: c in r ==> Conditions.Ident(c) }

  function IdOf(r: Row): Option<Value> { if Cell(r, "id") == Null then None else Some(r["id"]) }

  /** Whether a row of the table has this id. */
  predicate Held(rows: seq<Row>, id: Value) { exists r :: r in rows && IdOf(r) == Some(id) }

  predicate Taken(rows: seq<Row>, r: Row) { IdOf(r).Some? && Held(rows, IdOf(r).value) }

  /** A patch that would give one id to two rows. */
  predicate Clashes(rows: seq<Row>, where: Row, patch: Row) {
    && IdOf(patch).Some?
    && (|Picked(rows, EqualTo(where))| > 1
        || (|Picked(rows, EqualTo(where))| == 1 && Held(Picked(rows, OtherThan(where)), IdOf(patch).value)))
  }

  function DbInsert(t: Tables, table: string, r: Row): (Tables, Answer) {
    if !SafeKeys(r) then (t, Failed(UnsafeIdentifier))
    else if r == map[] then (t, Failed(EmptyInsert))
    else if Taken(RowsOf(t, table), r) then (t, Failed(Conflict))
    else (t[table := RowsOf(t, table) + [r]], Stored(r))
  }

  /** Why an update is refused, or changes nothing. */
  function UpdateStops(rows: seq<Row>, where: Row, patch: Row): Option<Answer> {
    if !SafeKeys(patch) || !SafeKeys(where) then Some(Failed(UnsafeIdentifier))
    else if patch == map[] then Some(Number(0))
    else if where == map[] then Some(Failed(UnsafeUpdate))
    else if Clashes(rows, where, patch) then Some(Failed(Conflict))
    else None
  }

  function DbUpdate(t: Tables, table: string, where: Row, patch: Row): (Tables, Answer) {
    var rows := RowsOf(t, table);
    if UpdateStops(rows, where, patch).Some? then (t, UpdateStops(rows, where, patch).value)
    else (t[table := Patched(rows, where, patch)], Number(|Picked(rows, EqualTo(where))|))
  }

  function DbDelete(t: Tables, table: string, where: Row): (Tables, Answer) {
    var rows := RowsOf(t, table);
    if !SafeKeys(where) then (t, Failed(UnsafeIdentifier))
    else if where == map[] then (t, Failed(UnsafeDelete))
    else (t[table := Picked(rows, OtherThan(where))], Number(|Picked(rows, EqualTo(where))|))
  }

  // ---- The scope: what each operation asks of the database ---------------------------------

  predicate InCompanies(sc: Schema, s: Scope, table: string, r: Row) {
    s.Tenant? && s.companies.Some? && table in sc.companyTables ==>
      var c := if table == "companies" then "id" else "company_id";
      c in r && r[c] != Null && r[c] in s.companies.value
  }

  /** The condition every read carries: owner, company, and the caller's meaningful filters. */
  predicate Visible(sc: Schema, s: Scope, table: string, where: Row, r: Row) {
    && (s.Tenant? ==> Owner(r) == Str(s.id))
    && InCompanies(sc, s, table, r)
    && forall c :: c in where && Meaningful(Some(where[c])) ==> c in r && r[c] == where[c]
  }

  function Shown(sc: Schema, s: Scope, table: string, where: Row): Row -> bool { r => Visible(sc, s, table, where, r) }

  /** Why a read is refused: a table without an owner, or an unsafe column. */
  function ReadStops(sc: Schema, s: Scope, table: string, where: Row): Option<Error> {
    if s.Tenant? && table !in sc.tenantTables then Some(ScopeMisuse)
    else if exists c :: c in where && Meaningful(Some(where[c])) && !Conditions.Ident(c) then Some(UnsafeIdentifier)
    else None
  }

  /** A write's condition, with the owner added for a scope of one organisation. */
  function Scoped(sc: Schema, s: Scope, table: string, where: Row): Row {
    if s.Tenant? && table in sc.tenantTables then where[OWNER := Str(s.id)] else where
  }

  function Stamped(sc: Schema, table: string, column: string, now: string, r: Row): Row {
    if column !in r && HasColumn(sc, table, column) then r[column := Str(now)] else r
  }

  function Owned(sc: Schema, s: Scope, table: string, data: Row): Row {
    if table in sc.tenantTables && OWNER !in data && s.Tenant? then data[OWNER := Str(s.id)] else data
  }

  function InsertRow(sc: Schema, s: Scope, table: string, data: Row, now: string): Row {
    Stamped(sc, table, "updated_at", now, Stamped(sc, table, "created_at", now, Owned(sc, s, table, data)))
  }

  /** Why an insert does not reach the database. */
  function InsertStops(sc: Schema, s: Scope, table: string, data: Row): Option<Error> {
    if table in sc.tenantTables && OWNER !in data && s.Platform? then Some(OrganisationRequired)
    else if s.Tenant? && table in sc.tenantTables && Owner(Owned(sc, s, table, data)) != Str(s.id) then
      Some(OutsideOrganisation)
    else None
  }

  predicate Patches(op: Op) { op.Update? || op.UpdateWhere? || op.SoftDelete? }

  /** The rows a patching operation asks for ... */
  function Target(sc: Schema, s: Scope, op: Op): Row
    requires Patches(op)
  {
    Scoped(sc, s, op.table, if op.UpdateWhere? then op.where else map["id" := op.id])
  }

  /** ... and what it puts into them. */
  function Patch(sc: Schema, op: Op): Row
    requires Patches(op)
  {
    Stamped(sc, op.table, "updated_at", op.now,
            match op
            case Update(_, _, data, _) => data - {OWNER, "id"}
            case UpdateWhere(_, _, data, _) => data
            case SoftDelete(_, _, now) => map["deleted_at" := Str(now)])
  }

  predicate Reads(op: Op) { op.First? || op.All? || op.Count? }

  function ReadAnswer(sc: Schema, s: Scope, op: Op, rows: seq<Row>): Answer
    requires Reads(op)
  {
    var shown := Picked(rows, Shown(sc, s, op.table, op.where));
    if ReadStops(sc, s, op.table, op.where).Some? then Failed(ReadStops(sc, s, op.table, op.where).value)
    else
      match op
      case First(_, _) => Rows(Take(shown, 1))
      case All(table, _, order, limit) => Rows(Take(Sorted(shown, By(sc, OrderOf(sc, table, order))), limit))
      case Count(_, _) => Number(|shown|)
  }

  function Step(sc: Schema, s: Scope, op: Op, t: Tables): (Tables, Answer) {
    match op
    case First(_, _) => (t, ReadAnswer(sc, s, op, RowsOf(t, op.table)))
    case All(_, _, _, _) => (t, ReadAnswer(sc, s, op, RowsOf(t, op.table)))
    case Count(_, _) => (t, ReadAnswer(sc, s, op, RowsOf(t, op.table)))
    case Insert(table, data, now) =>
      if InsertStops(sc, s, table, data).Some? then (t, Failed(InsertStops(sc, s, table, data).value))
      else DbInsert(t, table, InsertRow(sc, s, table, data, now))
    case Delete(table, id) => DbDelete(t, table, Scoped(sc, s, table, map["id" := id]))
    case _ => DbUpdate(t, op.table, Target(sc, s, op), Patch(sc, op))
  }

  /** Two rows that would end up with the id of a patch: one patched, the other patched or holding it. */
  predicate WouldShare(rows: seq<Row>, where: Row, patch: Row, i: nat, j: nat)
    requires i < |rows| && j < |rows|
  {
    i != j && Equal(where, rows[i]) && IdOf(patch).Some? && IdOf(Patched(rows, where, patch)[j]) == IdOf(patch)
  }

  lemma ClashHasTwoRows(rows: seq<Row>, where: Row, patch: Row)
    requires Clashes(rows, where, patch)
    ensures exists i: nat, j: nat :: i < |rows| && j < |rows| && WouldShare(rows, where, patch, i, j)
  {
    var at := Places(rows, EqualTo(where));
    PickedAt(rows, EqualTo(where));
    if |at| > 1 {
      assert WouldShare(rows, where, patch, at[0], at[1]);
    } else {
      PickedOnes(rows, OtherThan(where));
      var r :| r in Picked(rows, OtherThan(where)) && IdOf(r) == IdOf(patch);
      var j :| 0 <= j < |rows| && rows[j] == r;
      assert WouldShare(rows, where, patch, at[0], j);
    }
  }

  lemma SharedIsClash(rows: seq<Row>, where: Row, patch: Row, i: nat, j: nat)
    requires i < |rows| && j < |rows| && WouldShare(rows, where, patch, i, j)
    ensures Clashes(rows, where, patch)
  {
    PickedAt(rows, EqualTo(where));
    PickedOnes(rows, OtherThan(where));
    assert i in Places(rows, EqualTo(where));
    if !Equal(where, rows[j]) { assert rows[j] in Picked(rows, OtherThan(where)); }
  }

  /** An update is refused over its id exactly when it would leave two rows with it. */
  lemma ClashIsTwoRows(rows: seq<Row>, where: Row, patch: Row)
    ensures Clashes(rows, where, patch) <==> exists i: nat, j: nat :: i < |rows| && j < |rows| && WouldShare(rows, where, patch, i, j)
  {
    if Clashes(rows, where, patch) { ClashHasTwoRows(rows, where, patch); }
    if i: nat, j: nat :| i < |rows| && j < |rows| && WouldShare(rows, where, patch, i, j) {
      SharedIsClash(rows, where, patch, i, j);
    }
  }

  // ---- The classes -------------------------------------------------------------------------

  /** Every table but one is as it was. */
  ghost predicate OthersStay(before: Tables, after: Tables, table: string) {
    forall other: string :: other != table ==> RowsOf(after, other) == RowsOf(before, other)
  }

  class Db {
    var tables: Tables

    constructor (tables: Tables)
      ensures this.tables == tables
    {
      this.tables := tables;
    }

    method Insert(table: string, r: Row) returns (a: Answer)
      modifies this
      ensures (tables, a) == DbInsert(old(tables), table, r)
      ensures a.Stored? <==> SafeKeys(r) && r != map[] && !Taken(RowsOf(old(tables), table), r)
      ensures a.Stored? ==> a.row == r && RowsOf(tables, table) == RowsOf(old(tables), table) + [r]
      ensures a.Failed? ==> tables == old(tables)
      ensures OthersStay(old(tables), tables, table)
    {
      if !SafeKeys(r) { return Failed(UnsafeIdentifier); }
      if r == map[] { return Failed(EmptyInsert); }
      if Taken(RowsOf(tables, table), r) { return Failed(Conflict); }
      tables := tables[table := RowsOf(tables, table) + [r]];
      return Stored(r);
    }

    /** Every row the condition picks is patched, every other is as it was, and the picked are counted. */
    method Update(table: string, where: Row, patch: Row) returns (a: Answer)
      modifies this
      ensures (tables, a) == DbUpdate(old(tables), table, where, patch)
      ensures var rows, rows' := RowsOf(old(tables), table), RowsOf(tables, table);
        match UpdateStops(rows, where, patch)
        case Some(answer) => a == answer && tables == old(tables)
        case None =>
          && a == Number(HowMany(rows, EqualTo(where))) && |rows'| == |rows|
          && forall i :: 0 <= i < |rows| ==> rows'[i] == if Equal(where, rows[i]) then rows[i] + patch else rows[i]
      ensures OthersStay(old(tables), tables, table)
    {
      var rows := RowsOf(tables, table);
      if !SafeKeys(patch) || !SafeKeys(where) { return Failed(UnsafeIdentifier); }
      if patch == map[] { return Number(0); }
      if where == map[] { return Failed(UnsafeUpdate); }
      if Clashes(rows, where, patch) { return Failed(Conflict); }
      PickedHowMany(rows, EqualTo(where));
      tables := tables[table := Patched(rows, where, patch)];
      return Number(|Picked(rows, EqualTo(where))|);
    }

    /** The rows the condition does not pick are left, in their order, and the others are counted. */
    method DeleteWhere(table: string, where: Row) returns (a: Answer)
      modifies this
      ensures (tables, a) == DbDelete(old(tables), table, where)
      ensures var rows, rows' := RowsOf(old(tables), table), RowsOf(tables, table);
        if SafeKeys(where) && where != map[] then
          a == Number(HowMany(rows, EqualTo(where))) && Selects(rows, OtherThan(where), rows')
        else a.Failed? && tables == old(tables)
      ensures OthersStay(old(tables), tables, table)
    {
      var rows := RowsOf(tables, table);
      if !SafeKeys(where) { return Failed(UnsafeIdentifier); }
      if where == map[] { return Failed(UnsafeDelete); }
      PickedHowMany(rows, EqualTo(where));
      PickedSelects(rows, OtherThan(where));
      tables := tables[table := Picked(rows, OtherThan(where))];
      return Number(|Picked(rows, EqualTo(where))|);
    }
  }

  lemma FirstIsFirst(rows: seq<Row>, p: Row -> bool)
    ensures Picked(rows, p) == [] <==> forall i :: 0 <= i < |rows| ==> !p(rows[i])
    ensures Picked(rows, p) != [] ==>
              exists i :: 0 <= i < |rows| && Picked(rows, p)[0] == rows[i] && p(rows[i]) && forall j :: 0 <= j < i ==> !p(rows[j])
  {
    PickedAt(rows, p);
    var at := Places(rows, p);
    if at != [] {
      forall j | 0 <= j < at[0] ensures !p(rows[j]) {
        assert j !in at by { forall k | 0 <= k < |at| ensures at[k] != j { assert at[0] <= at[k]; } }
      }
    }
  }

  lemma DeleteStep(sc: Schema, s: Scope, table: string, id: Value, t: Tables)
    ensures Step(sc, s, Op.Delete(table, id), t) == DbDelete(t, table, Scoped(sc, s, table, map["id" := id]))
  {
  }

  lemma PatchStep(sc: Schema, s: Scope, op: Op, t: Tables)
    requires Patches(op)
    ensures Step(sc, s, op, t) == DbUpdate(t, op.table, Target(sc, s, op), Patch(sc, op))
  {
  }

  /** The beginning, in this order, of exactly the rows a condition holds of. */
  ghost predicate Lists(rows: seq<Row>, p: Row -> bool, le: (Row, Row) -> bool, limit: nat, listed: seq<Row>) {
    exists shown: seq<Row> :: Selects(rows, p, shown) && Listing(multiset(shown), le, limit, listed)
  }

  lemma PickedIsListed(sc: Schema, keys: seq<Key>, rows: seq<Row>, p: Row -> bool, limit: nat)
    ensures Lists(rows, p, By(sc, keys), limit, Take(Sorted(Picked(rows, p), By(sc, keys)), limit))
  {
    PickedSelects(rows, p);
    KeysOrder(sc, keys);
    SortedIsListing(Picked(rows, p), By(sc, keys), limit);
  }

  class TenantScope {
    const schema: Schema
    const scope: Scope
    const db: Db

    constructor (schema: Schema, scope: Scope, db: Db)
      ensures this.schema == schema && this.scope == scope && this.db == db
    {
      this.schema, this.scope, this.db := schema, scope, db;
    }

    /** The first row of the table the scope and the filters show, or none when they show none. */
    method First(table: string, where: Row) returns (a: Answer)
      ensures (db.tables, a) == Step(schema, scope, Op.First(table, where), db.tables)
      ensures var rows := RowsOf(db.tables, table);
        match ReadStops(schema, scope, table, where)
        case Some(error) => a == Failed(error)
        case None =>
          if forall i :: 0 <= i < |rows| ==> !Visible(schema, scope, table, where, rows[i]) then a == Rows([])
          else exists i :: 0 <= i < |rows| && a == Rows([rows[i]]) && Visible(schema, scope, table, where, rows[i])
                           && forall j :: 0 <= j < i ==> !Visible(schema, scope, table, where, rows[j])
    {
      var stop := ReadStops(schema, scope, table, where);
      if stop.Some? { return Failed(stop.value); }
      var shown := Picked(RowsOf(db.tables, table), Shown(schema, scope, table, where));
      FirstIsFirst(RowsOf(db.tables, table), Shown(schema, scope, table, where));
      return Rows(Take(shown, 1));
    }

    /** As many of the rows shown as the limit allows, ordered, none left out before one listed. */
    method All(table: string, where: Row, order: Option<seq<Key>>, limit: nat) returns (a: Answer)
      ensures (db.tables, a) == Step(schema, scope, Op.All(table, where, order, limit), db.tables)
      ensures match ReadStops(schema, scope, table, where)
        case Some(error) => a == Failed(error)
        case None =>
          a.Rows? && Lists(RowsOf(db.tables, table), Shown(schema, scope, table, where),
                           By(schema, OrderOf(schema, table, order)), limit, a.rows)
    {
      var stop := ReadStops(schema, scope, table, where);
      if stop.Some? { return Failed(stop.value); }
      var keys := if order.Some? then order.value else DefaultOrder(schema, table);
      var shown := Picked(RowsOf(db.tables, table), Shown(schema, scope, table, where));
      PickedIsListed(schema, keys, RowsOf(db.tables, table), Shown(schema, scope, table, where), limit);
      return Rows(Take(Sorted(shown, By(schema, keys)), limit));
    }

    method Count(table: string, where: Row) returns (a: Answer)
      ensures (db.tables, a) == Step(schema, scope, Op.Count(table, where), db.tables)
      ensures match ReadStops(schema, scope, table, where)
        case Some(error) => a == Failed(error)
        case None => a == Number(HowMany(RowsOf(db.tables, table), Shown(schema, scope, table, where)))
    {
      var stop := ReadStops(schema, scope, table, where);
      if stop.Some? { return Failed(stop.value); }
      PickedHowMany(RowsOf(db.tables, table), Shown(schema, scope, table, where));
      return Number(|Picked(RowsOf(db.tables, table), Shown(schema, scope, table, where))|);
    }

    /** Insert, stamping the owner and the timestamps. */
    method Insert(table: string, data: Row, now: string) returns (a: Answer)
      modifies db
      ensures (db.tables, a) == Step(schema, scope, Op.Insert(table, data, now), old(db.tables))
    {
      var row := data;
      if table in schema.tenantTables && OWNER !in row {
        if scope.Platform? { return Failed(OrganisationRequired); }
        row := row[OWNER := Str(scope.id)];
      }
      if scope.Tenant? && table in schema.tenantTables && Owner(row) != Str(scope.id) {
        return Failed(OutsideOrganisation);
      }
      if "created_at" !in row && HasColumn(schema, table, "created_at") { row := row["created_at" := Str(now)]; }
      if "updated_at" !in row && HasColumn(schema, table, "updated_at") { row := row["updated_at" := Str(now)]; }
      a := db.Insert(table, row);
    }

    method Update(table: string, id: Value, data: Row, now: string) returns (a: Answer)
      modifies db
      ensures (db.tables, a) == Step(schema, scope, Op.Update(table, id, data, now), old(db.tables))
    {
      var patch := data - {OWNER, "id"};
      if "updated_at" !in patch && HasColumn(schema, table, "updated_at") { patch := patch["updated_at" := Str(now)]; }
      var where := map["id" := id];
      if scope.Tenant? && table in schema.tenantTables { where := where[OWNER := Str(scope.id)]; }
      PatchStep(schema, scope, Op.Update(table, id, data, now), db.tables);
      a := db.Update(table, where, patch);
    }

    method UpdateWhere(table: string, where: Row, data: Row, now: string) returns (a: Answer)
      modifies db
      ensures (db.tables, a) == Step(schema, scope, Op.UpdateWhere(table, where, data, now), old(db.tables))
    {
      var scopedWhere := where;
      if scope.Tenant? && table in schema.tenantTables { scopedWhere := scopedWhere[OWNER := Str(scope.id)]; }
      var patch := data;
      if "updated_at" !in patch && HasColumn(schema, table, "updated_at") { patch := patch["updated_at" := Str(now)]; }
      PatchStep(schema, scope, Op.UpdateWhere(table, where, data, now), db.tables);
      a := db.Update(table, scopedWhere, patch);
    }

    method Delete(table: string, id: Value) returns (a: Answer)
      modifies db
      ensures (db.tables, a) == Step(schema, scope, Op.Delete(table, id), old(db.tables))
    {
      var where := map["id" := id];
      if scope.Tenant? && table in schema.tenantTables { where := where[OWNER := Str(scope.id)]; }
      DeleteStep(schema, scope, table, id, db.tables);
      a := db.DeleteWhere(table, where);
    }

    method SoftDelete(table: string, id: Value, now: string) returns (a: Answer)
      modifies db
      ensures (db.tables, a) == Step(schema, scope, Op.SoftDelete(table, id, now), old(db.tables))
    {
      a := Update(table, id, map["deleted_at" := Str(now)], now);
      assert map["deleted_at" := Str(now)] - {OWNER, "id"} == map["deleted_at" := Str(now)];
    }
  }

  // ---- Rows by owner -----------------------------------------------------------------------

  function OwnedBy(b: string): Row -> bool { r => Owner(r) == Str(b) }

  /** The rows of one organisation, in order: all that a scope of it can ever see. */
  function RowsFor(rows: seq<Row>, b: string): seq<Row> { Picked(rows, OwnedBy(b)) }

  /** Whether a row of somebody else has this id. */
  predicate OthersHold(rows: seq<Row>, b: string, id: Value) {
    exists r :: r in rows && Owner(r) != Str(b) && IdOf(r) == Some(id)
  }

  /** A condition that names the owner. */
  predicate Names(where: Row, b: string) { OWNER in where && where[OWNER] == Str(b) }

  lemma NamedAreOwn(where: Row, b: string)
    requires Names(where, b)
    ensures forall r :: EqualTo(where)(r) ==> OwnedBy(b)(r)
    ensures forall r :: OwnedBy(b)(r) || OtherThan(where)(r)
  {
  }

  lemma HeldByWhom(rows: seq<Row>, b: string, id: Value)
    ensures Held(rows, id) <==> Held(RowsFor(rows, b), id) || OthersHold(rows, b, id)
  {
    PickedOnes(rows, OwnedBy(b));
    if Held(rows, id) {
      var r :| r in rows && IdOf(r) == Some(id);
      assert Owner(r) == Str(b) ==> r in RowsFor(rows, b);
    }
  }

  /** On its own rows a scoped condition picks what it picks in the whole table. */
  lemma OwnArePicked(rows: seq<Row>, b: string, where: Row)
    requires Names(where, b)
    ensures Picked(RowsFor(rows, b), EqualTo(where)) == Picked(rows, EqualTo(where))
    ensures RowsFor(Picked(rows, OtherThan(where)), b) == Picked(RowsFor(rows, b), OtherThan(where))
    ensures forall id :: OthersHold(Picked(rows, OtherThan(where)), b, id) <==> OthersHold(rows, b, id)
  {
    NamedAreOwn(where, b);
    PickedAmong(rows, EqualTo(where), OwnedBy(b));
    PickedTwice(rows, OtherThan(where), OwnedBy(b));
    PickedOnes(rows, OtherThan(where));
  }

  lemma {:induction false} OwnArePatched(rows: seq<Row>, b: string, where: Row, patch: Row)
    requires Names(where, b) && OWNER !in patch
    ensures RowsFor(Patched(rows, where, patch), b) == Patched(RowsFor(rows, b), where, patch)
    decreases |rows|
  {
    if rows != [] {
      var n := |rows| - 1;
      var init, r := rows[..n], rows[n];
      OwnArePatched(init, b, where, patch);
      var r' := if Equal(where, r) then r + patch else r;
      assert Patched(rows, where, patch) == Patched(init, where, patch) + [r'];
      PickedAppend(Patched(init, where, patch), r', OwnedBy(b));
      assert OwnedBy(b)(r') <==> OwnedBy(b)(r);
      assert Patched(RowsFor(init, b) + [r], where, patch) == Patched(RowsFor(init, b), where, patch) + [r'];
    }
  }

  /** A scoped write leaves the rows of every other organisation as they were, in order. */
  lemma {:induction false} OthersAreNotPatched(rows: seq<Row>, a: string, b: string, where: Row, patch: Row)
    requires Names(where, a) && a != b && OWNER !in patch
    ensures RowsFor(Patched(rows, where, patch), b) == RowsFor(rows, b)
    decreases |rows|
  {
    if rows != [] {
      var n := |rows| - 1;
      var init, r := rows[..n], rows[n];
      OthersAreNotPatched(init, a, b, where, patch);
      var r' := if Equal(where, r) then r + patch else r;
      assert Patched(rows, where, patch) == Patched(init, where, patch) + [r'];
      PickedAppend(Patched(init, where, patch), r', OwnedBy(b));
      assert Equal(where, r) ==> Owner(r) == Str(a);
    }
  }

  lemma OthersAreNotDeleted(rows: seq<Row>, a: string, b: string, where: Row)
    requires Names(where, a) && a != b
    ensures RowsFor(Picked(rows, OtherThan(where)), b) == RowsFor(rows, b)
  {
    PickedAmong(rows, OwnedBy(b), OtherThan(where));
  }

  // ---- One step on the rows of one table ---------------------------------------------------

  /** Operations on the tables that carry an owner; a patch by condition does not name the owner. */
  predicate Confined(sc: Schema, op: Op) {
    op.table in sc.tenantTables && (op.UpdateWhere? ==> OWNER !in op.data)
  }

  /** What an operation answers, and leaves, when its table holds these rows. */
  function AnswerOn(sc: Schema, s: Scope, op: Op, rows: seq<Row>): Answer { Step(sc, s, op, map[op.table := rows]).1 }

  function RowsAfter(sc: Schema, s: Scope, op: Op, rows: seq<Row>): seq<Row> {
    RowsOf(Step(sc, s, op, map[op.table := rows]).0, op.table)
  }

  lemma UpdateIsLocal(t: Tables, table: string, where: Row, patch: Row)
    ensures var u := map[table := RowsOf(t, table)];
      && DbUpdate(t, table, where, patch).1 == DbUpdate(u, table, where, patch).1
      && RowsOf(DbUpdate(t, table, where, patch).0, table) == RowsOf(DbUpdate(u, table, where, patch).0, table)
      && OthersStay(t, DbUpdate(t, table, where, patch).0, table)
  {
    var u := map[table := RowsOf(t, table)];
    assert RowsOf(u, table) == RowsOf(t, table);
  }

  lemma DeleteIsLocal(t: Tables, table: string, where: Row)
    ensures var u := map[table := RowsOf(t, table)];
      && DbDelete(t, table, where).1 == DbDelete(u, table, where).1
      && RowsOf(DbDelete(t, table, where).0, table) == RowsOf(DbDelete(u, table, where).0, table)
      && OthersStay(t, DbDelete(t, table, where).0, table)
  {
    var u := map[table := RowsOf(t, table)];
    assert RowsOf(u, table) == RowsOf(t, table);
  }

  lemma InsertIsLocal(t: Tables, table: string, r: Row)
    ensures var u := map[table := RowsOf(t, table)];
      && DbInsert(t, table, r).1 == DbInsert(u, table, r).1
      && RowsOf(DbInsert(t, table, r).0, table) == RowsOf(DbInsert(u, table, r).0, table)
      && OthersStay(t, DbInsert(t, table, r).0, table)
  {
    var u := map[table := RowsOf(t, table)];
    assert RowsOf(u, table) == RowsOf(t, table);
  }

  lemma InsertStep(sc: Schema, s: Scope, op: Op, t: Tables)
    requires op.Insert?
    ensures var stop := InsertStops(sc, s, op.table, op.data);
      Step(sc, s, op, t) == if stop.Some? then (t, Failed(stop.value))
                            else DbInsert(t, op.table, InsertRow(sc, s, op.table, op.data, op.now))
  {
  }

  lemma ReadStep(sc: Schema, s: Scope, op: Op, t: Tables)
    requires Reads(op)
    ensures Step(sc, s, op, t) == (t, ReadAnswer(sc, s, op, RowsOf(t, op.table)))
  {
  }

  /** An operation looks at one table and changes no other. */
  lemma StepIsLocal(sc: Schema, s: Scope, op: Op, t: Tables)
    ensures Step(sc, s, op, t).1 == AnswerOn(sc, s, op, RowsOf(t, op.table))
    ensures RowsOf(Step(sc, s, op, t).0, op.table) == RowsAfter(sc, s, op, RowsOf(t, op.table))
    ensures OthersStay(t, Step(sc, s, op, t).0, op.table)
  {
    var u := map[op.table := RowsOf(t, op.table)];
    assert RowsOf(u, op.table) == RowsOf(t, op.table);
    if Reads(op) {
      ReadStep(sc, s, op, t);
      ReadStep(sc, s, op, u);
    } else if op.Insert? {
      InsertStep(sc, s, op, t);
      InsertStep(sc, s, op, u);
      InsertIsLocal(t, op.table, InsertRow(sc, s, op.table, op.data, op.now));
    } else if op.Delete? {
      DeleteStep(sc, s, op.table, op.id, t);
      DeleteStep(sc, s, op.table, op.id, u);
      DeleteIsLocal(t, op.table, Scoped(sc, s, op.table, map["id" := op.id]));
    } else {
      PatchStep(sc, s, op, t);
      PatchStep(sc, s, op, u);
      UpdateIsLocal(t, op.table, Target(sc, s, op), Patch(sc, op));
    }
  }

  /** The id an operation would put into its table, if any. */
  function Brought(sc: Schema, s: Scope, op: Op): Option<Value> {
    match op
    case Insert(table, data, now) => IdOf(InsertRow(sc, s, table, data, now))
    case UpdateWhere(_, _, _, _) => IdOf(Patch(sc, op))
    case _ => None
  }

  /** A row of another organisation has the id the operation would put in. */
  predicate Collides(sc: Schema, s: Scope, op: Op, rows: seq<Row>)
    requires s.Tenant?
  {
    Brought(sc, s, op).Some? && OthersHold(rows, s.id, Brought(sc, s, op).value)
  }

  /** An answer to an operation that put something in. */
  predicate Lands(a: Answer) { a.Stored? || (a.Number? && a.n > 0) }

  lemma ConfinedPatch(sc: Schema, s: Scope, op: Op)
    requires Patches(op) && s.Tenant? && Confined(sc, op)
    ensures Names(Target(sc, s, op), s.id) && OWNER !in Patch(sc, op)
    ensures IdOf(Patch(sc, op)) == Brought(sc, s, op)
  {
  }

  /** Whether own rows alone tell of a clash, and when the others' do. */
  lemma ClashesOfWhom(rows: seq<Row>, b: string, where: Row, patch: Row)
    requires Names(where, b)
    ensures Clashes(rows, where, patch)
            <==> Clashes(RowsFor(rows, b), where, patch)
                 || (IdOf(patch).Some? && |Picked(rows, EqualTo(where))| == 1 && OthersHold(rows, b, IdOf(patch).value))
  {
    OwnArePicked(rows, b, where);
    if IdOf(patch).Some? { HeldByWhom(Picked(rows, OtherThan(where)), b, IdOf(patch).value); }
  }

  lemma PatchAnswer(sc: Schema, s: Scope, op: Op, rows: seq<Row>, where: Row, patch: Row)
    requires Patches(op) && where == Target(sc, s, op) && patch == Patch(sc, op)
    ensures var stop := UpdateStops(rows, where, patch);
      && AnswerOn(sc, s, op, rows) == (if stop.Some? then stop.value else Number(|Picked(rows, EqualTo(where))|))
      && RowsAfter(sc, s, op, rows) == (if stop.Some? then rows else Patched(rows, where, patch))
  {
    PatchStep(sc, s, op, map[op.table := rows]);
  }

  lemma OwnPatch(sc: Schema, s: Scope, op: Op, rows: seq<Row>)
    requires Patches(op) && s.Tenant? && Confined(sc, op)
    ensures var own := RowsFor(rows, s.id);
      var alike := AnswerOn(sc, s, op, rows) == AnswerOn(sc, s, op, own);
      && (alike <==> !(Collides(sc, s, op, rows) && Lands(AnswerOn(sc, s, op, own))))
      && (alike ==> RowsFor(RowsAfter(sc, s, op, rows), s.id) == RowsAfter(sc, s, op, own))
  {
    var own, where, patch := RowsFor(rows, s.id), Target(sc, s, op), Patch(sc, op);
    ConfinedPatch(sc, s, op);
    PatchAnswer(sc, s, op, rows, where, patch);
    PatchAnswer(sc, s, op, own, where, patch);
    ClashesOfWhom(rows, s.id, where, patch);
    OwnArePicked(rows, s.id, where);
    OwnArePatched(rows, s.id, where, patch);
  }

  lemma InsertAnswer(sc: Schema, s: Scope, op: Op, rows: seq<Row>, r: Row)
    requires op.Insert? && r == InsertRow(sc, s, op.table, op.data, op.now)
    ensures var stop := InsertStops(sc, s, op.table, op.data);
      && AnswerOn(sc, s, op, rows) == (if stop.Some? then Failed(stop.value)
                                       else if !SafeKeys(r) then Failed(UnsafeIdentifier)
                                       else if r == map[] then Failed(EmptyInsert)
                                       else if Taken(rows, r) then Failed(Conflict)
                                       else Stored(r))
      && RowsAfter(sc, s, op, rows) == (if AnswerOn(sc, s, op, rows).Stored? then rows + [r] else rows)
  {
  }

  lemma InsertOwner(sc: Schema, s: Scope, op: Op)
    requires op.Insert? && s.Tenant? && Confined(sc, op) && InsertStops(sc, s, op.table, op.data).None?
    ensures Owner(InsertRow(sc, s, op.table, op.data, op.now)) == Str(s.id)
  {
  }

  lemma OwnInsert(sc: Schema, s: Scope, op: Op, rows: seq<Row>)
    requires op.Insert? && s.Tenant? && Confined(sc, op)
    ensures var own := RowsFor(rows, s.id);
      var alike := AnswerOn(sc, s, op, rows) == AnswerOn(sc, s, op, own);
      && (alike <==> !(Collides(sc, s, op, rows) && Lands(AnswerOn(sc, s, op, own))))
      && (alike ==> RowsFor(RowsAfter(sc, s, op, rows), s.id) == RowsAfter(sc, s, op, own))
  {
    var own, r := RowsFor(rows, s.id), InsertRow(sc, s, op.table, op.data, op.now);
    InsertAnswer(sc, s, op, rows, r);
    InsertAnswer(sc, s, op, own, r);
    if IdOf(r).Some? { HeldByWhom(rows, s.id, IdOf(r).value); }
    PickedAppend(rows, r, OwnedBy(s.id));
    if InsertStops(sc, s, op.table, op.data).None? { InsertOwner(sc, s, op); }
  }

  lemma DeleteAnswer(sc: Schema, s: Scope, op: Op, rows: seq<Row>, where: Row)
    requires op.Delete? && where == Scoped(sc, s, op.table, map["id" := op.id])
    ensures AnswerOn(sc, s, op, rows) == (if SafeKeys(where) then Number(|Picked(rows, EqualTo(where))|) else Failed(UnsafeIdentifier))
    ensures RowsAfter(sc, s, op, rows) == (if SafeKeys(where) then Picked(rows, OtherThan(where)) else rows)
  {
    assert "id" in where;
    DeleteStep(sc, s, op.table, op.id, map[op.table := rows]);
  }

  lemma OwnDelete(sc: Schema, s: Scope, op: Op, rows: seq<Row>)
    requires op.Delete? && s.Tenant? && Confined(sc, op)
    ensures AnswerOn(sc, s, op, rows) == AnswerOn(sc, s, op, RowsFor(rows, s.id))
    ensures RowsFor(RowsAfter(sc, s, op, rows), s.id) == RowsAfter(sc, s, op, RowsFor(rows, s.id))
  {
    var where := Scoped(sc, s, op.table, map["id" := op.id]);
    DeleteAnswer(sc, s, op, rows, where);
    DeleteAnswer(sc, s, op, RowsFor(rows, s.id), where);
    OwnArePicked(rows, s.id, where);
  }

  lemma OwnRead(sc: Schema, s: Scope, op: Op, rows: seq<Row>)
    requires Reads(op) && s.Tenant?
    ensures AnswerOn(sc, s, op, rows) == AnswerOn(sc, s, op, RowsFor(rows, s.id))
    ensures RowsAfter(sc, s, op, rows) == rows
  {
    PickedAmong(rows, Shown(sc, s, op.table, op.where), OwnedBy(s.id));
  }

  /**
   What an organisation is answered, and which rows it is left with, depend on its own rows only,
   exactly unless a row of another organisation has the id that the operation would otherwise have
   put into the table.
   */
  lemma OwnStep(sc: Schema, s: Scope, op: Op, rows: seq<Row>)
    requires s.Tenant? && Confined(sc, op)
    ensures var own := RowsFor(rows, s.id);
      var alike := AnswerOn(sc, s, op, rows) == AnswerOn(sc, s, op, own);
      && (alike <==> !(Collides(sc, s, op, rows) && Lands(AnswerOn(sc, s, op, own))))
      && (alike ==> RowsFor(RowsAfter(sc, s, op, rows), s.id) == RowsAfter(sc, s, op, own))
  {
    if Reads(op) {
      OwnRead(sc, s, op, rows);
      OwnRead(sc, s, op, RowsFor(rows, s.id));
    } else if op.Insert? {
      OwnInsert(sc, s, op, rows);
    } else if op.Delete? {
      OwnDelete(sc, s, op, rows);
    } else {
      OwnPatch(sc, s, op, rows);
    }
  }

  /** Whatever a scope of one organisation does, every other organisation's rows stay as they were. */
  lemma OthersRowsStay(sc: Schema, s: Scope, op: Op, rows: seq<Row>, b: string)
    requires s.Tenant? && s.id != b && Confined(sc, op)
    ensures RowsFor(RowsAfter(sc, s, op, rows), b) == RowsFor(rows, b)
  {
    if Reads(op) {
      OwnRead(sc, s, op, rows);
    } else if op.Insert? {
      var r := InsertRow(sc, s, op.table, op.data, op.now);
      InsertAnswer(sc, s, op, rows, r);
      PickedAppend(rows, r, OwnedBy(b));
      if InsertStops(sc, s, op.table, op.data).None? { InsertOwner(sc, s, op); }
    } else if op.Delete? {
      var where := Scoped(sc, s, op.table, map["id" := op.id]);
      DeleteAnswer(sc, s, op, rows, where);
      OthersAreNotDeleted(rows, s.id, b, where);
    } else {
      ConfinedPatch(sc, s, op);
      PatchAnswer(sc, s, op, rows, Target(sc, s, op), Patch(sc, op));
      OthersAreNotPatched(rows, s.id, b, Target(sc, s, op), Patch(sc, op));
    }
  }

  lemma PatchedHold(rows: seq<Row>, a: string, where: Row, patch: Row, b: string, id: Value)
    requires Names(where, a) && OWNER !in patch && OthersHold(Patched(rows, where, patch), b, id)
    ensures OthersHold(rows, b, id) || (a != b && IdOf(patch) == Some(id))
  {
    var r :| r in Patched(rows, where, patch) && Owner(r) != Str(b) && IdOf(r) == Some(id);
    var i :| 0 <= i < |rows| && Patched(rows, where, patch)[i] == r;
    assert Owner(rows[i]) == Owner(r);
    assert rows[i] in rows;
    if IdOf(rows[i]) != Some(id) { assert Equal(where, rows[i]) && "id" in patch; }
  }

  /** An id gets into the hands of others only by an operation of theirs that brings it. */
  lemma OthersHoldStays(sc: Schema, s: Scope, op: Op, rows: seq<Row>, b: string, id: Value)
    requires s.Tenant? && Confined(sc, op) && OthersHold(RowsAfter(sc, s, op, rows), b, id)
    ensures OthersHold(rows, b, id) || (s.id != b && Brought(sc, s, op) == Some(id))
  {
    if Reads(op) {
      OwnRead(sc, s, op, rows);
    } else if op.Insert? {
      InsertAnswer(sc, s, op, rows, InsertRow(sc, s, op.table, op.data, op.now));
      if InsertStops(sc, s, op.table, op.data).None? { InsertOwner(sc, s, op); }
    } else if op.Delete? {
      var where := Scoped(sc, s, op.table, map["id" := op.id]);
      DeleteAnswer(sc, s, op, rows, where);
      PickedOnes(rows, OtherThan(where));
    } else {
      ConfinedPatch(sc, s, op);
      PatchAnswer(sc, s, op, rows, Target(sc, s, op), Patch(sc, op));
      if RowsAfter(sc, s, op, rows) != rows { PatchedHold(rows, s.id, Target(sc, s, op), Patch(sc, op), b, id); }
    }
  }

  // ---- One step on the store ---------------------------------------------------------------

  /** Everything an organisation can see is the same in two stores. */
  ghost predicate SameView(b: string, t: Tables, u: Tables) {
    forall table :: RowsFor(RowsOf(t, table), b) == RowsFor(RowsOf(u, table), b)
  }

  lemma OthersUntouched(sc: Schema, s: Scope, op: Op, t: Tables, b: string)
    requires s.Tenant? && s.id != b && Confined(sc, op)
    ensures SameView(b, Step(sc, s, op, t).0, t)
  {
    StepIsLocal(sc, s, op, t);
    OthersRowsStay(sc, s, op, RowsOf(t, op.table), b);
    forall table: string ensures RowsFor(RowsOf(Step(sc, s, op, t).0, table), b) == RowsFor(RowsOf(t, table), b) {}
  }

  lemma ListedAreShown(sc: Schema, keys: seq<Key>, shown: seq<Row>, limit: nat)
    ensures forall r :: r in Take(Sorted(shown, By(sc, keys)), limit) ==> r in shown
  {
    KeysOrder(sc, keys);
    SortedIsOrdered(shown, By(sc, keys));
    var sorted := Sorted(shown, By(sc, keys));
    forall r | r in Take(sorted, limit) ensures r in shown {
      assert r in multiset(sorted);
    }
  }

  /** Every row a read returns is one its scope and filters show. */
  lemma AnswersAreShown(sc: Schema, s: Scope, op: Op, rows: seq<Row>)
    requires Reads(op) && ReadAnswer(sc, s, op, rows).Rows?
    ensures forall r :: r in ReadAnswer(sc, s, op, rows).rows ==> r in rows && Visible(sc, s, op.table, op.where, r)
  {
    var shown := Picked(rows, Shown(sc, s, op.table, op.where));
    PickedOnes(rows, Shown(sc, s, op.table, op.where));
    TakenAreThere(shown, 1);
    if op.All? { ListedAreShown(sc, OrderOf(sc, op.table, op.order), shown, op.limit); }
  }

  lemma StoredIsOwn(sc: Schema, s: Scope, op: Op, t: Tables)
    requires op.Insert? && s.Tenant? && op.table in sc.tenantTables
    ensures !Step(sc, s, op, t).1.Rows? && (Step(sc, s, op, t).1.Stored? ==> Owner(Step(sc, s, op, t).1.row) == Str(s.id))
  {
    InsertStep(sc, s, op, t);
    if InsertStops(sc, s, op.table, op.data).None? {
      InsertOwner(sc, s, op);
      InsertedOrNot(t, op.table, InsertRow(sc, s, op.table, op.data, op.now));
    }
  }

  lemma InsertedOrNot(t: Tables, table: string, r: Row)
    ensures DbInsert(t, table, r).1 == Stored(r) || DbInsert(t, table, r).1.Failed?
  {
  }

  predicate AnswerHas(owner: Value, a: Answer) {
    match a
    case Rows(rows) => forall r :: r in rows ==> Owner(r) == owner
    case Stored(row) => Owner(row) == owner
    case _ => true
  }

  lemma ReadsAreOwn(sc: Schema, s: Scope, op: Op, t: Tables)
    requires s.Tenant? && op.table in sc.tenantTables && Reads(op)
    ensures AnswerHas(Str(s.id), Step(sc, s, op, t).1)
  {
    var rows := RowsOf(t, op.table);
    ReadStep(sc, s, op, t);
    if ReadAnswer(sc, s, op, rows).Rows? { AnswersAreShown(sc, s, op, rows); }
  }

  lemma WritesListNothing(sc: Schema, s: Scope, op: Op, t: Tables)
    requires !Reads(op) && !op.Insert?
    ensures !Step(sc, s, op, t).1.Rows? && !Step(sc, s, op, t).1.Stored?
  {
    if Patches(op) { PatchStep(sc, s, op, t); }
  }

  /** Every row an operation returns, and every row it stores, belongs to the scope's organisation. */
  lemma AnswersAreOwn(sc: Schema, s: Scope, op: Op, t: Tables)
    requires s.Tenant? && op.table in sc.tenantTables
    ensures match Step(sc, s, op, t).1
      case Rows(rows) => forall r :: r in rows ==> Owner(r) == Str(s.id)
      case Stored(row) => Owner(row) == Str(s.id)
      case _ => true
  {
    if Reads(op) {
      ReadsAreOwn(sc, s, op, t);
    } else if op.Insert? {
      StoredIsOwn(sc, s, op, t);
    } else {
      WritesListNothing(sc, s, op, t);
    }
  }

  /** No row changes owner under a confined patch. */
  lemma OwnersStay(sc: Schema, s: Scope, op: Op, t: Tables)
    requires s.Tenant? && Confined(sc, op) && Patches(op)
    ensures var rows, rows' := RowsOf(t, op.table), RowsOf(Step(sc, s, op, t).0, op.table);
      |rows'| == |rows| && forall i :: 0 <= i < |rows| ==> Owner(rows'[i]) == Owner(rows[i])
  {
    StepIsLocal(sc, s, op, t);
    ConfinedPatch(sc, s, op);
    PatchAnswer(sc, s, op, RowsOf(t, op.table), Target(sc, s, op), Patch(sc, op));
  }

  lemma OwnStepHere(sc: Schema, s: Scope, op: Op, t: Tables, u: Tables)
    requires s.Tenant? && Confined(sc, op) && SameView(s.id, t, u)
    requires !Collides(sc, s, op, RowsOf(t, op.table)) && !Collides(sc, s, op, RowsOf(u, op.table))
    ensures Step(sc, s, op, t).1 == Step(sc, s, op, u).1
    ensures SameView(s.id, Step(sc, s, op, t).0, Step(sc, s, op, u).0)
  {
    var rt, ru := RowsOf(t, op.table), RowsOf(u, op.table);
    assert RowsFor(rt, s.id) == RowsFor(ru, s.id);
    StepIsLocal(sc, s, op, t);
    StepIsLocal(sc, s, op, u);
    OwnStep(sc, s, op, rt);
    OwnStep(sc, s, op, ru);
    StillTheSame(s.id, t, Step(sc, s, op, t).0, u, Step(sc, s, op, u).0, op.table);
  }

  lemma StillTheSame(b: string, t: Tables, t': Tables, u: Tables, u': Tables, table: string)
    requires SameView(b, t, u) && OthersStay(t, t', table) && OthersStay(u, u', table)
    requires RowsFor(RowsOf(t', table), b) == RowsFor(RowsOf(u', table), b)
    ensures SameView(b, t', u')
  {
    forall other: string ensures RowsFor(RowsOf(t', other), b) == RowsFor(RowsOf(u', other), b) {
      if other != table { assert RowsFor(RowsOf(t, other), b) == RowsFor(RowsOf(u, other), b); }
    }
  }

  // ---- Whole runs --------------------------------------------------------------------------

  datatype Event = Event(scope: Scope, op: Op)

  function After(sc: Schema, es: seq<Event>, t: Tables): Tables {
    if es == [] then t else After(sc, es[1..], Step(sc, es[0].scope, es[0].op, t).0)
  }

  predicate IsOf(e: Event, b: string) { e.scope.Tenant? && e.scope.id == b }

  /** The answers organisation b gets in a run. */
  function Seen(sc: Schema, es: seq<Event>, t: Tables, b: string): seq<Answer> {
    if es == [] then []
    else
      var (after, answer) := Step(sc, es[0].scope, es[0].op, t);
      if IsOf(es[0], b) then [answer] + Seen(sc, es[1..], after, b) else Seen(sc, es[1..], after, b)
  }

  /** The run with every other organisation's operations taken out. */
  function Purge(es: seq<Event>, b: string): seq<Event> {
    if es == [] then []
    else if IsOf(es[0], b) then [es[0]] + Purge(es[1..], b)
    else Purge(es[1..], b)
  }

  predicate Brings(sc: Schema, e: Event, table: string, id: Value) {
    e.op.table == table && Brought(sc, e.scope, e.op) == Some(id)
  }

  /** An event of b that puts an id into a table. */
  predicate Claims(sc: Schema, e: Event, b: string, table: string, id: Value) { IsOf(e, b) && Brings(sc, e, table, id) }

  /** No id that b would put into a table is held there by others ... */
  ghost predicate Unclaimed(sc: Schema, es: seq<Event>, t: Tables, b: string) {
    forall e, table, id :: e in es && Claims(sc, e, b, table, id) ==> !OthersHold(RowsOf(t, table), b, id)
  }

  /** ... nor brought there by others. */
  ghost predicate Apart(sc: Schema, es: seq<Event>, b: string) {
    forall e, other, table, id :: e in es && other in es && Claims(sc, e, b, table, id) && Brings(sc, other, table, id) ==>
      IsOf(other, b)
  }

  predicate AllConfined(sc: Schema, es: seq<Event>) {
    forall e :: e in es ==> e.scope.Tenant? && Confined(sc, e.op)
  }

  lemma ClaimsStay(sc: Schema, es: seq<Event>, t: Tables, b: string, e: Event)
    requires Unclaimed(sc, es, t, b) && e.scope.Tenant? && Confined(sc, e.op)
    requires forall f, table, id :: f in es && Claims(sc, f, b, table, id) && Brings(sc, e, table, id) ==> IsOf(e, b)
    ensures Unclaimed(sc, es, Step(sc, e.scope, e.op, t).0, b)
  {
    var t' := Step(sc, e.scope, e.op, t).0;
    StepIsLocal(sc, e.scope, e.op, t);
    forall f, table, id | f in es && Claims(sc, f, b, table, id) ensures !OthersHold(RowsOf(t', table), b, id) {
      assert !OthersHold(RowsOf(t, table), b, id);
      if table != e.op.table {
        assert RowsOf(t', table) == RowsOf(t, table);
      } else if OthersHold(RowsOf(t', table), b, id) {
        OthersHoldStays(sc, e.scope, e.op, RowsOf(t, table), b, id);
      }
    }
  }

  lemma RestOfRun(sc: Schema, es: seq<Event>, t: Tables, b: string)
    requires es != [] && AllConfined(sc, es) && Unclaimed(sc, es, t, b) && Apart(sc, es, b)
    ensures AllConfined(sc, es[1..]) && Apart(sc, es[1..], b) && Unclaimed(sc, es[1..], t, b)
    ensures Unclaimed(sc, es[1..], Step(sc, es[0].scope, es[0].op, t).0, b)
  {
    ClaimsStay(sc, es[1..], t, b, es[0]);
  }

  lemma NoCollision(sc: Schema, es: seq<Event>, t: Tables, b: string)
    requires es != [] && IsOf(es[0], b) && Unclaimed(sc, es, t, b)
    ensures !Collides(sc, es[0].scope, es[0].op, RowsOf(t, es[0].op.table))
  {
    var id := Brought(sc, es[0].scope, es[0].op);
    if id.Some? { assert Claims(sc, es[0], b, es[0].op.table, id.value); }
  }

  /**
   Non-interference. In any run of any organisations' scopes on tenant tables, whatever the others
   do, organisation b gets the answers it would get, and is left with the rows it would have, had
   none of the others done anything -- provided that no id b puts into a table is held by others at
   the start or brought there by them.
   */
  lemma {:induction false} OthersMightAsWellBeAbsent(sc: Schema, es: seq<Event>, t: Tables, u: Tables, b: string)
    requires AllConfined(sc, es) && SameView(b, t, u)
    requires Apart(sc, es, b) && Unclaimed(sc, es, t, b) && Unclaimed(sc, es, u, b)
    ensures Seen(sc, es, t, b) == Seen(sc, Purge(es, b), u, b)
    ensures SameView(b, After(sc, es, t), After(sc, Purge(es, b), u))
    decreases |es|
  {
    if es != [] {
      var e, rest := es[0], es[1..];
      var t' := Step(sc, e.scope, e.op, t).0;
      RestOfRun(sc, es, t, b);
      if IsOf(e, b) {
        var u' := Step(sc, e.scope, e.op, u).0;
        NoCollision(sc, es, t, b);
        NoCollision(sc, es, u, b);
        OwnStepHere(sc, e.scope, e.op, t, u);
        RestOfRun(sc, es, u, b);
        OthersMightAsWellBeAbsent(sc, rest, t', u', b);
        assert Purge(es, b)[0] == e && Purge(es, b)[1..] == Purge(rest, b);
      } else {
        OthersUntouched(sc, e.scope, e.op, t, b);
        SameViewCarries(b, t', t, u);
        RestOfRun(sc, es, u, b);
        OthersMightAsWellBeAbsent(sc, rest, t', u, b);
      }
    }
  }

  lemma SameViewCarries(b: string, t: Tables, u: Tables, v: Tables)
    requires SameView(b, t, u) && SameView(b, u, v)
    ensures SameView(b, t, v)
  {
    forall table: string ensures RowsFor(RowsOf(t, table), b) == RowsFor(RowsOf(v, table), b) {
      assert RowsFor(RowsOf(t, table), b) == RowsFor(RowsOf(u, table), b);
      assert RowsFor(RowsOf(u, table), b) == RowsFor(RowsOf(v, table), b);
    }
  }

  lemma KnownNames()
    ensures Conditions.Ident("id") && Conditions.Ident(OWNER)
  {
    Conditions.PartIsIdent("id");
    Conditions.PartIsIdent(OWNER);
  }

  lemma BareRow(sc: Schema, table: string, x: string, a: string, row: Row)
    requires table in sc.tenantTables && sc.columns == map[] && row == map["id" := Str(x)]
    ensures InsertRow(sc, Tenant(a, None), table, row, "") == row[OWNER := Str(a)]
    ensures InsertStops(sc, Tenant(a, None), table, row).None?
  {
    assert Owned(sc, Tenant(a, None), table, row) == row[OWNER := Str(a)];
  }

  lemma BareRowIsSafe(x: string, a: string, r: Row)
    requires r == map["id" := Str(x), OWNER := Str(a)]
    ensures SafeKeys(r) && IdOf(r) == Some(Str(x))
  {
    KnownNames();
  }

  lemma BareInsert(sc: Schema, table: string, x: string, a: string, rows: seq<Row>)
    requires table in sc.tenantTables && sc.columns == map[]
    ensures var r: Row := map["id" := Str(x)]; var op := Op.Insert(table, r, "");
      && AnswerOn(sc, Tenant(a, None), op, rows) == (if Held(rows, Str(x)) then Failed(Conflict) else Stored(r[OWNER := Str(a)]))
      && RowsAfter(sc, Tenant(a, None), op, rows) == (if Held(rows, Str(x)) then rows else rows + [r[OWNER := Str(a)]])
  {
    var r: Row := map["id" := Str(x)];
    BareRow(sc, table, x, a, r);
    BareRowIsSafe(x, a, r[OWNER := Str(a)]);
    InsertAnswer(sc, Tenant(a, None), Op.Insert(table, r, ""), rows, r[OWNER := Str(a)]);
  }

  /** A taken id is the one thing of another organisation that can be noticed: a inserts it, b is refused it. */
  lemma ATakenIdIsNoticed(sc: Schema, table: string, x: string, a: string, b: string)
    requires a != b && table in sc.tenantTables && sc.columns == map[]
    ensures var row: Row := map["id" := Str(x)];
      var es := [Event(Tenant(a, None), Op.Insert(table, row, "")), Event(Tenant(b, None), Op.Insert(table, row, ""))];
      && Seen(sc, es, map[], b) == [Failed(Conflict)]
      && Seen(sc, Purge(es, b), map[], b) == [Stored(row[OWNER := Str(b)])]
  {
    var row: Row := map["id" := Str(x)];
    var op := Op.Insert(table, row, "");
    var ea, eb, none := Event(Tenant(a, None), op), Event(Tenant(b, None), op), map[];
    var t := Step(sc, ea.scope, op, none).0;
    StepIsLocal(sc, ea.scope, op, none);
    StepIsLocal(sc, eb.scope, op, none);
    StepIsLocal(sc, eb.scope, op, t);
    BareInsert(sc, table, x, a, []);
    BareInsert(sc, table, x, b, []);
    BareInsert(sc, table, x, b, RowsOf(t, table));
    assert row[OWNER := Str(a)] in RowsOf(t, table);
    TwoEvents(sc, ea, eb, none, b);
  }

  lemma TwoEvents(sc: Schema, ea: Event, eb: Event, t: Tables, b: string)
    requires !IsOf(ea, b) && IsOf(eb, b)
    ensures Seen(sc, [ea, eb], t, b) == [Step(sc, eb.scope, eb.op, Step(sc, ea.scope, ea.op, t).0).1]
    ensures Seen(sc, Purge([ea, eb], b), t, b) == [Step(sc, eb.scope, eb.op, t).1]
  {
    assert [ea, eb][1..] == [eb] && [eb][1..] == [];
    assert Purge([], b) == [] && Purge([eb], b) == [eb] && Purge([ea, eb], b) == [eb];
    OneEvent(sc, eb, t, b);
    OneEvent(sc, eb, Step(sc, ea.scope, ea.op, t).0, b);
  }

  lemma OneEvent(sc: Schema, e: Event, t: Tables, b: string)
    requires IsOf(e, b)
    ensures Seen(sc, [e], t, b) == [Step(sc, e.scope, e.op, t).1]
  {
    assert [e][1..] == [];
    assert Seen(sc, [], Step(sc, e.scope, e.op, t).0, b) == [];
  }

  /**
   updateWhere, unlike update, keeps an owner named in the patch. It keeps every row with its owner,
   whatever the rows and whatever the condition, exactly when the patch names no owner or the
   scope's own.
   */
  lemma PatchByConditionKeepsOwners(a: string, patch: Row)
    ensures (forall rows: seq<Row>, where: Row, i: nat :: Names(where, a) && i < |rows| ==>
               Owner(Patched(rows, where, patch)[i]) == Owner(rows[i]))
            <==> (OWNER !in patch || patch[OWNER] == Str(a))
  {
    if OWNER in patch && patch[OWNER] != Str(a) {
      var r: Row := map[OWNER := Str(a)];
      assert Names(r, a) && Equal(r, r);
      assert Owner(Patched([r], r, patch)[0]) != Owner([r][0]);
    } else {
      forall rows: seq<Row>, where: Row, i: nat | Names(where, a) && i < |rows|
        ensures Owner(Patched(rows, where, patch)[i]) == Owner(rows[i])
      {
        assert Equal(where, rows[i]) ==> Owner(rows[i]) == Str(a);
      }
    }
  }

  // ---- What the reads let through, and what the writes write --------------------------------

  /** The column that says which company a row belongs to. */
  function CompanyColumn(table: string): string { if table == "companies" then "id" else "company_id" }

  /**
   A scope narrowed to some companies reads no row of another company, nor one of none; narrowed to
   an empty list it reads nothing.
   */
  lemma NarrowedReads(sc: Schema, s: Scope, op: Op, t: Tables)
    requires Reads(op) && s.Tenant? && s.companies.Some? && op.table in sc.companyTables
    ensures match Step(sc, s, op, t).1
      case Rows(rows) => forall r :: r in rows ==>
        Cell(r, CompanyColumn(op.table)) != Null && Cell(r, CompanyColumn(op.table)) in s.companies.value
      case Number(n) => s.companies.value == [] ==> n == 0
      case _ => true
    ensures s.companies.value == [] && Step(sc, s, op, t).1.Rows? ==> Step(sc, s, op, t).1.rows == []
  {
    var rows := RowsOf(t, op.table);
    var answer := ReadAnswer(sc, s, op, rows);
    ReadStep(sc, s, op, t);
    if answer.Rows? {
      AnswersAreShown(sc, s, op, rows);
      if answer.rows != [] { assert answer.rows[0] in answer.rows; }
    } else if answer.Number? {
      var shown := Picked(rows, Shown(sc, s, op.table, op.where));
      PickedOnes(rows, Shown(sc, s, op.table, op.where));
      if shown != [] { assert shown[0] in shown; }
    }
  }

  /** Every row a read answers with is the organisation's and equal on each filter that is not empty. */
  lemma FilteredReads(sc: Schema, s: Scope, op: Op, t: Tables)
    requires Reads(op) && s.Tenant? && Step(sc, s, op, t).1.Rows?
    ensures forall r :: r in Step(sc, s, op, t).1.rows ==>
      && r in RowsOf(t, op.table) && Cell(r, "tenant_id") == Str(s.id)
      && forall c :: c in op.where && op.where[c] != Null && op.where[c] != Str("") ==> Cell(r, c) == op.where[c]
  {
    ReadStep(sc, s, op, t);
    AnswersAreShown(sc, s, op, RowsOf(t, op.table));
  }

  /** What a scope counts: its own rows, in its companies, equal on each filter that is not empty. */
  lemma CountedExactly(sc: Schema, s: Scope, table: string, where: Row, t: Tables)
    requires s.Tenant? && table in sc.tenantTables && forall c :: c in where ==> Conditions.Ident(c)
    ensures var rows := RowsOf(t, table);
      Step(sc, s, Count(table, where), t).1 == Number(|set i: nat | i < |rows|
        && Cell(rows[i], "tenant_id") == Str(s.id)
        && (s.companies.Some? && table in sc.companyTables ==>
              Cell(rows[i], CompanyColumn(table)) != Null && Cell(rows[i], CompanyColumn(table)) in s.companies.value)
        && (forall c :: c in where && where[c] != Null && where[c] != Str("") ==> Cell(rows[i], c) == where[c])|)
  {
    var rows := RowsOf(t, table);
    var op := Count(table, where);
    ReadStep(sc, s, op, t);
    PickedHowMany(rows, Shown(sc, s, table, where));
    assert PlaceSet(rows, Shown(sc, s, table, where)) == set i: nat | i < |rows|
        && Cell(rows[i], "tenant_id") == Str(s.id)
        && (s.companies.Some? && table in sc.companyTables ==>
              Cell(rows[i], CompanyColumn(table)) != Null && Cell(rows[i], CompanyColumn(table)) in s.companies.value)
        && (forall c :: c in where && where[c] != Null && where[c] != Str("") ==> Cell(rows[i], c) == where[c]);
  }

  /** Such a row is shown: among all of them, and by the first read in its place or one like it. */
  lemma OwnRowIsShown(sc: Schema, s: Scope, table: string, where: Row, order: Option<seq<Key>>, limit: nat, t: Tables, r: Row)
    requires s.Tenant? && table in sc.tenantTables && forall c :: c in where ==> Conditions.Ident(c)
    requires r in RowsOf(t, table) && Cell(r, "tenant_id") == Str(s.id)
    requires s.companies.Some? && table in sc.companyTables ==>
      Cell(r, CompanyColumn(table)) != Null && Cell(r, CompanyColumn(table)) in s.companies.value
    requires forall c :: c in where && where[c] != Null && where[c] != Str("") ==> Cell(r, c) == where[c]
    ensures var a := Step(sc, s, First(table, where), t).1; a.Rows? && |a.rows| == 1
    ensures var a := Step(sc, s, All(table, where, order, limit), t).1;
      a.Rows? && (limit >= |RowsOf(t, table)| ==> r in a.rows)
    ensures var a := Step(sc, s, Count(table, where), t).1; a.Number? && a.n > 0
  {
    var rows := RowsOf(t, table);
    var shown := Picked(rows, Shown(sc, s, table, where));
    PickedOnes(rows, Shown(sc, s, table, where));
    assert r in shown;
    PickedIsNoLonger(rows, Shown(sc, s, table, where));
    KeysOrder(sc, OrderOf(sc, table, order));
    SortedIsOrdered(shown, By(sc, OrderOf(sc, table, order)));
    SameElements(shown, Sorted(shown, By(sc, OrderOf(sc, table, order))), r);
  }

  lemma SameElements(xs: seq<Row>, ys: seq<Row>, r: Row)
    requires multiset(xs) == multiset(ys) && r in xs
    ensures r in ys && |xs| == |ys|
  {
    assert r in multiset(ys);
    assert |multiset(xs)| == |xs| && |multiset(ys)| == |ys|;
  }

  lemma {:induction false} PickedIsNoLonger(rows: seq<Row>, p: Row -> bool)
    ensures |Picked(rows, p)| <= |rows|
  {
    if rows != [] { PickedIsNoLonger(rows[..|rows| - 1], p); }
  }

  /** Whether a row is the scope's to write: its organisation's, where the table has an owner. */
  predicate Writable(sc: Schema, s: Scope, table: string, r: Row) {
    s.Tenant? && table in sc.tenantTables ==> Cell(r, "tenant_id") == Str(s.id)
  }

  /** A patch written to the rows a condition picks, cell by cell. */
  lemma PatchedCells(t: Tables, table: string, where: Row, patch: Row, i: nat, c: string)
    requires i < |RowsOf(t, table)| && !DbUpdate(t, table, where, patch).1.Failed?
    ensures var rows, rows' := RowsOf(t, table), RowsOf(DbUpdate(t, table, where, patch).0, table);
      |rows'| == |rows| && Cell(rows'[i], c) == if Equal(where, rows[i]) && c in patch then patch[c] else Cell(rows[i], c)
  {
  }

  lemma ByIdAndOwner(sc: Schema, s: Scope, table: string, id: Value, r: Row)
    ensures Equal(Scoped(sc, s, table, map["id" := id]), r) <==> id != Null && Cell(r, "id") == id && Writable(sc, s, table, r)
  {
    var where := Scoped(sc, s, table, map["id" := id]);
    assert "id" in where && where["id"] == id;
  }

  /**
   An update by id writes exactly what it was given, owner and id apart, and the time of the update
   where the table has a column for it, to the scope's row with that id and to no other.
   */
  lemma UpdateWrites(sc: Schema, s: Scope, table: string, id: Value, data: Row, now: string, t: Tables, i: nat, c: string)
    requires i < |RowsOf(t, table)| && !Step(sc, s, Op.Update(table, id, data, now), t).1.Failed?
    ensures var rows, rows' := RowsOf(t, table), RowsOf(Step(sc, s, Op.Update(table, id, data, now), t).0, table);
      |rows'| == |rows| && Cell(rows'[i], c)
      == if !(id != Null && Cell(rows[i], "id") == id && Writable(sc, s, table, rows[i])) then Cell(rows[i], c)
         else if c == "tenant_id" || c == "id" then Cell(rows[i], c)
         else if c in data then data[c]
         else if c == "updated_at" && table in sc.columns && c in sc.columns[table] then Str(now)
         else Cell(rows[i], c)
  {
    var op := Op.Update(table, id, data, now);
    PatchStep(sc, s, op, t);
    PatchedCells(t, table, Target(sc, s, op), Patch(sc, op), i, c);
    ByIdAndOwner(sc, s, table, id, RowsOf(t, table)[i]);
  }

  /** A soft deletion writes the time to the scope's row with that id, and to no other. */
  lemma SoftDeleteWrites(sc: Schema, s: Scope, table: string, id: Value, now: string, t: Tables, i: nat, c: string)
    requires i < |RowsOf(t, table)| && !Step(sc, s, Op.SoftDelete(table, id, now), t).1.Failed?
    ensures var rows, rows' := RowsOf(t, table), RowsOf(Step(sc, s, Op.SoftDelete(table, id, now), t).0, table);
      |rows'| == |rows| && Cell(rows'[i], c)
      == if !(id != Null && Cell(rows[i], "id") == id && Writable(sc, s, table, rows[i])) then Cell(rows[i], c)
         else if c == "deleted_at" || (c == "updated_at" && table in sc.columns && c in sc.columns[table]) then Str(now)
         else Cell(rows[i], c)
  {
    var op := Op.SoftDelete(table, id, now);
    PatchStep(sc, s, op, t);
    PatchedCells(t, table, Target(sc, s, op), Patch(sc, op), i, c);
    ByIdAndOwner(sc, s, table, id, RowsOf(t, table)[i]);
  }

  lemma ByCondition(sc: Schema, s: Scope, table: string, where: Row, r: Row)
    ensures var scoped := s.Tenant? && table in sc.tenantTables;
      Equal(Scoped(sc, s, table, where), r)
      <==> Writable(sc, s, table, r)
           && forall k :: k in where && !(scoped && k == "tenant_id") ==> where[k] != Null && Cell(r, k) == where[k]
  {
    var scoped := Scoped(sc, s, table, where);
    forall k | k in where ensures k in scoped {}
  }

  /** A patch by condition writes all it was given to the scope's rows equal on every column named. */
  lemma UpdateWhereWrites(sc: Schema, s: Scope, table: string, where: Row, data: Row, now: string, t: Tables, i: nat, c: string)
    requires i < |RowsOf(t, table)| && !Step(sc, s, Op.UpdateWhere(table, where, data, now), t).1.Failed?
    ensures var rows, rows' := RowsOf(t, table), RowsOf(Step(sc, s, Op.UpdateWhere(table, where, data, now), t).0, table);
      |rows'| == |rows| && Cell(rows'[i], c)
      == if !(Writable(sc, s, table, rows[i])
              && forall k :: k in where && !(s.Tenant? && table in sc.tenantTables && k == "tenant_id") ==>
                   where[k] != Null && Cell(rows[i], k) == where[k]) then Cell(rows[i], c)
         else if c in data then data[c]
         else if c == "updated_at" && table in sc.columns && c in sc.columns[table] then Str(now)
         else Cell(rows[i], c)
  {
    var op := Op.UpdateWhere(table, where, data, now);
    PatchStep(sc, s, op, t);
    PatchedCells(t, table, Target(sc, s, op), Patch(sc, op), i, c);
    ByCondition(sc, s, table, where, RowsOf(t, table)[i]);
  }

  /** A deletion by id leaves every row but the scope's with that id, and counts those. */
  lemma DeleteRemoves(sc: Schema, s: Scope, table: string, id: Value, t: Tables)
    requires !Step(sc, s, Op.Delete(table, id), t).1.Failed?
    ensures var rows, after := RowsOf(t, table), Step(sc, s, Op.Delete(table, id), t);
      && (forall r :: r in RowsOf(after.0, table)
                      <==> r in rows && !(id != Null && Cell(r, "id") == id && Writable(sc, s, table, r)))
      && after.1 == Number(|set i: nat | i < |rows| && id != Null && Cell(rows[i], "id") == id && Writable(sc, s, table, rows[i])|)
  {
    var rows, where := RowsOf(t, table), Scoped(sc, s, table, map["id" := id]);
    DeleteStep(sc, s, table, id, t);
    PickedOnes(rows, OtherThan(where));
    PickedHowMany(rows, EqualTo(where));
    forall r ensures Equal(where, r) <==> id != Null && Cell(r, "id") == id && Writable(sc, s, table, r) {
      ByIdAndOwner(sc, s, table, id, r);
    }
    assert PlaceSet(rows, EqualTo(where))
           == set i: nat | i < |rows| && id != Null && Cell(rows[i], "id") == id && Writable(sc, s, table, rows[i]);
  }

  lemma StoredRow(sc: Schema, s: Scope, table: string, data: Row, now: string, t: Tables)
    requires Step(sc, s, Op.Insert(table, data, now), t).1.Stored?
    ensures var after := Step(sc, s, Op.Insert(table, data, now), t);
      after.1.row == InsertRow(sc, s, table, data, now) && RowsOf(after.0, table) == RowsOf(t, table) + [after.1.row]
  {
    InsertStep(sc, s, Op.Insert(table, data, now), t);
  }

  lemma StampedCells(sc: Schema, table: string, column: string, now: string, r: Row, c: string)
    ensures var r' := Stamped(sc, table, column, now, r);
      (c in r' <==> c in r || (c == column && HasColumn(sc, table, c)))
      && Cell(r', c) == if c !in r && c == column && HasColumn(sc, table, c) then Str(now) else Cell(r, c)
  {
  }

  lemma OwnedCells(sc: Schema, s: Scope, table: string, data: Row, c: string)
    ensures var r, stamped := Owned(sc, s, table, data), c == OWNER && s.Tenant? && table in sc.tenantTables;
      (c in r <==> c in data || stamped) && Cell(r, c) == if c !in data && stamped then Str(s.id) else Cell(data, c)
  {
  }

  lemma InsertedCells(sc: Schema, s: Scope, table: string, data: Row, now: string, c: string)
    ensures Cell(InsertRow(sc, s, table, data, now), c)
            == if c in data then data[c]
               else if c == "tenant_id" && s.Tenant? && table in sc.tenantTables then Str(s.id)
               else if (c == "created_at" || c == "updated_at") && table in sc.columns && c in sc.columns[table] then Str(now)
               else Null
  {
    var r := Owned(sc, s, table, data);
    OwnedCells(sc, s, table, data, c);
    StampedCells(sc, table, "created_at", now, r, c);
    StampedCells(sc, table, "updated_at", now, Stamped(sc, table, "created_at", now, r), c);
  }

  /** What an insert stores: all it was given, the owner, and the times where the table has columns for them. */
  lemma InsertWrites(sc: Schema, s: Scope, table: string, data: Row, now: string, t: Tables, c: string)
    requires Step(sc, s, Op.Insert(table, data, now), t).1.Stored?
    ensures var row := Step(sc, s, Op.Insert(table, data, now), t).1.row;
      && RowsOf(Step(sc, s, Op.Insert(table, data, now), t).0, table) == RowsOf(t, table) + [row]
      && Cell(row, c)
         == if c in data then data[c]
            else if c == "tenant_id" && s.Tenant? && table in sc.tenantTables then Str(s.id)
            else if (c == "created_at" || c == "updated_at") && table in sc.columns && c in sc.columns[table] then Str(now)
            else Null
  {
    StoredRow(sc, s, table, data, now, t);
    InsertedCells(sc, s, table, data, now, c);
  }

  lemma ByNewest(sc: Schema, column: string, a: Row, b: Row)
    requires NotAfter(sc, [Key(column, true)], a, b)
    ensures sc.rank(Cell(a, column)) >= sc.rank(Cell(b, column))
  {
    assert [Key(column, true)][1..] == [];
  }

  /**
   Without an order asked for, the newest row comes first: by the time it was made, else the time it was
   updated, else its id, whichever the table has a column for.
   */
  lemma NewestFirst(sc: Schema, s: Scope, table: string, where: Row, limit: nat, t: Tables, i: nat, j: nat, column: string)
    requires table in sc.columns && column in sc.columns[table]
    requires column == if "created_at" in sc.columns[table] then "created_at"
                       else if "updated_at" in sc.columns[table] then "updated_at" else "id"
    requires var a := Step(sc, s, All(table, where, None, limit), t).1; a.Rows? && i < j < |a.rows|
    ensures var rows := Step(sc, s, All(table, where, None, limit), t).1.rows;
      sc.rank(Cell(rows[i], column)) >= sc.rank(Cell(rows[j], column))
  {
    var keys := DefaultOrder(sc, table);
    var shown := Picked(RowsOf(t, table), Shown(sc, s, table, where));
    KeysOrder(sc, keys);
    SortedIsOrdered(shown, By(sc, keys));
    var rows := Step(sc, s, All(table, where, None, limit), t).1.rows;
    assert By(sc, keys)(rows[i], rows[j]);
    ByNewest(sc, column, rows[i], rows[j]);
  }

  /** A name that is not plain is refused, whether it is written, asked for or filtered by, and nothing changes. */
  lemma UnsafeNamesAreRefused(sc: Schema, s: Scope, table: string, where: Row, data: Row, now: string, t: Tables, c: string)
    requires !Conditions.Ident(c) && table in sc.tenantTables && s.Tenant?
    ensures c in data ==> Step(sc, s, Op.UpdateWhere(table, where, data, now), t) == (t, Failed(UnsafeIdentifier))
    ensures c in where ==> Step(sc, s, Op.UpdateWhere(table, where, data, now), t) == (t, Failed(UnsafeIdentifier))
    ensures c in data ==> Step(sc, s, Op.Insert(table, data, now), t).0 == t && Step(sc, s, Op.Insert(table, data, now), t).1.Failed?
    ensures c in where && where[c] != Null && where[c] != Str("") ==> Step(sc, s, First(table, where), t) == (t, Failed(UnsafeIdentifier))
  {
    var op := Op.UpdateWhere(table, where, data, now);
    PatchStep(sc, s, op, t);
    if c in where { UnsafeTarget(sc, s, op, c); }
    InsertStep(sc, s, Op.Insert(table, data, now), t);
    if c in data { assert c in InsertRow(sc, s, table, data, now); }
    ReadStep(sc, s, First(table, where), t);
  }

  lemma UnsafeTarget(sc: Schema, s: Scope, op: Op, c: string)
    requires op.UpdateWhere? && c in op.where && !Conditions.Ident(c)
    ensures !SafeKeys(Target(sc, s, op))
  {
    assert c in Target(sc, s, op);
  }

  /** A read is refused exactly over a table that is no organisation's, or over a filter that is not a plain name. */
  lemma ReadRefusedExactly(sc: Schema, s: Scope, op: Op, t: Tables)
    requires Reads(op)
    ensures var (after, a) := Step(sc, s, op, t);
      && after == t
      && (a == Failed(ScopeMisuse) <==> s.Tenant? && op.table !in sc.tenantTables)
      && (a.Failed? <==> (s.Tenant? && op.table !in sc.tenantTables)
                         || exists c :: c in op.where && op.where[c] != Null && op.where[c] != Str("") && !Conditions.Ident(c))
  {
    ReadStep(sc, s, op, t);
  }

  /**
   An insert into an organisation's table is refused without an organisation, or for another one than the
   scope's, whatever else it holds; otherwise only over a name, over nothing to insert, or over a taken id.
   */
  lemma InsertRefusedExactly(sc: Schema, s: Scope, table: string, data: Row, now: string, t: Tables)
    requires table in sc.tenantTables
    ensures var (after, a) := Step(sc, s, Op.Insert(table, data, now), t);
      && (a == Failed(OrganisationRequired) <==> s.Platform? && "tenant_id" !in data)
      && (a == Failed(OutsideOrganisation) <==> s.Tenant? && "tenant_id" in data && data["tenant_id"] != Str(s.id))
      && (a == Failed(Conflict) ==> "id" in data && exists r :: r in RowsOf(t, table) && Cell(r, "id") == data["id"] != Null)
      && (a.Failed? ==> after == t)
  {
    InsertStep(sc, s, Op.Insert(table, data, now), t);
    OwnedCells(sc, s, table, data, "tenant_id");
    TakenId(sc, s, table, data, now, t);
  }

  lemma TakenId(sc: Schema, s: Scope, table: string, data: Row, now: string, t: Tables)
    ensures Taken(RowsOf(t, table), InsertRow(sc, s, table, data, now)) ==>
              "id" in data && exists r :: r in RowsOf(t, table) && Cell(r, "id") == data["id"] != Null
  {
    var rows, row := RowsOf(t, table), InsertRow(sc, s, table, data, now);
    InsertedCells(sc, s, table, data, now, "id");
    if Taken(rows, row) {
      var r :| r in rows && IdOf(r) == IdOf(row);
      assert Cell(r, "id") == Cell(row, "id");
    }
  }

  /** A write without a condition is refused. */
  lemma EmptyConditionIsRefused(t: Tables, table: string, patch: Row)
    requires SafeKeys(patch) && patch != map[]
    ensures DbUpdate(t, table, map[], patch) == (t, Failed(UnsafeUpdate)) && DbDelete(t, table, map[]) == (t, Failed(UnsafeDelete))
  {
  }
}
