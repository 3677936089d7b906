/** Migration plans and the runs they lead to. */
module MigrationPlan {
  import opened Wrappers
  import opened SchemaVerify

  // ---- The plan ----------------------------------------------------------------------------

  datatype Action = Refuse | ResumeBaseline | Adopt | UpToDate | Apply

  datatype Reason =
    | WithoutARoute
    | Unverified
    | DoesNotMatch
    | ImportIncomplete
    | ExistingMatches
    | NothingPending
    | IncrementalOnly
    | BaselineAndIncrementals

  datatype Plan = Plan(
    action: Action,
    reason: Reason,
    applyBaseline: bool,
    record: seq<string>,
    pending: seq<string>,
    safe: bool)

  function Take(s: string, n: nat): string { if |s| <= n then s else s[..n] }

  /** Neither folded into the baseline nor present as an incremental file with the same number. */
  predicate IsUnhandled(m: string, covered: seq<string>, incrementals: seq<string>) {
    m !in covered && !exists f :: f in incrementals && Take(f, 4) == Take(m, 4)
  }

  function Unhandled(sources: seq<string>, covered: seq<string>, incrementals: seq<string>): seq<string> {
    if sources == [] then []
    else if IsUnhandled(sources[0], covered, incrementals) then
      [sources[0]] + Unhandled(sources[1..], covered, incrementals)
    else Unhandled(sources[1..], covered, incrementals)
  }

  function NotIn(names: seq<string>, applied: set<string>): (r: seq<string>)
    ensures forall f :: f in r <==> f in names && f !in applied
  {
    if names == [] then []
    else if names[0] in applied then NotIn(names[1..], applied)
    else [names[0]] + NotIn(names[1..], applied)
  }

  function Refusal(reason: Reason): Plan { Plan(Refuse, reason, false, [], [], false) }

  function PlanMigration(applied: set<string>, tableCount: nat, covered: seq<string>, sources: seq<string>,
                         incrementals: seq<string>, baselineName: string, verification: Option<Verification>): Plan {
    var hasBaseline := baselineName in applied;
    if hasBaseline && Unhandled(sources, covered, incrementals) != [] then Refusal(WithoutARoute)
    else if !hasBaseline && tableCount > 0 then
      if verification == None then Refusal(Unverified)
      else
        var v := verification.value;
        if !v.matches then
          var subsetOfBaseline := |v.missingTables| > 0 && |v.missingColumns| == 0 && |v.extraTables| == 0;
          if subsetOfBaseline then
            Plan(ResumeBaseline, ImportIncomplete, true, [baselineName] + covered, NotIn(incrementals, applied), true)
          else Refusal(DoesNotMatch)
        else Plan(Adopt, ExistingMatches, false, [baselineName] + covered, NotIn(incrementals, applied), true)
    else
      var pending := NotIn(incrementals, applied);
      if hasBaseline && pending == [] then Plan(UpToDate, NothingPending, false, [], [], true)
      else
        Plan(Apply, if hasBaseline then IncrementalOnly else BaselineAndIncrementals, !hasBaseline,
             if hasBaseline then [] else [baselineName] + covered, pending, true)
  }

  // ---- Statements --------------------------------------------------------------------------

  datatype Stmt =
    | CreateTable(table: string, columns: set<string>)
    | CreateIndex(table: string, name: string)
    | AddColumn(table: string, name: string)
    | RenameColumn(table: string, from: string, to: string)
    | DropColumn(table: string, name: string)
    | DropIndex(table: string, name: string)
    | Other

  /** One statement as the runner runs it: one that says it already ran is skipped. `None`: it failed. */
  function Exec(s: Schema, stmt: Stmt): Option<Schema> {
    match stmt
    case CreateTable(t, columns) => Some(if t in s then s else s[t := Table(columns, {})])
    case CreateIndex(t, i) =>
      if t !in s then None else Some(s[t := s[t].(indexes := s[t].indexes + {i})])
    case AddColumn(t, c) =>
      if t !in s then None else Some(s[t := s[t].(columns := s[t].columns + {c})])
    case RenameColumn(t, from, to) =>
      if t !in s || (from in s[t].columns <==> to in s[t].columns) then None
      else Some(s[t := s[t].(columns := s[t].columns - {from} + {to})])
    case DropColumn(t, c) =>
      if t !in s then None else Some(s[t := s[t].(columns := s[t].columns - {c})])
    case DropIndex(t, i) =>
      if t !in s then None else Some(s[t := s[t].(indexes := s[t].indexes - {i})])
    case Other => Some(s)
  }

  /** The statements of the baseline file: every table first, then every index. */
  datatype Baseline = Baseline(creates: seq<Stmt>, indexes: seq<Stmt>) {
    predicate WellFormed() {
      && (forall k :: 0 <= k < |creates| ==> creates[k].CreateTable?)
      && (forall i, j :: 0 <= i < j < |creates| ==> creates[i].table != creates[j].table)
      && (forall k :: 0 <= k < |indexes| ==> indexes[k].CreateIndex? && Creates(indexes[k].table))
    }

    predicate Creates(t: string) {
      exists k :: 0 <= k < |creates| && creates[k].CreateTable? && creates[k].table == t
    }

    function Stmts(): seq<Stmt> { creates + indexes }
  }

  datatype File = File(name: string, stmts: seq<Stmt>)

  datatype Files = Files(
    baselineName: string,
    baseline: Baseline,
    covered: seq<string>,
    sources: seq<string>,
    incrementals: seq<File>)

  function Names(files: seq<File>): (r: seq<string>)
    ensures |r| == |files| && forall k :: 0 <= k < |files| ==> r[k] == files[k].name
  {
    if files == [] then [] else [files[0].name] + Names(files[1..])
  }

  /** What the incremental files are going to add: the difference they account for. */
  function PendingChanges(files: seq<File>): Promised {
    Promised(
      (set k, j | 0 <= k < |files| && 0 <= j < |files[k].stmts| && files[k].stmts[j].AddColumn?
         :: Ref(files[k].stmts[j].table, files[k].stmts[j].name))
      + (set k, j | 0 <= k < |files| && 0 <= j < |files[k].stmts| && files[k].stmts[j].RenameColumn?
           :: Ref(files[k].stmts[j].table, files[k].stmts[j].to)),
      (set k, j | 0 <= k < |files| && 0 <= j < |files[k].stmts| && files[k].stmts[j].CreateIndex?
         :: Ref(files[k].stmts[j].table, files[k].stmts[j].name)))
  }

  // ---- What the baseline asks for ----------------------------------------------------------

  function TablesOf(creates: seq<Stmt>): Schema {
    if creates == [] then map[]
    else
      var n := |creates| - 1;
      if creates[n].CreateTable? then TablesOf(creates[..n])[creates[n].table := Table(creates[n].columns, {})]
      else TablesOf(creates[..n])
  }

  function WithIndexes(tables: Schema, indexes: seq<Stmt>): Schema {
    if indexes == [] then tables
    else
      var n := |indexes| - 1;
      var s := WithIndexes(tables, indexes[..n]);
      var i := indexes[n];
      if i.CreateIndex? && i.table in s then s[i.table := s[i.table].(indexes := s[i.table].indexes + {i.name})] else s
  }

  function Parse(b: Baseline): Schema { WithIndexes(TablesOf(b.creates), b.indexes) }

  // ---- A run -------------------------------------------------------------------------------

  datatype Db = Db(schema: Schema, records: set<string>)

  /** A statement, an `INSERT IGNORE` of a record, or a plain `INSERT` of one. */
  datatype Event = Do(stmt: Stmt) | Note(name: string) | Log(name: string)

  function Occur(db: Db, e: Event): Option<Db> {
    match e
    case Do(stmt) =>
      var s := Exec(db.schema, stmt);
      if s == None then None else Some(db.(schema := s.value))
    case Note(name) => Some(db.(records := db.records + {name}))
    case Log(name) => if name in db.records then None else Some(db.(records := db.records + {name}))
  }

  datatype Ran = Ran(db: Db, ok: bool)

  /** Events one after the other, up to the first that fails. */
  function Play(db: Db, es: seq<Event>): Ran
    decreases |es|
  {
    if es == [] then Ran(db, true)
    else if Occur(db, es[0]) == None then Ran(db, false)
    else Play(Occur(db, es[0]).value, es[1..])
  }

  function Dos(stmts: seq<Stmt>): (r: seq<Event>)
    ensures |r| == |stmts| && forall k :: 0 <= k < |stmts| ==> r[k] == Do(stmts[k])
  {
    seq(|stmts|, k requires 0 <= k < |stmts| => Do(stmts[k]))
  }

  function Notes(names: seq<string>): (r: seq<Event>)
    ensures |r| == |names| && forall k :: 0 <= k < |names| ==> r[k] == Note(names[k])
  {
    seq(|names|, k requires 0 <= k < |names| => Note(names[k]))
  }

  /** Each pending file in turn, then its record. */
  function Pending(files: seq<File>, pending: seq<string>): seq<Event> {
    if files == [] then []
    else if files[0].name in pending then Dos(files[0].stmts) + [Log(files[0].name)] + Pending(files[1..], pending)
    else Pending(files[1..], pending)
  }

  function Decide(db: Db, fs: Files): Plan {
    var verification :=
      if fs.baselineName !in db.records && |db.schema| > 0 then
        Some(Compare(Parse(fs.baseline), db.schema, {"schema_migrations"}, PendingChanges(fs.incrementals)))
      else None;
    PlanMigration(db.records, |db.schema|, fs.covered, fs.sources, Names(fs.incrementals), fs.baselineName, verification)
  }

  function BaselineWork(plan: Plan, fs: Files): seq<Event> {
    (if plan.applyBaseline then Dos(fs.baseline.Stmts()) else []) + Notes(plan.record)
  }

  function Work(plan: Plan, fs: Files): seq<Event> {
    BaselineWork(plan, fs) + Pending(fs.incrementals, plan.pending)
  }

  /** A run that plans and then dies, or finishes, after at most the given number of events. */
  function Run(db: Db, fs: Files, limit: nat): Ran {
    Play(db, Cut(Work(Decide(db, fs), fs), limit))
  }

  /** What is left of a sequence of events cut short. */
  function Cut(es: seq<Event>, limit: nat): seq<Event> { if limit < |es| then es[..limit] else es }

  lemma {:induction false} PlaySplit(db: Db, a: seq<Event>, b: seq<Event>)
    ensures Play(db, a + b) == if Play(db, a).ok then Play(Play(db, a).db, b) else Play(db, a)
    decreases |a|
  {
    if a == [] {
      assert a + b == b;
    } else {
      assert (a + b)[1..] == a[1..] + b && (a + b)[0] == a[0];
      if Occur(db, a[0]) != None { PlaySplit(Occur(db, a[0]).value, a[1..], b); }
    }
  }

  // ---- Records -----------------------------------------------------------------------------

  /** No event ever removes a record. */
  lemma {:induction false} RecordsStay(db: Db, es: seq<Event>)
    ensures db.records <= Play(db, es).db.records
    decreases |es|
  {
    if es != [] && Occur(db, es[0]) != None { RecordsStay(Occur(db, es[0]).value, es[1..]); }
  }

  lemma {:induction false} DosKeepRecords(db: Db, stmts: seq<Stmt>)
    ensures Play(db, Dos(stmts)).db.records == db.records
    decreases |stmts|
  {
    if stmts != [] {
      assert Dos(stmts)[1..] == Dos(stmts[1..]) && Dos(stmts)[0] == Do(stmts[0]);
      if Occur(db, Do(stmts[0])) != None { DosKeepRecords(Occur(db, Do(stmts[0])).value, stmts[1..]); }
    }
  }

  lemma {:induction false} NotesRecord(db: Db, names: seq<string>)
    ensures Play(db, Notes(names)).ok
    ensures Play(db, Notes(names)).db == db.(records := db.records + (set n | n in names))
    decreases |names|
  {
    if names != [] {
      assert Notes(names)[1..] == Notes(names[1..]) && Notes(names)[0] == Note(names[0]);
      NotesRecord(Occur(db, Note(names[0])).value, names[1..]);
      assert (set n | n in names) == {names[0]} + (set n | n in names[1..]);
    }
  }

  /** A run of pending files that ends well has recorded every one of them. */
  lemma {:induction false} PendingRecords(db: Db, files: seq<File>, pending: seq<string>)
    requires Play(db, Pending(files, pending)).ok
    ensures forall k :: 0 <= k < |files| && files[k].name in pending
              ==> files[k].name in Play(db, Pending(files, pending)).db.records
    decreases |files|
  {
    if files != [] {
      var rest := Pending(files[1..], pending);
      if files[0].name in pending {
        var first := Dos(files[0].stmts) + [Log(files[0].name)];
        assert Pending(files, pending) == first + rest;
        PlaySplit(db, first, rest);
        PlaySplit(db, Dos(files[0].stmts), [Log(files[0].name)]);
        var mid := Play(db, first).db;
        assert files[0].name in mid.records;
        RecordsStay(mid, rest);
        PendingRecords(mid, files[1..], pending);
      } else {
        PendingRecords(db, files[1..], pending);
      }
    }
  }

  /** The baseline's part of a run either fails at a statement or leaves its records behind. */
  lemma BaselineRecords(db: Db, fs: Files)
    requires Play(db, BaselineWork(Decide(db, fs), fs)).ok
    ensures Play(db, BaselineWork(Decide(db, fs), fs)).db.records
            == db.records + (set n | n in Decide(db, fs).record)
  {
    var plan := Decide(db, fs);
    var stmts := if plan.applyBaseline then Dos(fs.baseline.Stmts()) else [];
    PlaySplit(db, stmts, Notes(plan.record));
    if plan.applyBaseline { DosKeepRecords(db, fs.baseline.Stmts()); }
    NotesRecord(Play(db, stmts).db, plan.record);
  }

  lemma PendingIsWhatIsNotRecorded(db: Db, fs: Files)
    requires Decide(db, fs).safe
    ensures forall f :: f in Decide(db, fs).pending <==> f in Names(fs.incrementals) && f !in db.records
  {
  }

  lemma AllRecorded(names: seq<string>, records: set<string>)
    requires forall f :: f in names ==> f in records
    ensures NotIn(names, records) == []
  {
    if NotIn(names, records) != [] { assert NotIn(names, records)[0] in NotIn(names, records); }
  }

  /**
   A safe plan that is carried out to the end leaves nothing to do: the next plan is `UpToDate`
   exactly when every source migration has a route, and refuses for that reason otherwise.
   Doing nothing is then what every later run does.
   */
  lemma FinishedRunConverges(db: Db, fs: Files)
    requires Decide(db, fs).safe && Play(db, Work(Decide(db, fs), fs)).ok
    ensures var after := Play(db, Work(Decide(db, fs), fs)).db;
      var next := Decide(after, fs);
      && (next.action == UpToDate <==> Unhandled(fs.sources, fs.covered, Names(fs.incrementals)) == [])
      && (next.action != UpToDate ==> next == Refusal(WithoutARoute))
      && Play(after, Work(next, fs)) == Ran(after, true)
  {
    var plan := Decide(db, fs);
    var work := BaselineWork(plan, fs);
    PlaySplit(db, work, Pending(fs.incrementals, plan.pending));
    BaselineRecords(db, fs);
    var mid := Play(db, work).db;
    var after := Play(mid, Pending(fs.incrementals, plan.pending)).db;
    RecordsStay(mid, Pending(fs.incrementals, plan.pending));
    PendingRecords(mid, fs.incrementals, plan.pending);
    assert fs.baselineName in after.records by {
      assert plan.record != [] ==> plan.record[0] == fs.baselineName;
    }
    PendingIsWhatIsNotRecorded(db, fs);
    forall f | f in Names(fs.incrementals) ensures f in after.records {
      var k :| 0 <= k < |fs.incrementals| && fs.incrementals[k].name == f;
    }
    NothingLeftToDo(after, fs);
  }

  /** With the baseline and every incremental file on record there is nothing left to do. */
  lemma NothingLeftToDo(db: Db, fs: Files)
    requires fs.baselineName in db.records && forall f :: f in Names(fs.incrementals) ==> f in db.records
    ensures var next := Decide(db, fs);
      && (next.action == UpToDate <==> Unhandled(fs.sources, fs.covered, Names(fs.incrementals)) == [])
      && (next.action != UpToDate ==> next == Refusal(WithoutARoute))
      && Play(db, Work(next, fs)) == Ran(db, true)
  {
    AllRecorded(Names(fs.incrementals), db.records);
    NoPending(fs.incrementals);
    assert Work(Decide(db, fs), fs) == [];
  }

  lemma {:induction false} NoPending(files: seq<File>)
    ensures Pending(files, []) == []
    decreases |files|
  {
    if files != [] { NoPending(files[1..]); }
  }
}
