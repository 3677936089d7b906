/** What follows a migration run that crashes. */
module MigrationRecovery {
  import opened Wrappers
  import opened SchemaVerify
  import opened MigrationPlan

  // ---- Importing the baseline into an empty database ---------------------------------------

  /** The schema after the first `k` statements of the baseline on an empty database. */
  function Imported(b: Baseline, k: nat): Schema
    requires k <= |b.Stmts()|
  {
    if k <= |b.creates| then TablesOf(b.creates[..k])
    else WithIndexes(TablesOf(b.creates), b.indexes[..k - |b.creates|])
  }

  lemma {:induction false} TablesOfAre(b: Baseline, k: nat)
    requires b.WellFormed() && k <= |b.creates|
    ensures forall j :: 0 <= j < k ==> b.creates[j].table in TablesOf(b.creates[..k])
    ensures forall j :: 0 <= j < k ==> TablesOf(b.creates[..k])[b.creates[j].table] == Table(b.creates[j].columns, {})
    ensures forall t :: t in TablesOf(b.creates[..k]) ==> exists j :: 0 <= j < k && b.creates[j].table == t
    decreases k
  {
    if k > 0 {
      assert b.creates[..k][..k - 1] == b.creates[..k - 1];
      TablesOfAre(b, k - 1);
    }
  }

  lemma {:induction false} WithIndexesAre(tables: Schema, indexes: seq<Stmt>)
    requires forall k :: 0 <= k < |indexes| ==> indexes[k].CreateIndex?
    ensures WithIndexes(tables, indexes).Keys == tables.Keys
    ensures forall t :: t in tables ==> WithIndexes(tables, indexes)[t].columns == tables[t].columns
    ensures forall r :: HasIndex(WithIndexes(tables, indexes), r)
              <==> HasIndex(tables, r) || (r.table in tables && CreateIndex(r.table, r.name) in indexes)
    decreases |indexes|
  {
    if indexes != [] {
      WithIndexesAre(tables, indexes[..|indexes| - 1]);
      assert indexes == indexes[..|indexes| - 1] + [indexes[|indexes| - 1]];
    }
  }

  lemma {:induction false} ImportPrefix(b: Baseline, records: set<string>, k: nat)
    requires b.WellFormed() && k <= |b.Stmts()|
    ensures Play(Db(map[], records), Dos(b.Stmts())[..k]) == Ran(Db(Imported(b, k), records), true)
    decreases k
  {
    if k > 0 {
      var es := Dos(b.Stmts());
      ImportPrefix(b, records, k - 1);
      assert es[..k] == es[..k - 1] + [es[k - 1]];
      PlaySplit(Db(map[], records), es[..k - 1], [es[k - 1]]);
      NextImported(b, k - 1);
    }
  }

  lemma NextTable(b: Baseline, k: nat)
    requires b.WellFormed() && k < |b.creates|
    ensures Exec(TablesOf(b.creates[..k]), b.creates[k]) == Some(TablesOf(b.creates[..k + 1]))
  {
    TablesOfAre(b, k);
    assert b.creates[..k + 1][..k] == b.creates[..k];
  }

  lemma NextIndex(b: Baseline, k: nat)
    requires b.WellFormed() && k < |b.indexes|
    ensures var tables := TablesOf(b.creates);
      Exec(WithIndexes(tables, b.indexes[..k]), b.indexes[k]) == Some(WithIndexes(tables, b.indexes[..k + 1]))
  {
    TablesHaveNoIndexes(b);
    WithIndexesAre(TablesOf(b.creates), b.indexes[..k]);
    assert b.indexes[..k + 1][..k] == b.indexes[..k];
  }

  lemma NextImported(b: Baseline, k: nat)
    requires b.WellFormed() && k < |b.Stmts()|
    ensures Exec(Imported(b, k), b.Stmts()[k]) == Some(Imported(b, k + 1))
  {
    var n := |b.creates|;
    if k < n {
      NextTable(b, k);
    } else {
      NextIndex(b, k - n);
      if k == n { assert b.creates[..n] == b.creates && b.indexes[..0] == []; }
    }
  }

  /** An import that is not interrupted makes what the file is parsed to ask for. */
  lemma ImportMakesWhatIsParsed(b: Baseline, records: set<string>)
    requires b.WellFormed()
    ensures Play(Db(map[], records), Dos(b.Stmts())) == Ran(Db(Parse(b), records), true)
  {
    var es := Dos(b.Stmts());
    ImportPrefix(b, records, |es|);
    assert es[..|es|] == es;
    assert b.creates[..|b.creates|] == b.creates && b.indexes[..|b.indexes|] == b.indexes;
  }

  /** Whether the index statements from `k` on are all done already or going to be done by a later file. */
  ghost predicate LateIndexesAreNoLoss(fs: Files, k: nat)
    requires fs.baseline.WellFormed()
  {
    forall j :: k <= j < |fs.baseline.indexes| ==>
      var i := fs.baseline.indexes[j];
      i in fs.baseline.indexes[..k] || Ref(i.table, i.name) in PendingChanges(fs.incrementals).indexes
  }

  lemma TablesAgainstParsed(b: Baseline, k: nat)
    requires b.WellFormed() && k <= |b.Stmts()|
    ensures Imported(b, k).Keys <= Parse(b).Keys
    ensures forall t :: t in Imported(b, k) ==> Imported(b, k)[t].columns == Parse(b)[t].columns
    ensures k < |b.creates| ==> b.creates[k].table in Parse(b) && b.creates[k].table !in Imported(b, k)
    ensures 0 < k && 0 < |b.creates| ==> b.creates[0].table in Imported(b, k)
    ensures k >= |b.creates| ==> Imported(b, k).Keys == Parse(b).Keys
  {
    var n := |b.creates|;
    assert b.creates[..n] == b.creates;
    TablesOfAre(b, n);
    WithIndexesAre(TablesOf(b.creates), b.indexes);
    if k <= n {
      TablesOfAre(b, k);
    } else {
      WithIndexesAre(TablesOf(b.creates), b.indexes[..k - n]);
    }
  }

  lemma TablesHaveNoIndexes(b: Baseline)
    requires b.WellFormed()
    ensures forall r :: !HasIndex(TablesOf(b.creates), r)
    ensures forall k :: 0 <= k < |b.indexes| ==> b.indexes[k].table in TablesOf(b.creates)
  {
    assert b.creates[..|b.creates|] == b.creates;
    TablesOfAre(b, |b.creates|);
    forall k | 0 <= k < |b.indexes| ensures b.indexes[k].table in TablesOf(b.creates) {
      assert b.Creates(b.indexes[k].table);
    }
  }

  lemma IndexesAre(b: Baseline, indexes: seq<Stmt>)
    requires b.WellFormed() && indexes <= b.indexes
    ensures forall r :: HasIndex(WithIndexes(TablesOf(b.creates), indexes), r) <==> CreateIndex(r.table, r.name) in indexes
  {
    TablesHaveNoIndexes(b);
    WithIndexesAre(TablesOf(b.creates), indexes);
    forall r: Ref | CreateIndex(r.table, r.name) in indexes ensures r.table in TablesOf(b.creates) {
      var k :| 0 <= k < |indexes| && indexes[k] == CreateIndex(r.table, r.name);
      assert b.indexes[k] == indexes[k];
    }
  }

  lemma IndexesAgainstParsed(b: Baseline, k: nat)
    requires b.WellFormed() && |b.creates| <= k <= |b.Stmts()|
    ensures forall r :: HasIndex(Parse(b), r) <==> CreateIndex(r.table, r.name) in b.indexes
    ensures forall r :: HasIndex(Imported(b, k), r) <==> CreateIndex(r.table, r.name) in b.indexes[..k - |b.creates|]
  {
    IndexesAre(b, b.indexes);
    IndexesAre(b, b.indexes[..k - |b.creates|]);
    if k == |b.creates| { assert b.creates[..k] == b.creates && b.indexes[..0] == []; }
  }

  /** The exact action after a crash that leaves the first `k` statements of the baseline done. */
  ghost function AfterCrash(fs: Files, k: nat): Action
    requires fs.baseline.WellFormed()
  {
    if k == 0 then Apply
    else if k < |fs.baseline.creates| then ResumeBaseline
    else if LateIndexesAreNoLoss(fs, k - |fs.baseline.creates|) then Adopt
    else Refuse
  }

  lemma TablesImported(fs: Files, k: nat)
    requires fs.baseline.WellFormed() && 0 < k <= |fs.baseline.Stmts()| && fs.baseline.creates != []
    ensures var s := Imported(fs.baseline, k);
      var v := Compare(Parse(fs.baseline), s, {"schema_migrations"}, PendingChanges(fs.incrementals));
      |s| > 0 && |v.extraTables| == 0 && |v.missingColumns| == 0
      && (|v.missingTables| > 0 <==> k < |fs.baseline.creates|)
  {
    var b, s := fs.baseline, Imported(fs.baseline, k);
    var v := Compare(Parse(b), s, {"schema_migrations"}, PendingChanges(fs.incrementals));
    TablesAgainstParsed(b, k);
    assert b.creates[0].table in s.Keys;
    assert v.extraTables == {} && v.missingColumns == {};
    if k < |b.creates| {
      assert b.creates[k].table in v.missingTables;
    } else {
      assert v.missingTables == {};
    }
  }

  lemma MatchesWhenLateIndexesAreNoLoss(fs: Files, k: nat)
    requires fs.baseline.WellFormed() && |fs.baseline.creates| <= k <= |fs.baseline.Stmts()|
    ensures Compare(Parse(fs.baseline), Imported(fs.baseline, k), {"schema_migrations"},
                    PendingChanges(fs.incrementals)).matches
            <==> LateIndexesAreNoLoss(fs, k - |fs.baseline.creates|)
  {
    var b, promised := fs.baseline, PendingChanges(fs.incrementals);
    MatchesMeansCovered(Parse(b), Imported(b, k), {"schema_migrations"}, promised);
    TablesAgainstParsed(b, k);
    IndexesAgainstParsed(b, k);
    CoveredUpTo(b.indexes, k - |b.creates|, Imported(b, k), Parse(b), promised);
  }

  /**
   A first import that dies after `k` statements: before the first table it starts again; with
   some of the tables it is resumed; with all of them it is adopted if no index is missing that
   no later file adds, and is refused if one is.
   */
  lemma CrashedImport(fs: Files, k: nat)
    requires fs.baseline.WellFormed() && k <= |fs.baseline.Stmts()|
    requires fs.baseline.creates != []
    ensures var db := Play(Db(map[], {}), Dos(fs.baseline.Stmts())[..k]).db;
      Decide(db, fs).action == AfterCrash(fs, k)
      && (Decide(db, fs).action == Refuse ==> Decide(db, fs).reason == DoesNotMatch)
  {
    ImportPrefix(fs.baseline, {}, k);
    if k == 0 {
      assert fs.baseline.creates[..0] == [];
    } else if k < |fs.baseline.creates| {
      SomeTablesAreResumed(fs, k);
    } else {
      AllTablesAreJudged(fs, k);
    }
  }

  lemma SomeTablesAreResumed(fs: Files, k: nat)
    requires fs.baseline.WellFormed() && 0 < k < |fs.baseline.creates|
    ensures Decide(Db(Imported(fs.baseline, k), {}), fs).action == ResumeBaseline
  {
    TablesImported(fs, k);
  }

  lemma AllTablesAreJudged(fs: Files, k: nat)
    requires fs.baseline.WellFormed() && fs.baseline.creates != [] && |fs.baseline.creates| <= k <= |fs.baseline.Stmts()|
    ensures var plan := Decide(Db(Imported(fs.baseline, k), {}), fs);
      plan.action == (if LateIndexesAreNoLoss(fs, k - |fs.baseline.creates|) then Adopt else Refuse)
      && (plan.action == Refuse ==> plan.reason == DoesNotMatch)
  {
    TablesImported(fs, k);
    MatchesWhenLateIndexesAreNoLoss(fs, k);
  }

  lemma CoveredUpTo(indexes: seq<Stmt>, k: nat, s: Schema, expected: Schema, promised: Promised)
    requires k <= |indexes| && forall j :: 0 <= j < |indexes| ==> indexes[j].CreateIndex?
    requires s.Keys == expected.Keys && forall t :: t in s ==> s[t].columns == expected[t].columns
    requires forall r :: HasIndex(expected, r) <==> CreateIndex(r.table, r.name) in indexes
    requires forall r :: HasIndex(s, r) <==> CreateIndex(r.table, r.name) in indexes[..k]
    ensures CoversBut(s, expected, promised)
            <==> forall j :: k <= j < |indexes| ==>
                   indexes[j] in indexes[..k] || Ref(indexes[j].table, indexes[j].name) in promised.indexes
  {
    forall j | 0 <= j < k ensures indexes[j] in indexes[..k] { assert indexes[..k][j] == indexes[j]; }
    if CoversBut(s, expected, promised) {
      forall j | k <= j < |indexes|
        ensures indexes[j] in indexes[..k] || Ref(indexes[j].table, indexes[j].name) in promised.indexes
      {
        assert indexes[j] in indexes && HasIndex(expected, Ref(indexes[j].table, indexes[j].name));
      }
    } else {
      var r :| HasIndex(expected, r) && !HasIndex(s, r) && r !in promised.indexes;
      var j :| 0 <= j < |indexes| && indexes[j] == CreateIndex(r.table, r.name);
    }
  }

  lemma CutSplits(a: seq<Event>, b: seq<Event>, limit: nat)
    ensures Cut(a + b, limit) == if limit <= |a| then a[..limit] else a + Cut(b, limit - |a|)
  {
  }

  /** Past its statements, a first install has the baseline on record. */
  lemma InstallRecordsBaseline(fs: Files, limit: nat)
    requires fs.baseline.WellFormed() && limit > |fs.baseline.Stmts()|
    ensures fs.baselineName in Run(Db(map[], {}), fs, limit).db.records
  {
    var empty := Db(map[], {});
    var plan := Decide(empty, fs);
    var stmts := Dos(fs.baseline.Stmts());
    var rest := Notes(plan.record) + Pending(fs.incrementals, plan.pending);
    assert Work(plan, fs) == stmts + rest;
    CutSplits(stmts, rest, limit);
    var tail := Cut(rest, limit - |stmts|);
    PlaySplit(empty, stmts, tail);
    ImportMakesWhatIsParsed(fs.baseline, {});
    RecordHasBaseline(empty, fs);
    assert tail[0] == Notes(plan.record)[0] == Note(fs.baselineName);
    RecordsStay(Occur(Play(empty, stmts).db, tail[0]).value, tail[1..]);
  }

  /**
   A first install that dies after any number of events. While the baseline is being imported the
   next plan is as above; once the baseline is on record the next run carries on with what is
   left, and refuses only if a source migration has no route.
   */
  lemma CrashedInstall(fs: Files, limit: nat)
    requires fs.baseline.WellFormed() && fs.baseline.creates != []
    ensures var next := Decide(Run(Db(map[], {}), fs, limit).db, fs);
      var n := |fs.baseline.Stmts()|;
      if limit <= n then next.action == AfterCrash(fs, limit)
      else if Unhandled(fs.sources, fs.covered, Names(fs.incrementals)) != [] then next == Refusal(WithoutARoute)
      else next.action == UpToDate || (next.action == Apply && next.reason == IncrementalOnly)
  {
    var plan := Decide(Db(map[], {}), fs);
    var stmts := Dos(fs.baseline.Stmts());
    if limit <= |stmts| {
      var rest := Notes(plan.record) + Pending(fs.incrementals, plan.pending);
      assert Work(plan, fs) == stmts + rest;
      CutSplits(stmts, rest, limit);
      CrashedImport(fs, limit);
    } else {
      InstallRecordsBaseline(fs, limit);
    }
  }

  /** Some statement of an incremental file adds the column, or renames another to it. */
  predicate AddsColumn(files: seq<File>, r: Ref) {
    exists k, j :: 0 <= k < |files| && 0 <= j < |files[k].stmts|
      && (files[k].stmts[j] == AddColumn(r.table, r.name)
          || (files[k].stmts[j].RenameColumn? && files[k].stmts[j].table == r.table && files[k].stmts[j].to == r.name))
  }

  lemma PromisedColumns(files: seq<File>, r: Ref)
    ensures r in PendingChanges(files).columns <==> AddsColumn(files, r)
  {
    if AddsColumn(files, r) {
      var k, j :| 0 <= k < |files| && 0 <= j < |files[k].stmts|
        && (files[k].stmts[j] == AddColumn(r.table, r.name)
            || (files[k].stmts[j].RenameColumn? && files[k].stmts[j].table == r.table && files[k].stmts[j].to == r.name));
      assert r == Ref(files[k].stmts[j].table, r.name);
    }
  }

  /** Some statement of an incremental file creates the index. */
  predicate AddsIndex(files: seq<File>, r: Ref) {
    exists k, j :: 0 <= k < |files| && 0 <= j < |files[k].stmts| && files[k].stmts[j] == CreateIndex(r.table, r.name)
  }

  lemma PromisedIndexes(files: seq<File>, r: Ref)
    ensures r in PendingChanges(files).indexes <==> AddsIndex(files, r)
  {
    if AddsIndex(files, r) {
      var k, j :| 0 <= k < |files| && 0 <= j < |files[k].stmts| && files[k].stmts[j] == CreateIndex(r.table, r.name);
      assert r == Ref(files[k].stmts[j].table, files[k].stmts[j].name);
    }
  }

  /** Everything the baseline asks for is there, apart from columns and indexes that a file adds. */
  ghost predicate Complete(db: Db, fs: Files) {
    var expected := Parse(fs.baseline);
    && (forall t :: t in expected ==> t in db.schema)
    && (forall r: Ref :: HasColumn(expected, r) ==> HasColumn(db.schema, r) || AddsColumn(fs.incrementals, r))
    && (forall r: Ref :: HasIndex(expected, r) ==> HasIndex(db.schema, r) || AddsIndex(fs.incrementals, r))
  }

  lemma CompleteIsCovered(db: Db, fs: Files)
    ensures Complete(db, fs) <==> CoversBut(db.schema, Parse(fs.baseline), PendingChanges(fs.incrementals))
  {
    forall r: Ref ensures (r in PendingChanges(fs.incrementals).columns <==> AddsColumn(fs.incrementals, r))
                          && (r in PendingChanges(fs.incrementals).indexes <==> AddsIndex(fs.incrementals, r)) {
      PromisedColumns(fs.incrementals, r);
      PromisedIndexes(fs.incrementals, r);
    }
  }

  /**
   A database is adopted exactly when it has tables, no record of the baseline, and everything the
   baseline asks for apart from what the incremental files add.
   */
  lemma AdoptedExactlyWhen(db: Db, fs: Files)
    ensures Decide(db, fs).action == Adopt <==> fs.baselineName !in db.records && db.schema != map[] && Complete(db, fs)
  {
    CompleteIsCovered(db, fs);
    MatchesMeansCovered(Parse(fs.baseline), db.schema, {"schema_migrations"}, PendingChanges(fs.incrementals));
    if |db.schema| == 0 { assert db.schema.Keys == {}; }
  }

  /**
   A database with tables, no record and part of the baseline only: some expected table is missing,
   each one that is there has every expected column but those a file adds, and none is a stranger's.
   */
  ghost predicate Unfinished(db: Db, fs: Files) {
    var expected := Parse(fs.baseline);
    && db.schema != map[]
    && (exists t :: t in expected && t !in db.schema)
    && (forall r: Ref :: r.table in db.schema && HasColumn(expected, r) && !HasColumn(db.schema, r) ==>
          AddsColumn(fs.incrementals, r))
    && forall t :: t in db.schema ==> t in expected || t == "schema_migrations"
  }

  lemma NothingIn<T>(s: set<T>)
    ensures |s| == 0 <==> forall x :: x !in s
  {
    if forall x :: x !in s { assert s == {}; }
  }

  lemma UnfinishedIsSubset(db: Db, fs: Files)
    requires db.schema != map[]
    ensures var v := Compare(Parse(fs.baseline), db.schema, {"schema_migrations"}, PendingChanges(fs.incrementals));
      Unfinished(db, fs) <==> |v.missingTables| > 0 && |v.missingColumns| == 0 && |v.extraTables| == 0
  {
    var expected, promised := Parse(fs.baseline), PendingChanges(fs.incrementals);
    var v := Compare(expected, db.schema, {"schema_migrations"}, promised);
    NothingIn(v.missingTables);
    NothingIn(v.missingColumns);
    NothingIn(v.extraTables);
    forall r: Ref ensures r in v.missingColumns
                     <==> r.table in db.schema && HasColumn(expected, r) && !HasColumn(db.schema, r) && !AddsColumn(fs.incrementals, r) {
      PromisedColumns(fs.incrementals, r);
      assert HasColumn(expected, r) ==> r in Columns(expected);
    }
    forall t: string ensures t in v.extraTables <==> t in db.schema && t !in expected && t != "schema_migrations" {}
    forall t: string ensures t in v.missingTables <==> t in expected && t !in db.schema {}
  }

  lemma SomeTable(s: Schema)
    ensures |s| > 0 <==> s != map[]
  {
    if |s| == 0 { assert s.Keys == {}; }
  }

  /** The baseline is imported over a database that has tables exactly when that database is an unfinished import. */
  lemma ResumedExactlyWhen(db: Db, fs: Files)
    ensures Decide(db, fs).action == ResumeBaseline <==> fs.baselineName !in db.records && Unfinished(db, fs)
  {
    SomeTable(db.schema);
    if db.schema != map[] {
      UnfinishedIsSubset(db, fs);
      MatchesMeansCovered(Parse(fs.baseline), db.schema, {"schema_migrations"}, PendingChanges(fs.incrementals));
    }
  }

  /** A source migration that nothing brings: not in the baseline, and no incremental file has its number. */
  predicate Unrouted(fs: Files, m: string) {
    m in fs.sources && m !in fs.covered
    && forall k :: 0 <= k < |fs.incrementals| ==> Take(fs.incrementals[k].name, 4) != Take(m, 4)
  }

  lemma {:induction false} UnhandledAre(sources: seq<string>, covered: seq<string>, incrementals: seq<string>)
    ensures forall m :: m in Unhandled(sources, covered, incrementals) <==> m in sources && IsUnhandled(m, covered, incrementals)
  {
    if sources != [] { UnhandledAre(sources[1..], covered, incrementals); }
  }

  lemma UnhandledIsUnrouted(fs: Files)
    ensures Unhandled(fs.sources, fs.covered, Names(fs.incrementals)) != [] <==> exists m :: Unrouted(fs, m)
  {
    var us := Unhandled(fs.sources, fs.covered, Names(fs.incrementals));
    UnhandledAre(fs.sources, fs.covered, Names(fs.incrementals));
    forall m ensures m in us <==> Unrouted(fs, m) {
      if m in us {
        forall k | 0 <= k < |fs.incrementals| ensures Take(fs.incrementals[k].name, 4) != Take(m, 4) {
          assert Names(fs.incrementals)[k] in Names(fs.incrementals);
        }
      }
    }
    if us != [] { assert us[0] in us; }
  }

  /**
   A run refuses exactly when a recorded database has a migration that nothing brings, or a database
   without the record has tables that are neither the whole baseline nor an unfinished import of it.
   */
  lemma RefusedExactlyWhen(db: Db, fs: Files)
    ensures Decide(db, fs) == Refusal(WithoutARoute) <==> fs.baselineName in db.records && exists m :: Unrouted(fs, m)
    ensures Decide(db, fs) == Refusal(DoesNotMatch)
            <==> fs.baselineName !in db.records && db.schema != map[] && !Unfinished(db, fs) && !Complete(db, fs)
    ensures Decide(db, fs).action == Refuse
            <==> Decide(db, fs) == Refusal(WithoutARoute) || Decide(db, fs) == Refusal(DoesNotMatch)
  {
    RefusedWithoutARoute(db, fs);
    RefusedForItsTables(db, fs);
  }

  lemma RefusedWithoutARoute(db: Db, fs: Files)
    ensures Decide(db, fs) == Refusal(WithoutARoute) <==> fs.baselineName in db.records && exists m :: Unrouted(fs, m)
    ensures Decide(db, fs).action == Refuse
            <==> Decide(db, fs) == Refusal(WithoutARoute) || Decide(db, fs) == Refusal(DoesNotMatch)
  {
    UnhandledIsUnrouted(fs);
  }

  lemma RefusedForItsTables(db: Db, fs: Files)
    ensures Decide(db, fs) == Refusal(DoesNotMatch)
            <==> fs.baselineName !in db.records && db.schema != map[] && !Unfinished(db, fs) && !Complete(db, fs)
  {
    SomeTable(db.schema);
    if db.schema != map[] {
      CompleteIsCovered(db, fs);
      UnfinishedIsSubset(db, fs);
      MatchesMeansCovered(Parse(fs.baseline), db.schema, {"schema_migrations"}, PendingChanges(fs.incrementals));
    }
  }

  /** An empty database is given the baseline; a recorded one what is pending, or nothing if nothing is. */
  lemma AppliedExactlyWhen(db: Db, fs: Files)
    ensures Decide(db, fs).reason == BaselineAndIncrementals <==> fs.baselineName !in db.records && db.schema == map[]
    ensures Decide(db, fs).reason == IncrementalOnly
            <==> fs.baselineName in db.records && !(exists m :: Unrouted(fs, m))
                 && exists k :: 0 <= k < |fs.incrementals| && fs.incrementals[k].name !in db.records
    ensures Decide(db, fs).action == UpToDate
            <==> fs.baselineName in db.records && !(exists m :: Unrouted(fs, m))
                 && forall k :: 0 <= k < |fs.incrementals| ==> fs.incrementals[k].name in db.records
  {
    UnhandledIsUnrouted(fs);
    NothingIsPending(fs.incrementals, db.records);
    if fs.baselineName in db.records { PlannedWhenRecorded(db, fs); } else { PlannedWhenUnrecorded(db, fs); }
  }

  lemma PlannedWhenRecorded(db: Db, fs: Files)
    requires fs.baselineName in db.records
    ensures var us, left := Unhandled(fs.sources, fs.covered, Names(fs.incrementals)), NotIn(Names(fs.incrementals), db.records);
      && Decide(db, fs).reason == (if us != [] then WithoutARoute else if left == [] then NothingPending else IncrementalOnly)
      && (Decide(db, fs).action == UpToDate <==> us == [] && left == [])
  {
  }

  lemma PlannedWhenUnrecorded(db: Db, fs: Files)
    requires fs.baselineName !in db.records
    ensures (Decide(db, fs).reason == BaselineAndIncrementals <==> db.schema == map[])
    ensures Decide(db, fs).reason != IncrementalOnly && Decide(db, fs).action != UpToDate
  {
    SomeTable(db.schema);
  }

  lemma NothingIsPending(files: seq<File>, records: set<string>)
    ensures NotIn(Names(files), records) == [] <==> forall k :: 0 <= k < |files| ==> files[k].name in records
  {
    var names := Names(files);
    if forall k :: 0 <= k < |files| ==> files[k].name in records {
      AllRecorded(names, records);
    } else {
      var k :| 0 <= k < |files| && files[k].name !in records;
      assert names[k] in NotIn(names, records);
    }
  }

  /** What a plan orders: the baseline where it is started or resumed, its records where there are none yet. */
  lemma PlanOrders(db: Db, fs: Files)
    ensures var plan := Decide(db, fs);
      && (plan.safe <==> plan.action != Refuse)
      && (plan.applyBaseline <==> plan.action == ResumeBaseline || (plan.action == Apply && fs.baselineName !in db.records))
      && plan.record == (if plan.safe && fs.baselineName !in db.records then [fs.baselineName] + fs.covered else [])
      && (plan.safe ==> forall f :: f in plan.pending <==> f in Names(fs.incrementals) && f !in db.records)
      && (!plan.safe ==> plan.pending == [])
  {
    SomeTable(db.schema);
  }

  // ---- Resuming -----------------------------------------------------------------------------

  /** Nothing of a schema is lost in another. */
  ghost predicate Keeps(s: Schema, after: Schema) {
    forall t :: t in s ==> t in after && s[t].columns <= after[t].columns && s[t].indexes <= after[t].indexes
  }

  /** The first `k` statements of the baseline have been carried out, some perhaps long ago. */
  ghost predicate DoneUpTo(b: Baseline, k: nat, s: Schema, after: Schema)
    requires b.WellFormed() && k <= |b.Stmts()|
  {
    && Keeps(s, after)
    && (forall t :: t in after ==> t in s || exists j :: 0 <= j < k && j < |b.creates| && b.creates[j].table == t)
    && (forall j :: 0 <= j < k && j < |b.creates| ==>
          b.creates[j].table in after
          && (b.creates[j].table in s || b.creates[j].columns <= after[b.creates[j].table].columns))
    && (forall j :: 0 <= j < k - |b.creates| ==> HasIndex(after, Ref(b.indexes[j].table, b.indexes[j].name)))
  }

  lemma CreateIsDone(b: Baseline, k: nat, s: Schema, after: Schema)
    requires b.WellFormed() && k < |b.creates| && DoneUpTo(b, k, s, after)
    ensures Exec(after, b.creates[k]) != None && DoneUpTo(b, k + 1, s, Exec(after, b.creates[k]).value)
  {
    var stmt := b.creates[k];
    var next := Exec(after, stmt).value;
    assert Keeps(after, next) && next.Keys == after.Keys + {stmt.table};
    assert forall j :: 0 <= j < k ==> b.creates[j].table != stmt.table;
  }

  /** The same tables and columns, no index lost, and the next statement's index there. */
  lemma OneMoreIndex(b: Baseline, k: nat, s: Schema, after: Schema, next: Schema)
    requires b.WellFormed() && |b.creates| <= k < |b.Stmts()| && DoneUpTo(b, k, s, after)
    requires next.Keys == after.Keys && Keeps(after, next) && forall t :: t in after ==> next[t].columns == after[t].columns
    requires HasIndex(next, Ref(b.indexes[k - |b.creates|].table, b.indexes[k - |b.creates|].name))
    ensures DoneUpTo(b, k + 1, s, next)
  {
    assert Keeps(s, next);
    forall j | 0 <= j < k + 1 - |b.creates| ensures HasIndex(next, Ref(b.indexes[j].table, b.indexes[j].name)) {
      if j < k - |b.creates| { assert HasIndex(after, Ref(b.indexes[j].table, b.indexes[j].name)); }
    }
  }

  lemma IndexIsDone(b: Baseline, k: nat, s: Schema, after: Schema)
    requires b.WellFormed() && |b.creates| <= k < |b.Stmts()| && DoneUpTo(b, k, s, after)
    ensures var stmt := b.indexes[k - |b.creates|];
      Exec(after, stmt) != None && DoneUpTo(b, k + 1, s, Exec(after, stmt).value)
  {
    var stmt := b.indexes[k - |b.creates|];
    assert b.Creates(stmt.table);
    var j :| 0 <= j < |b.creates| && b.creates[j].table == stmt.table;
    assert stmt.table in after;
    OneMoreIndex(b, k, s, after, Exec(after, stmt).value);
  }

  lemma NextIsDone(b: Baseline, k: nat, s: Schema, after: Schema)
    requires b.WellFormed() && k < |b.Stmts()| && DoneUpTo(b, k, s, after)
    ensures Exec(after, b.Stmts()[k]) != None && DoneUpTo(b, k + 1, s, Exec(after, b.Stmts()[k]).value)
  {
    if k < |b.creates| { CreateIsDone(b, k, s, after); } else { IndexIsDone(b, k, s, after); }
  }

  lemma PlayOne(db: Db, stmt: Stmt)
    requires Exec(db.schema, stmt) != None
    ensures Play(db, [Do(stmt)]) == Ran(db.(schema := Exec(db.schema, stmt).value), true)
  {
    assert [Do(stmt)][1..] == [];
  }

  lemma PlayNext(db: Db, stmts: seq<Stmt>, k: nat)
    requires k < |stmts| && Play(db, Dos(stmts)[..k]).ok
    requires Exec(Play(db, Dos(stmts)[..k]).db.schema, stmts[k]) != None
    ensures var mid := Play(db, Dos(stmts)[..k]).db;
      Play(db, Dos(stmts)[..k + 1]) == Ran(mid.(schema := Exec(mid.schema, stmts[k]).value), true)
  {
    var before := Dos(stmts)[..k];
    assert Dos(stmts)[..k + 1] == before + [Do(stmts[k])];
    PlaySplit(db, before, [Do(stmts[k])]);
    PlayOne(Play(db, before).db, stmts[k]);
  }

  ghost predicate DoneAfter(b: Baseline, db: Db, k: nat, r: Ran)
    requires b.WellFormed() && k <= |b.Stmts()|
  {
    r.ok && r.db.records == db.records && DoneUpTo(b, k, db.schema, r.db.schema)
  }

  lemma DoneNext(b: Baseline, db: Db, k: nat, before: seq<Event>, after: seq<Event>)
    requires b.WellFormed() && k < |b.Stmts()| && before == Dos(b.Stmts())[..k] && after == Dos(b.Stmts())[..k + 1]
    requires DoneAfter(b, db, k, Play(db, before))
    ensures DoneAfter(b, db, k + 1, Play(db, after))
  {
    NextIsDone(b, k, db.schema, Play(db, before).db.schema);
    PlayNext(db, b.Stmts(), k);
  }

  lemma {:induction false} BaselineOver(b: Baseline, db: Db, k: nat)
    requires b.WellFormed() && k <= |b.Stmts()|
    ensures DoneAfter(b, db, k, Play(db, Dos(b.Stmts())[..k]))
    decreases k
  {
    if k > 0 {
      BaselineOver(b, db, k - 1);
      DoneNext(b, db, k - 1, Dos(b.Stmts())[..k - 1], Dos(b.Stmts())[..k]);
    }
  }

  /** A column the baseline asks for is in the statement that makes its table. */
  lemma ExpectedColumn(b: Baseline, r: Ref) returns (j: nat)
    requires b.WellFormed() && HasColumn(Parse(b), r)
    ensures j < |b.creates| && b.creates[j].table == r.table && r.name in b.creates[j].columns
  {
    assert b.creates[..|b.creates|] == b.creates;
    TablesOfAre(b, |b.creates|);
    WithIndexesAre(TablesOf(b.creates), b.indexes);
    j :| 0 <= j < |b.creates| && b.creates[j].table == r.table;
  }

  lemma ExpectedTable(b: Baseline, t: string) returns (j: nat)
    requires b.WellFormed() && t in Parse(b)
    ensures j < |b.creates| && b.creates[j].table == t
  {
    assert b.creates[..|b.creates|] == b.creates;
    TablesOfAre(b, |b.creates|);
    WithIndexesAre(TablesOf(b.creates), b.indexes);
    j :| 0 <= j < |b.creates| && b.creates[j].table == t;
  }

  /**
   Carrying the whole baseline out over a database whose own tables lack no expected column, but
   those a later file adds, never fails, loses nothing, and leaves every expected table, every
   expected index and every expected column that is not one of those.
   */
  lemma BaselineCompletes(fs: Files, db: Db)
    requires fs.baseline.WellFormed()
    requires forall r: Ref :: r.table in db.schema && HasColumn(Parse(fs.baseline), r) && !HasColumn(db.schema, r)
               ==> r in PendingChanges(fs.incrementals).columns
    ensures var r := Play(db, Dos(fs.baseline.Stmts()));
      && r.ok && r.db.records == db.records && Keeps(db.schema, r.db.schema)
      && CoversBut(r.db.schema, Parse(fs.baseline), Promised(PendingChanges(fs.incrementals).columns, {}))
  {
    var b := fs.baseline;
    var es := Dos(b.Stmts());
    assert es[..|es|] == es;
    BaselineOver(b, db, |es|);
    var after, expected := Play(db, es).db.schema, Parse(b);
    forall t | t in expected ensures t in after {
      var j := ExpectedTable(b, t);
    }
    forall r | HasColumn(expected, r) && !HasColumn(after, r) ensures r in PendingChanges(fs.incrementals).columns {
      var j := ExpectedColumn(b, r);
      assert b.creates[j].table in after;
    }
    forall r | HasIndex(expected, r) ensures HasIndex(after, r) {
      IndexesAgainstParsed(b, |b.Stmts()|);
      var j :| 0 <= j < |b.indexes| && b.indexes[j] == CreateIndex(r.table, r.name);
      assert HasIndex(after, Ref(b.indexes[j].table, b.indexes[j].name));
    }
  }

  lemma NothingUnexplained(fs: Files, db: Db)
    requires fs.baselineName !in db.records
    requires Decide(db, fs).safe
    ensures forall r: Ref :: r.table in db.schema && HasColumn(Parse(fs.baseline), r) && !HasColumn(db.schema, r)
              ==> r in PendingChanges(fs.incrementals).columns
  {
    if |db.schema| > 0 {
      var expected, promised := Parse(fs.baseline), PendingChanges(fs.incrementals);
      var v := Compare(expected, db.schema, {"schema_migrations"}, promised);
      assert v.matches || |v.missingColumns| == 0;
      assert v.missingColumns == {};
      NoColumnMissing(expected, db.schema, promised);
    } else {
      assert db.schema.Keys == {};
    }
  }

  lemma NoColumnMissing(expected: Schema, actual: Schema, promised: Promised)
    requires Compare(expected, actual, {"schema_migrations"}, promised).missingColumns == {}
    ensures forall r: Ref :: r.table in actual && HasColumn(expected, r) && !HasColumn(actual, r)
              ==> r in promised.columns
  {
    forall r: Ref | r.table in actual && HasColumn(expected, r) && !HasColumn(actual, r)
      ensures r in promised.columns
    {
      assert r in Columns(expected) && LacksColumn(expected, actual, r);
      assert r !in Compare(expected, actual, {"schema_migrations"}, promised).missingColumns;
    }
  }

  // ---- What a finished run has made --------------------------------------------------------

  /** What a statement does to one column or index of a table that is there. */
  datatype Touch = Untouched | Put | Removed

  function ColumnTouch(stmt: Stmt, r: Ref): Touch {
    match stmt
    case AddColumn(t, c) => if r == Ref(t, c) then Put else Untouched
    case RenameColumn(t, from, to) => if r == Ref(t, to) then Put else if r == Ref(t, from) then Removed else Untouched
    case DropColumn(t, c) => if r == Ref(t, c) then Removed else Untouched
    case _ => Untouched
  }

  function IndexTouch(stmt: Stmt, r: Ref): Touch {
    match stmt
    case CreateIndex(t, i) => if r == Ref(t, i) then Put else Untouched
    case DropIndex(t, i) => if r == Ref(t, i) then Removed else Untouched
    case _ => Untouched
  }

  function Later(first: Touch, second: Touch): Touch { if second.Untouched? then first else second }

  /** The last thing a list of statements does to a column, or to an index. */
  function LastTouch(stmts: seq<Stmt>, touch: (Stmt, Ref) -> Touch, r: Ref): Touch {
    if stmts == [] then Untouched else Later(touch(stmts[0], r), LastTouch(stmts[1..], touch, r))
  }

  predicate After(touch: Touch, before: bool) { touch.Put? || (touch.Untouched? && before) }

  lemma ExecTouches(s: Schema, stmt: Stmt, r: Ref)
    requires Exec(s, stmt) != None && r.table in s
    ensures var after := Exec(s, stmt).value;
      && r.table in after
      && (HasColumn(after, r) <==> After(ColumnTouch(stmt, r), HasColumn(s, r)))
      && (HasIndex(after, r) <==> After(IndexTouch(stmt, r), HasIndex(s, r)))
  {
  }

  lemma {:induction false} StmtsTouch(db: Db, stmts: seq<Stmt>, r: Ref)
    requires Play(db, Dos(stmts)).ok && r.table in db.schema
    ensures var after := Play(db, Dos(stmts)).db.schema;
      && r.table in after
      && (HasColumn(after, r) <==> After(LastTouch(stmts, ColumnTouch, r), HasColumn(db.schema, r)))
      && (HasIndex(after, r) <==> After(LastTouch(stmts, IndexTouch, r), HasIndex(db.schema, r)))
    decreases |stmts|
  {
    if stmts != [] {
      assert Dos(stmts)[1..] == Dos(stmts[1..]) && Dos(stmts)[0] == Do(stmts[0]);
      ExecTouches(db.schema, stmts[0], r);
      StmtsTouch(Occur(db, Do(stmts[0])).value, stmts[1..], r);
    }
  }

  function AllStmts(files: seq<File>): seq<Stmt> {
    if files == [] then [] else files[0].stmts + AllStmts(files[1..])
  }

  lemma {:induction false} TouchSplit(a: seq<Stmt>, b: seq<Stmt>, touch: (Stmt, Ref) -> Touch, r: Ref)
    ensures LastTouch(a + b, touch, r) == Later(LastTouch(a, touch, r), LastTouch(b, touch, r))
    decreases |a|
  {
    if a == [] {
      assert a + b == b;
    } else {
      assert (a + b)[1..] == a[1..] + b;
      TouchSplit(a[1..], b, touch, r);
    }
  }

  lemma PendingFirst(db: Db, files: seq<File>, pending: seq<string>) returns (mid: Db, next: Db)
    requires files != [] && files[0].name in pending && Play(db, Pending(files, pending)).ok
    ensures Play(db, Dos(files[0].stmts)) == Ran(mid, true) && next.schema == mid.schema
    ensures Play(next, Pending(files[1..], pending)) == Play(db, Pending(files, pending))
  {
    var stmts, rest := files[0].stmts, Pending(files[1..], pending);
    assert Pending(files, pending) == Dos(stmts) + ([Log(files[0].name)] + rest);
    PlaySplit(db, Dos(stmts), [Log(files[0].name)] + rest);
    mid := Play(db, Dos(stmts)).db;
    PlaySplit(mid, [Log(files[0].name)], rest);
    next := Play(mid, [Log(files[0].name)]).db;
    assert [Log(files[0].name)][1..] == [];
  }

  /** What files that were all run made of a column and of an index. */
  lemma {:induction false} FilesTouch(db: Db, files: seq<File>, pending: seq<string>, r: Ref)
    requires Play(db, Pending(files, pending)).ok && r.table in db.schema
    requires forall k :: 0 <= k < |files| ==> files[k].name in pending
    ensures var after := Play(db, Pending(files, pending)).db.schema;
      && r.table in after
      && (HasColumn(after, r) <==> After(LastTouch(AllStmts(files), ColumnTouch, r), HasColumn(db.schema, r)))
      && (HasIndex(after, r) <==> After(LastTouch(AllStmts(files), IndexTouch, r), HasIndex(db.schema, r)))
    decreases |files|
  {
    if files != [] {
      var mid, next := PendingFirst(db, files, pending);
      StmtsTouch(db, files[0].stmts, r);
      FilesTouch(next, files[1..], pending, r);
      TouchSplit(files[0].stmts, AllStmts(files[1..]), ColumnTouch, r);
      TouchSplit(files[0].stmts, AllStmts(files[1..]), IndexTouch, r);
    }
  }

  lemma {:induction false} TouchedByOne(stmts: seq<Stmt>, j: nat, touch: (Stmt, Ref) -> Touch, r: Ref)
    requires j < |stmts| && touch(stmts[j], r) != Untouched
    ensures LastTouch(stmts, touch, r) != Untouched
    decreases j
  {
    if j > 0 { TouchedByOne(stmts[1..], j - 1, touch, r); }
  }

  lemma {:induction false} TouchedInFile(files: seq<File>, k: nat, j: nat, touch: (Stmt, Ref) -> Touch, r: Ref)
    requires k < |files| && j < |files[k].stmts| && touch(files[k].stmts[j], r) != Untouched
    ensures LastTouch(AllStmts(files), touch, r) != Untouched
    decreases k
  {
    TouchSplit(files[0].stmts, AllStmts(files[1..]), touch, r);
    if k == 0 { TouchedByOne(files[0].stmts, j, touch, r); } else { TouchedInFile(files[1..], k - 1, j, touch, r); }
  }

  /** What the files are counted on to add, some statement of theirs touches. */
  lemma PromisedIsTouched(files: seq<File>, r: Ref)
    ensures r in PendingChanges(files).columns ==> LastTouch(AllStmts(files), ColumnTouch, r) != Untouched
    ensures r in PendingChanges(files).indexes ==> LastTouch(AllStmts(files), IndexTouch, r) != Untouched
  {
    if r in PendingChanges(files).columns {
      var k, j :| 0 <= k < |files| && 0 <= j < |files[k].stmts| && ColumnTouch(files[k].stmts[j], r) == Put;
      TouchedInFile(files, k, j, ColumnTouch, r);
    }
    if r in PendingChanges(files).indexes {
      var k, j :| 0 <= k < |files| && 0 <= j < |files[k].stmts| && IndexTouch(files[k].stmts[j], r) == Put;
      TouchedInFile(files, k, j, IndexTouch, r);
    }
  }

  /** Nothing the baseline asks for is last dropped, or last renamed away, by the files. */
  ghost predicate TakesAwayNothingExpected(files: seq<File>, expected: Schema) {
    && (forall r :: HasColumn(expected, r) ==> LastTouch(AllStmts(files), ColumnTouch, r) != Removed)
    && (forall r :: HasIndex(expected, r) ==> LastTouch(AllStmts(files), IndexTouch, r) != Removed)
  }

  lemma OneRefDelivered(db: Db, files: seq<File>, pending: seq<string>, expected: Schema, r: Ref)
    requires Play(db, Pending(files, pending)).ok && forall k :: 0 <= k < |files| ==> files[k].name in pending
    requires CoversBut(db.schema, expected, PendingChanges(files)) && r.table in expected
    ensures var after := Play(db, Pending(files, pending)).db.schema;
      && r.table in after
      && (HasColumn(expected, r) ==> (HasColumn(after, r) <==> LastTouch(AllStmts(files), ColumnTouch, r) != Removed))
      && (HasIndex(expected, r) ==> (HasIndex(after, r) <==> LastTouch(AllStmts(files), IndexTouch, r) != Removed))
  {
    FilesTouch(db, files, pending, r);
    PromisedIsTouched(files, r);
  }

  /** Pending files that are all run leave what was expected exactly if they take none of it away. */
  lemma FilesDeliver(db: Db, files: seq<File>, pending: seq<string>, expected: Schema)
    requires Play(db, Pending(files, pending)).ok && forall k :: 0 <= k < |files| ==> files[k].name in pending
    requires CoversBut(db.schema, expected, PendingChanges(files))
    ensures Covers(Play(db, Pending(files, pending)).db.schema, expected) <==> TakesAwayNothingExpected(files, expected)
  {
    var after := Play(db, Pending(files, pending)).db.schema;
    forall t | t in expected ensures t in after { OneRefDelivered(db, files, pending, expected, Ref(t, "")); }
    forall r | HasColumn(expected, r)
      ensures HasColumn(after, r) <==> LastTouch(AllStmts(files), ColumnTouch, r) != Removed {
      OneRefDelivered(db, files, pending, expected, r);
    }
    forall r | HasIndex(expected, r)
      ensures HasIndex(after, r) <==> LastTouch(AllStmts(files), IndexTouch, r) != Removed {
      OneRefDelivered(db, files, pending, expected, r);
    }
  }

  lemma {:induction false} NotesKeepSchema(db: Db, names: seq<string>)
    ensures Play(db, Notes(names)).ok && Play(db, Notes(names)).db.schema == db.schema
  {
    NotesRecord(db, names);
  }

  lemma BaselineWorkCovers(db: Db, fs: Files)
    requires fs.baseline.WellFormed() && Decide(db, fs).safe && fs.baselineName !in db.records
    ensures var r := Play(db, BaselineWork(Decide(db, fs), fs));
      r.ok && CoversBut(r.db.schema, Parse(fs.baseline), PendingChanges(fs.incrementals))
  {
    var plan := Decide(db, fs);
    if plan.applyBaseline {
      NothingUnexplained(fs, db);
      BaselineCompletes(fs, db);
      PlaySplit(db, Dos(fs.baseline.Stmts()), Notes(plan.record));
      NotesKeepSchema(Play(db, Dos(fs.baseline.Stmts())).db, plan.record);
    } else {
      MatchesMeansCovered(Parse(fs.baseline), db.schema, {"schema_migrations"}, PendingChanges(fs.incrementals));
      assert BaselineWork(plan, fs) == Notes(plan.record);
      NotesKeepSchema(db, plan.record);
    }
  }

  /**
   Whichever way an unrecorded database was taken on (from nothing, resumed or adopted as it
   stands), a run that finishes leaves every table, column and index the baseline asks for exactly
   when no incremental file takes one away: drops it, or renames it away, with no later one putting
   it back.
   */
  lemma FinishedRunIsComplete(db: Db, fs: Files)
    requires fs.baseline.WellFormed() && Decide(db, fs).safe && fs.baselineName !in db.records
    requires forall k :: 0 <= k < |fs.incrementals| ==> fs.incrementals[k].name !in db.records
    requires Play(db, Work(Decide(db, fs), fs)).ok
    ensures Covers(Play(db, Work(Decide(db, fs), fs)).db.schema, Parse(fs.baseline))
            <==> TakesAwayNothingExpected(fs.incrementals, Parse(fs.baseline))
  {
    var plan := Decide(db, fs);
    BaselineWorkCovers(db, fs);
    PlaySplit(db, BaselineWork(plan, fs), Pending(fs.incrementals, plan.pending));
    PendingIsWhatIsNotRecorded(db, fs);
    forall k | 0 <= k < |fs.incrementals| ensures fs.incrementals[k].name in plan.pending {
      assert Names(fs.incrementals)[k] in Names(fs.incrementals);
    }
    FilesDeliver(Play(db, BaselineWork(plan, fs)).db, fs.incrementals, plan.pending, Parse(fs.baseline));
  }

  // ---- Once the baseline is on record ------------------------------------------------------

  /** From then on no crash is refused and no file that was recorded is run again. */
  lemma CrashKeepsProgress(db: Db, fs: Files, limit: nat)
    requires fs.baselineName in db.records
    requires Unhandled(fs.sources, fs.covered, Names(fs.incrementals)) == []
    ensures var after := Run(db, fs, limit).db;
      && Decide(after, fs).safe
      && (forall f :: f in Decide(after, fs).pending ==> f in Decide(db, fs).pending && f !in after.records)
      && db.records <= after.records
  {
    RecordsStay(db, Cut(Work(Decide(db, fs), fs), limit));
  }

  // ---- When a run is stopped by its own records --------------------------------------------

  /** The statements among the events, one after the other. */
  function ExecAll(s: Schema, es: seq<Event>): Option<Schema>
    decreases |es|
  {
    if es == [] then Some(s)
    else if es[0].Do? then
      var t := Exec(s, es[0].stmt);
      if t == None then None else ExecAll(t.value, es[1..])
    else ExecAll(s, es[1..])
  }

  /** Whether every plain insert of a record finds its name free. */
  predicate InsertsAreNew(records: set<string>, es: seq<Event>)
    decreases |es|
  {
    es == [] ||
    match es[0]
    case Do(_) => InsertsAreNew(records, es[1..])
    case Note(name) => InsertsAreNew(records + {name}, es[1..])
    case Log(name) => name !in records && InsertsAreNew(records + {name}, es[1..])
  }

  lemma {:induction false} RunsToTheEnd(db: Db, es: seq<Event>)
    ensures Play(db, es).ok <==> ExecAll(db.schema, es) != None && InsertsAreNew(db.records, es)
    decreases |es|
  {
    if es != [] && Occur(db, es[0]) != None { RunsToTheEnd(Occur(db, es[0]).value, es[1..]); }
  }

  lemma {:induction false} InsertsAfterDos(records: set<string>, stmts: seq<Stmt>, es: seq<Event>)
    ensures InsertsAreNew(records, Dos(stmts) + es) == InsertsAreNew(records, es)
    decreases |stmts|
  {
    if stmts == [] {
      assert Dos(stmts) + es == es;
    } else {
      assert (Dos(stmts) + es)[1..] == Dos(stmts[1..]) + es && (Dos(stmts) + es)[0] == Do(stmts[0]);
      InsertsAfterDos(records, stmts[1..], es);
    }
  }

  lemma {:induction false} InsertsAfterNotes(records: set<string>, names: seq<string>, es: seq<Event>)
    ensures InsertsAreNew(records, Notes(names) + es) == InsertsAreNew(records + (set n | n in names), es)
    decreases |names|
  {
    if names == [] {
      assert Notes(names) + es == es && records + (set n | n in names) == records;
    } else {
      assert (Notes(names) + es)[1..] == Notes(names[1..]) + es && (Notes(names) + es)[0] == Note(names[0]);
      InsertsAfterNotes(records + {names[0]}, names[1..], es);
      assert records + {names[0]} + (set n | n in names[1..]) == records + (set n | n in names);
    }
  }

  predicate Distinct(files: seq<File>) { forall i, j :: 0 <= i < j < |files| ==> files[i].name != files[j].name }

  lemma {:induction false} PendingInserts(records: set<string>, files: seq<File>, pending: seq<string>)
    requires Distinct(files)
    ensures InsertsAreNew(records, Pending(files, pending))
            <==> forall k :: 0 <= k < |files| && files[k].name in pending ==> files[k].name !in records
    decreases |files|
  {
    if files != [] {
      var name, rest := files[0].name, Pending(files[1..], pending);
      if name in pending {
        var tail := [Log(name)] + rest;
        assert Pending(files, pending) == Dos(files[0].stmts) + tail;
        InsertsAfterDos(records, files[0].stmts, tail);
        assert tail[1..] == rest;
        PendingInserts(records + {name}, files[1..], pending);
      } else {
        PendingInserts(records, files[1..], pending);
      }
    }
  }

  lemma WorkAfterNotes(records: set<string>, plan: Plan, fs: Files)
    ensures InsertsAreNew(records, Work(plan, fs))
            <==> InsertsAreNew(records + (set n | n in plan.record), Pending(fs.incrementals, plan.pending))
  {
    var es := Pending(fs.incrementals, plan.pending);
    InsertsAfterNotes(records, plan.record, es);
    if plan.applyBaseline {
      assert Work(plan, fs) == Dos(fs.baseline.Stmts()) + (Notes(plan.record) + es);
      InsertsAfterDos(records, fs.baseline.Stmts(), Notes(plan.record) + es);
    } else {
      assert Work(plan, fs) == Notes(plan.record) + es;
    }
  }

  lemma WorkInserts(records: set<string>, plan: Plan, fs: Files)
    requires Distinct(fs.incrementals)
    requires forall f :: f in plan.pending <==> f in Names(fs.incrementals) && f !in records
    ensures InsertsAreNew(records, Work(plan, fs)) <==> forall f :: f in plan.pending ==> f !in plan.record
  {
    var noted := records + (set n | n in plan.record);
    WorkAfterNotes(records, plan, fs);
    PendingInserts(noted, fs.incrementals, plan.pending);
    forall f | f in plan.pending ensures exists k :: 0 <= k < |fs.incrementals| && fs.incrementals[k].name == f {
      var k :| 0 <= k < |fs.incrementals| && Names(fs.incrementals)[k] == f;
      assert fs.incrementals[k].name == f;
    }
  }

  /**
   When no statement fails, a safe plan is carried out to the end exactly when no file it has to
   run is also among the names it records for the baseline.
   */
  lemma StoppedByCoveredFiles(db: Db, fs: Files)
    requires Decide(db, fs).safe && Distinct(fs.incrementals)
    requires ExecAll(db.schema, Work(Decide(db, fs), fs)) != None
    ensures Play(db, Work(Decide(db, fs), fs)).ok
            <==> forall f :: f in Decide(db, fs).pending ==> f !in Decide(db, fs).record
  {
    var plan := Decide(db, fs);
    RunsToTheEnd(db, Work(plan, fs));
    PendingIsWhatIsNotRecorded(db, fs);
    WorkInserts(db.records, plan, fs);
  }

  lemma {:induction false} ExecPrefix(s: Schema, a: seq<Event>, b: seq<Event>)
    requires ExecAll(s, a + b) != None
    ensures ExecAll(s, a) != None
    decreases |a|
  {
    if a != [] {
      assert (a + b)[0] == a[0] && (a + b)[1..] == a[1..] + b;
      ExecPrefix(if a[0].Do? then Exec(s, a[0].stmt).value else s, a[1..], b);
    }
  }

  lemma BaselineInserts(records: set<string>, plan: Plan, fs: Files)
    ensures InsertsAreNew(records, BaselineWork(plan, fs))
  {
    var notes := Notes(plan.record);
    assert notes + [] == notes;
    InsertsAfterNotes(records, plan.record, []);
    if plan.applyBaseline {
      InsertsAfterDos(records, fs.baseline.Stmts(), notes);
    } else {
      assert BaselineWork(plan, fs) == notes;
    }
  }

  lemma RecordHasBaseline(db: Db, fs: Files)
    requires Decide(db, fs).safe && fs.baselineName !in db.records
    ensures Decide(db, fs).record == [fs.baselineName] + fs.covered
  {
  }

  /** Whatever a run had to insert, its own records of the baseline are written before it. */
  lemma BaselineIsRecorded(db: Db, fs: Files)
    requires Decide(db, fs).safe && ExecAll(db.schema, Work(Decide(db, fs), fs)) != None
    ensures fs.baselineName in Play(db, Work(Decide(db, fs), fs)).db.records
  {
    var plan := Decide(db, fs);
    var first, rest := BaselineWork(plan, fs), Pending(fs.incrementals, plan.pending);
    ExecPrefix(db.schema, first, rest);
    RunsToTheEnd(db, first);
    BaselineInserts(db.records, plan, fs);
    PlaySplit(db, first, rest);
    BaselineRecords(db, fs);
    RecordsStay(Play(db, first).db, rest);
    if fs.baselineName !in db.records { RecordHasBaseline(db, fs); }
  }

  /** So two runs whose statements do not fail always end up to date, whatever the first ran into. */
  lemma TwoRunsSuffice(db: Db, fs: Files)
    requires Decide(db, fs).safe && Distinct(fs.incrementals)
    requires Unhandled(fs.sources, fs.covered, Names(fs.incrementals)) == []
    requires ExecAll(db.schema, Work(Decide(db, fs), fs)) != None
    requires var once := Play(db, Work(Decide(db, fs), fs)).db;
      ExecAll(once.schema, Work(Decide(once, fs), fs)) != None
    ensures var once := Play(db, Work(Decide(db, fs), fs)).db;
      var twice := Play(once, Work(Decide(once, fs), fs)).db;
      Decide(twice, fs).action == UpToDate
  {
    var once := Play(db, Work(Decide(db, fs), fs)).db;
    BaselineIsRecorded(db, fs);
    assert Decide(once, fs).safe && Decide(once, fs).record == [];
    StoppedByCoveredFiles(once, fs);
    FinishedRunConverges(once, fs);
  }
}
