/** Comparing a database with the baseline. */
module SchemaVerify {

  datatype Table = Table(columns: set<string>, indexes: set<string>)

  type Schema = map<string, Table>

  /** A column or an index of a named table. */
  datatype Ref = Ref(table: string, name: string)

  /** What migrations that have not run yet are going to add. */
  datatype Promised = Promised(columns: set<Ref>, indexes: set<Ref>)

  datatype Verification = Verification(
    matches: bool,
    missingTables: set<string>,
    missingColumns: set<Ref>,
    missingIndexes: set<Ref>,
    explained: set<Ref>,
    extraTables: set<string>)

  predicate HasColumn(s: Schema, r: Ref) { r.table in s && r.name in s[r.table].columns }

  predicate HasIndex(s: Schema, r: Ref) { r.table in s && r.name in s[r.table].indexes }

  predicate LacksColumn(expected: Schema, actual: Schema, r: Ref) {
    r.table in actual && HasColumn(expected, r) && !HasColumn(actual, r)
  }

  predicate LacksIndex(expected: Schema, actual: Schema, r: Ref) {
    r.table in actual && HasIndex(expected, r) && !HasIndex(actual, r)
  }

  function Columns(s: Schema): set<Ref> { set t, c | t in s && c in s[t].columns :: Ref(t, c) }

  function Indexes(s: Schema): set<Ref> { set t, i | t in s && i in s[t].indexes :: Ref(t, i) }

  /** The columns, and the indexes, that tables of the database lack. */
  function LackedColumns(expected: Schema, actual: Schema): set<Ref> {
    set r | r in Columns(expected) && LacksColumn(expected, actual, r)
  }

  function LackedIndexes(expected: Schema, actual: Schema): set<Ref> {
    set r | r in Indexes(expected) && LacksIndex(expected, actual, r)
  }

  /** What the comparison has to report. */
  function Compare(expected: Schema, actual: Schema, ignore: set<string>, promised: Promised): Verification {
    var tables := set t | t in expected && t !in actual;
    var columns, indexes := LackedColumns(expected, actual), LackedIndexes(expected, actual);
    Verification(
      tables == {} && columns <= promised.columns && indexes <= promised.indexes,
      tables,
      columns - promised.columns,
      indexes - promised.indexes,
      columns * promised.columns + indexes * promised.indexes,
      Extra(expected, actual, ignore))
  }

  function Extra(expected: Schema, actual: Schema, ignore: set<string>): set<string> {
    set t | t in actual && t !in expected && t !in ignore
  }

  /** The refs of one table among a list of names. */
  function RefsOf(table: string, names: set<string>): set<Ref> { set n | n in names :: Ref(table, n) }

  method Sift(table: string, wanted: set<string>, have: set<string>, promised: set<Ref>)
    returns (missing: set<Ref>, explained: set<Ref>)
    ensures missing == RefsOf(table, wanted - have) - promised
    ensures explained == RefsOf(table, wanted - have) * promised
  {
    missing, explained := {}, {};
    var todo := wanted;
    while todo != {}
      invariant todo <= wanted
      invariant missing == RefsOf(table, wanted - todo - have) - promised
      invariant explained == RefsOf(table, wanted - todo - have) * promised
      decreases |todo|
    {
      var name :| name in todo;
      ghost var done := wanted - todo - have;
      todo := todo - {name};
      assert name in have ==> wanted - todo - have == done;
      if name in have { continue; }
      assert wanted - todo - have == done + {name};
      assert RefsOf(table, done + {name}) == RefsOf(table, done) + {Ref(table, name)};
      if Ref(table, name) in promised {
        explained := explained + {Ref(table, name)};
      } else {
        missing := missing + {Ref(table, name)};
      }
    }
    assert wanted - todo - have == wanted - have;
  }

  /** The part of a schema with the given tables. */
  function Only(s: Schema, tables: set<string>): Schema { map t | t in s && t in tables :: s[t] }

  lemma OneMoreLacked(expected: Schema, actual: Schema, done: set<string>, name: string)
    requires name in expected && name !in done
    ensures var e0, e1 := Only(expected, done), Only(expected, done + {name});
      if name !in actual then
        LackedColumns(e1, actual) == LackedColumns(e0, actual) && LackedIndexes(e1, actual) == LackedIndexes(e0, actual)
      else
        && LackedColumns(e1, actual) == LackedColumns(e0, actual) + RefsOf(name, expected[name].columns - actual[name].columns)
        && LackedIndexes(e1, actual) == LackedIndexes(e0, actual) + RefsOf(name, expected[name].indexes - actual[name].indexes)
  {
  }

  lemma SplitPromised(a: set<Ref>, b: set<Ref>, promised: set<Ref>)
    ensures (a + b) - promised == (a - promised) + (b - promised)
    ensures (a + b) * promised == a * promised + b * promised
  {
  }

  lemma OneMoreTable(expected: Schema, actual: Schema, done: set<string>, name: string,
                     ignore: set<string>, promised: Promised)
    requires name in expected && name !in done
    ensures var before, after := Compare(Only(expected, done), actual, ignore, promised),
                                 Compare(Only(expected, done + {name}), actual, ignore, promised);
      if name !in actual then
        && after.missingTables == before.missingTables + {name}
        && after.missingColumns == before.missingColumns
        && after.missingIndexes == before.missingIndexes
        && after.explained == before.explained
      else
        var cols := RefsOf(name, expected[name].columns - actual[name].columns);
        var idxs := RefsOf(name, expected[name].indexes - actual[name].indexes);
        && after.missingTables == before.missingTables
        && after.missingColumns == before.missingColumns + (cols - promised.columns)
        && after.missingIndexes == before.missingIndexes + (idxs - promised.indexes)
        && after.explained == before.explained + cols * promised.columns + idxs * promised.indexes
  {
    var e0 := Only(expected, done);
    OneMoreLacked(expected, actual, done, name);
    if name in actual {
      SplitPromised(LackedColumns(e0, actual), RefsOf(name, expected[name].columns - actual[name].columns), promised.columns);
      SplitPromised(LackedIndexes(e0, actual), RefsOf(name, expected[name].indexes - actual[name].indexes), promised.indexes);
    }
  }

  /** What the loops have collected once they have been through some of the tables. */
  ghost predicate Collected(expected: Schema, actual: Schema, promised: Promised, done: set<string>,
                            tables: set<string>, columns: set<Ref>, indexes: set<Ref>, explained: set<Ref>) {
    var c := Compare(Only(expected, done), actual, {}, promised);
    tables == c.missingTables && columns == c.missingColumns && indexes == c.missingIndexes && explained == c.explained
  }

  lemma AbsentTable(expected: Schema, actual: Schema, promised: Promised, done: set<string>, name: string,
                    tables: set<string>, columns: set<Ref>, indexes: set<Ref>, explained: set<Ref>)
    requires Collected(expected, actual, promised, done, tables, columns, indexes, explained)
    requires name in expected && name !in done && name !in actual
    ensures Collected(expected, actual, promised, done + {name}, tables + {name}, columns, indexes, explained)
  {
    OneMoreTable(expected, actual, done, name, {}, promised);
  }

  lemma PresentTable(expected: Schema, actual: Schema, promised: Promised, done: set<string>, name: string,
                     tables: set<string>, columns: set<Ref>, indexes: set<Ref>, explained: set<Ref>)
    requires Collected(expected, actual, promised, done, tables, columns, indexes, explained)
    requires name in expected && name !in done && name in actual
    ensures var cols := RefsOf(name, expected[name].columns - actual[name].columns);
      var idxs := RefsOf(name, expected[name].indexes - actual[name].indexes);
      Collected(expected, actual, promised, done + {name}, tables, columns + (cols - promised.columns),
                indexes + (idxs - promised.indexes), explained + cols * promised.columns + idxs * promised.indexes)
  {
    OneMoreTable(expected, actual, done, name, {}, promised);
  }

  lemma NothingCollected(expected: Schema, actual: Schema, promised: Promised)
    ensures Collected(expected, actual, promised, {}, {}, {}, {}, {})
  {
    assert Only(expected, {}) == map[];
    assert Columns(map[]) == {} && Indexes(map[]) == {};
  }

  lemma AllCollected(expected: Schema, actual: Schema, ignore: set<string>, promised: Promised,
                     tables: set<string>, columns: set<Ref>, indexes: set<Ref>, explained: set<Ref>)
    requires Collected(expected, actual, promised, expected.Keys, tables, columns, indexes, explained)
    ensures Verification(tables == {} && columns == {} && indexes == {}, tables, columns, indexes, explained,
                         Extra(expected, actual, ignore))
            == Compare(expected, actual, ignore, promised)
  {
    assert Only(expected, expected.Keys) == expected;
    MatchesWhenNothingIsMissing(expected, actual, ignore, promised);
  }

  lemma InsideMeansNothingLeft(a: set<Ref>, promised: set<Ref>)
    ensures a <= promised <==> a - promised == {}
  {
    if a - promised == {} {
      forall r | r in a ensures r in promised { assert r in promised || r in a - promised; }
    }
  }

  lemma MatchesWhenNothingIsMissing(expected: Schema, actual: Schema, ignore: set<string>, promised: Promised)
    ensures var c := Compare(expected, actual, ignore, promised);
      c.matches == (c.missingTables == {} && c.missingColumns == {} && c.missingIndexes == {})
  {
    InsideMeansNothingLeft(LackedColumns(expected, actual), promised.columns);
    InsideMeansNothingLeft(LackedIndexes(expected, actual), promised.indexes);
  }

  lemma OneDone(keys: set<string>, todo: set<string>, name: string)
    requires todo <= keys && name in todo
    ensures keys - todo + {name} == keys - (todo - {name}) && name !in keys - todo
  {
  }

  method CompareSchema(expected: Schema, actual: Schema, ignore: set<string>, promised: Promised)
    returns (v: Verification)
    ensures v == Compare(expected, actual, ignore, promised)
  {
    var missingTables: set<string>, missingColumns: set<Ref>, missingIndexes: set<Ref>, explained: set<Ref> :=
      {}, {}, {}, {};
    var todo := expected.Keys;
    NothingCollected(expected, actual, promised);
    assert expected.Keys - todo == {};
    while todo != {}
      invariant todo <= expected.Keys
      invariant Collected(expected, actual, promised, expected.Keys - todo, missingTables, missingColumns,
                          missingIndexes, explained)
      decreases |todo|
    {
      var name :| name in todo;
      ghost var done := expected.Keys - todo;
      OneDone(expected.Keys, todo, name);
      todo := todo - {name};
      var want := expected[name];
      if name !in actual {
        AbsentTable(expected, actual, promised, done, name, missingTables, missingColumns, missingIndexes, explained);
        missingTables := missingTables + {name};
        continue;
      }
      PresentTable(expected, actual, promised, done, name, missingTables, missingColumns, missingIndexes, explained);
      var have := actual[name];
      var columns, known := Sift(name, want.columns, have.columns, promised.columns);
      missingColumns, explained := missingColumns + columns, explained + known;
      columns, known := Sift(name, want.indexes, have.indexes, promised.indexes);
      missingIndexes, explained := missingIndexes + columns, explained + known;
    }
    assert expected.Keys - todo == expected.Keys;
    AllCollected(expected, actual, ignore, promised, missingTables, missingColumns, missingIndexes, explained);
    var extraTables := Extra(expected, actual, ignore);
    var matches := missingTables == {} && missingColumns == {} && missingIndexes == {};
    v := Verification(matches, missingTables, missingColumns, missingIndexes, explained, extraTables);
  }

  /** Every expected table, column and index is there. */
  ghost predicate Covers(actual: Schema, expected: Schema) {
    && (forall t :: t in expected ==> t in actual)
    && (forall r :: HasColumn(expected, r) ==> HasColumn(actual, r))
    && (forall r :: HasIndex(expected, r) ==> HasIndex(actual, r))
  }

  /** Every expected table is there, and so is every column and index that nothing is about to add. */
  ghost predicate CoversBut(actual: Schema, expected: Schema, promised: Promised) {
    && (forall t :: t in expected ==> t in actual)
    && (forall r :: HasColumn(expected, r) ==> HasColumn(actual, r) || r in promised.columns)
    && (forall r :: HasIndex(expected, r) ==> HasIndex(actual, r) || r in promised.indexes)
  }

  /**
   A database matches exactly when everything the baseline asks for is there or about to be added;
   tables of its own never stand in the way.
   */
  lemma MatchesMeansCovered(expected: Schema, actual: Schema, ignore: set<string>, promised: Promised)
    ensures Compare(expected, actual, ignore, promised).matches <==> CoversBut(actual, expected, promised)
  {
    var v := Compare(expected, actual, ignore, promised);
    if v.matches {
      forall t | t in expected ensures t in actual {
        assert t !in v.missingTables;
      }
      forall r | HasColumn(expected, r) && !HasColumn(actual, r) ensures r in promised.columns {
        assert r in Columns(expected) && LacksColumn(expected, actual, r);
      }
      forall r | HasIndex(expected, r) && !HasIndex(actual, r) ensures r in promised.indexes {
        assert r in Indexes(expected) && LacksIndex(expected, actual, r);
      }
    }
  }
}
