/** The run with the engine's own statements: every step is accepted, every commit acknowledged, the crash
    strikes a clean log, and the database does not open again (src/sql/database.rs). */
module UnopenableDatabase {
  import opened Wrappers
  import opened Ascii
  import opened Values
  import opened Syntax
  import opened Planner
  import opened Bloom
  import opened Relations
  import opened Tables
  import opened TableEngine
  import opened Evaluator
  import opened Statements
  import opened Ddl
  import opened SchemaInvariants
  import opened Execute
  import opened Transactions
  import opened SqlDurability
  import opened ReplayLimits
  import ReplayRun

  const ID := ColumnDef("id", IntegerType, true, false, false, None, [])

  const KEY := IndexDef("k", ["id"], false, false)

  const CREATE_TABLE := CreateTable("t", [ID], [], false)

  const CREATE_INDEX := CreateIndex("k", "t", ["id"], false, false)

  const INSERT_ROW := Insert("t", None, ValueRows([[Literal(Integer(1))]]), [])

  /** t without an index, and then with one, still without rows. */
  function Created(): Db {
    map["t" := Indexed(TableSchema("t", [ID], [], []), [], [], 1, [])]
  }

  function WithIndex(): Db {
    map["t" := Indexed(TableSchema("t", [ID], [], [KEY]), [], [], 1, [BTreeIndex(KEY, map[], BloomBits([0xFFFF_FFFF_FFFF_FFFF], 1))])]
  }

  /** A write that changes the meaning to m, which satisfies everything, may leave any valid store of m. */
  lemma ExecutesTo(db: Db, s: Statement, m: Db, next: Db)
    requires Writable(s) && StoredChange(db, s) == Ok(m) && ConstraintsHold(m) && ValidStore(next) && MeaningOf(next) == m
    ensures Executes(db, s, Ok(next))
  {
  }

  // --------------------------------------------------------------------- CREATE TABLE

  lemma EmptyTableIsOk(t: Table, indexes: seq<IndexDef>)
    requires t.schema == TableSchema("t", [ID], [], indexes) && t.rows == [] && (indexes == [] || indexes == [KEY])
    ensures TableOk(t) && forall db :: TableSatisfies(db, t)
  {
    assert Lower("id") == "id" && ColumnIndex([ID], "id") == Some(0);
  }

  lemma CreatedIsStored(db: Db)
    requires db == Created()
    ensures ValidStore(db) && MeaningOf(db) == map["t" := Plain(TableSchema("t", [ID], [], []), [])]
  {
    EmptyTableIsOk(db["t"], []);
    var none: set<IndexDef> := {};
    assert DefinitionsOf([]) == none && Effective([]) == none;
  }

  lemma CreateChanges(db: Db, s: Statement)
    requires db == map[] && s == CREATE_TABLE
    ensures StoredChange(db, s) == Ok(map["t" := Plain(TableSchema("t", [ID], [], []), [])])
  {
    assert MeaningOf(db) == map[] && Lower("t") == "t";
    assert FlagPrimaryKeys([ID], []) == [ID] && ConstraintIndexes("t", []) == [];
    assert [ID][..0] == [] && ColumnIndexes("t", [], []) == [] && ColumnIndexes("t", [ID], []) == [];
    assert map[]["t" := Plain(TableSchema("t", [ID], [], []), [])] == map["t" := Plain(TableSchema("t", [ID], [], []), [])];
  }

  lemma EmptyIsAccepted(m: Db, indexes: seq<IndexDef>)
    requires m == map["t" := Plain(TableSchema("t", [ID], [], indexes), [])] && (indexes == [] || indexes == [KEY])
    ensures ConstraintsHold(m)
  {
    EmptyTableIsOk(m["t"], indexes);
  }

  lemma CreateRuns(db: Db, s: Statement, m: Db, next: Db)
    requires db == map[] && s == CREATE_TABLE && next == Created() && m == map["t" := Plain(TableSchema("t", [ID], [], []), [])]
    ensures Executes(db, s, Ok(next))
  {
    CreateChanges(db, s);
    CreatedIsStored(next);
    EmptyIsAccepted(m, []);
    ExecutesTo(db, s, m, next);
  }

  // --------------------------------------------------------------------- CREATE INDEX

  lemma IndexIsStored(db: Db)
    requires db == WithIndex()
    ensures ValidStore(db) && MeaningOf(db) == map["t" := Plain(TableSchema("t", [ID], [], [KEY]), [])]
  {
    var t := db["t"];
    EmptyTableIsOk(t, [KEY]);
    assert t.indexes[0].entries == EntriesOf([ID], ["id"], [], []);
    assert [KEY][..0] == [] && Effective([KEY]) == {KEY};
    assert t.indexes[0].definition in DefinitionsOf(t.indexes);
    assert DefinitionsOf(t.indexes) == {KEY};
  }

  lemma IndexChanges(db: Db, s: Statement)
    requires MeaningOf(db) == map["t" := Plain(TableSchema("t", [ID], [], []), [])] && s == CREATE_INDEX
    ensures StoredChange(db, s) == Ok(map["t" := Plain(TableSchema("t", [ID], [], [KEY]), [])])
  {
    assert Lower("t") == "t" && Lower("k") == "k" && Lower("id") == "id" && ColumnIndex([ID], "id") == Some(0);
    assert [] + [KEY] == [KEY];
    assert MeaningOf(db)["t" := Plain(TableSchema("t", [ID], [], [KEY]), [])] == map["t" := Plain(TableSchema("t", [ID], [], [KEY]), [])];
  }

  lemma IndexRuns(db: Db, s: Statement, m: Db, next: Db)
    requires MeaningOf(db) == map["t" := Plain(TableSchema("t", [ID], [], []), [])] && s == CREATE_INDEX
    requires next == WithIndex() && m == map["t" := Plain(TableSchema("t", [ID], [], [KEY]), [])]
    ensures Executes(db, s, Ok(next))
  {
    IndexChanges(db, s);
    IndexIsStored(next);
    EmptyIsAccepted(m, [KEY]);
    ExecutesTo(db, s, m, next);
  }

  // --------------------------------------------------------------------------- INSERT

  lemma ProposedOne(db: Db, source: InsertSource)
    requires source == ValueRows([[Literal(Integer(1))]])
    ensures ProposedRows(db, source) == Ok([[Integer(1)]])
  {
    var values := EvalConstants([Literal(Integer(1))]);
    assert values[0] == EvalConstant(Literal(Integer(1))) && EvalConstant(Literal(Integer(1))) == Ok(Integer(1));
    assert Collect(values).Ok? && Collect(values).value == [Integer(1)];
    var rows := ConstantRows([[Literal(Integer(1))]]);
    assert rows[0] == Collect(values);
    assert Collect(rows).Ok? && Collect(rows).value == [[Integer(1)]];
  }

  lemma PreparedOne(columns: seq<ColumnDef>, rows: seq<Row>)
    requires columns == [ID] && rows == [[Integer(1)]]
    ensures Collect(PrepareRows(columns, None, rows)) == Ok([[Integer(1)]])
  {
    assert CompleteRow(columns, rows[0]) == [Integer(1)];
    var prepared := PrepareRows(columns, None, rows);
    assert prepared[0] == Ok([Integer(1)]);
    assert Collect(prepared).Ok? && Collect(prepared).value == [[Integer(1)]];
  }

  lemma InsertedOne(db: Db, schema: TableSchema, incoming: seq<Row>)
    requires schema == TableSchema("t", [ID], [], [KEY]) && incoming == [[Integer(1)]]
    ensures InsertRows(db, "t", schema, [], incoming, []) == Ok(Effect([[Integer(1)]], 1))
  {
    var row := incoming[0];
    assert ConflictPositions(schema, [], row) == {} && ValidateRow(schema, row);
    assert [] + [row] == incoming;
    assert InsertRow(db, "t", schema, [], row, []) == Ok(Effect(incoming, 1));
    assert incoming[..0] == [] && InsertRows(db, "t", schema, [], [], []) == Ok(Effect([], 0));
  }

  lemma InsertChanges(db: Db, s: Statement)
    requires db == WithIndex() && s == INSERT_ROW
    ensures StoredRows(db, s) == Ok(Effect([[Integer(1)]], 1))
  {
    assert Lower("t") == "t" && "t" in db;
    ProposedOne(db, s.source);
    PreparedOne(db["t"].schema.columns, [[Integer(1)]]);
    InsertedOne(db, db["t"].schema, [[Integer(1)]]);
  }

  lemma InsertDecided(db: Db, s: Statement, effect: Effect, m: Db)
    requires s.Insert? && StoredRows(db, s) == Ok(effect) && WithRows(db, Lower(s.table), Ok(effect)) == Ok(m)
    ensures StoredChange(db, s) == Ok(m)
  {
  }

  lemma RowsOfCatalog(db: Db)
    requires db == WithIndex()
    ensures WithRows(db, "t", Ok(Effect([[Integer(1)]], 1))) == Ok(MeaningOf(OneRowCatalog()))
  {
    assert MeaningOf(db)["t" := Plain(db["t"].schema, [[Integer(1)]])] == MeaningOf(OneRowCatalog());
  }

  lemma InsertRuns(db: Db, s: Statement, m: Db, next: Db)
    requires db == WithIndex() && s == INSERT_ROW && next == OneRowCatalog() && m == MeaningOf(next)
    ensures Executes(db, s, Ok(next))
  {
    assert Lower("t") == "t";
    InsertChanges(db, s);
    RowsOfCatalog(db);
    InsertDecided(db, s, Effect([[Integer(1)]], 1), m);
    CatalogIsValid(next);
    CatalogIsAccepted(next);
    ExecutesTo(db, s, m, next);
  }

  // --------------------------------------------------------------------------- the run

  lemma InsertIsLive(d: DurableStatement)
    requires d == Sql(INSERT_ROW)
    ensures Live(d) == INSERT_ROW
  {
    var rows := [[Literal(Integer(1))]];
    assert FoldExpr(rows[0][0]) == rows[0][0];
    assert FoldAll(rows[0]) == rows[0];
    assert seq(|rows|, i requires 0 <= i < |rows| => FoldAll(rows[i])) == rows;
    assert OptimizeAssignments([]) == [];
  }

  lemma DeletionRuns(db: Db, d: DurableStatement)
    requires db == OneRowCatalog() && d == Deletion()
    ensures Executes(db, Live(d), Ok(db))
  {
    DeletionIsOrdinary();
    LiveIsAccepted(db, Live(d));
    CatalogIsValid(db);
  }

  /** On every store of the tables where the deletion was accepted, replay of it fails. */
  lemma ReplayHasNoChoice(d: DurableStatement, db: Db, r: Result<Db>)
    requires d == Deletion() && MeaningOf(db) == MeaningOf(OneRowCatalog())
    ensures Executes(db, Raw(d), Err)
    ensures Executes(db, Raw(d), r) ==> r.Err?
  {
    DeletionIsOrdinary();
    ReplayIsRefused(db, Raw(d));
  }

  lemma EmptyTableIsValid(db: Db, m: Db, indexes: seq<IndexDef>)
    requires ValidStore(db) && MeaningOf(db) == m && m == map["t" := Plain(TableSchema("t", [ID], [], indexes), [])] && (indexes == [] || indexes == [KEY])
    ensures ValidTables(db)
  {
    EmptyIsAccepted(m, indexes);
  }

  type Tongue = Language<Db, Db, DurableStatement, Query, Result<Relation>>

  /** A language with the engine's statements; SqlLanguage is one. */
  ghost predicate SpeaksSql(L: Tongue) {
    && L.empty == map[]
    && (forall db :: ValidTables(db) ==> L.valid(db))
    && (forall db :: L.meaning(db) == MeaningOf(db))
    && (forall db, d, r :: Executes(db, Live(d), r) ==> L.runs(db, d, r))
    && (forall db, d, r :: L.replays(db, d, r) <==> Executes(db, Raw(d), r))
  }

  lemma SqlSpeaks(L: Tongue)
    requires L == SqlLanguage()
    ensures SpeaksSql(L)
  {
  }

  /** One statement of the language, run to a valid store. */
  lemma Spoken(L: Tongue, db: Db, d: DurableStatement, next: Db)
    requires SpeaksSql(L) && Executes(db, Live(d), Ok(next)) && ValidTables(next)
    ensures L.runs(db, d, Ok(next)) && L.valid(next)
  {
  }

  lemma CreatePrepared(L: Tongue) returns (d: DurableStatement, t: Db)
    requires SpeaksSql(L)
    ensures L.runs(L.empty, d, Ok(t)) && L.valid(t) && t == Created()
  {
    d, t := Sql(CREATE_TABLE), Created();
    var m := map["t" := Plain(TableSchema("t", [ID], [], []), [])];
    CreateRuns(map[], CREATE_TABLE, m, t);
    CreatedIsStored(t);
    EmptyTableIsValid(t, m, []);
    Spoken(L, map[], d, t);
  }

  lemma IndexPrepared(L: Tongue, t: Db) returns (d: DurableStatement, u: Db)
    requires SpeaksSql(L) && t == Created()
    ensures L.runs(t, d, Ok(u)) && L.valid(u) && u == WithIndex()
  {
    d, u := Sql(CREATE_INDEX), WithIndex();
    var m := map["t" := Plain(TableSchema("t", [ID], [], [KEY]), [])];
    CreatedIsStored(t);
    IndexRuns(t, CREATE_INDEX, m, u);
    IndexIsStored(u);
    EmptyTableIsValid(u, m, [KEY]);
    Spoken(L, t, d, u);
  }

  lemma InsertPrepared(L: Tongue, u: Db) returns (d: DurableStatement, t: Db)
    requires SpeaksSql(L) && u == WithIndex()
    ensures L.runs(u, d, Ok(t)) && L.valid(t) && t == OneRowCatalog()
  {
    d, t := Sql(INSERT_ROW), OneRowCatalog();
    InsertIsLive(d);
    InsertRuns(u, INSERT_ROW, MeaningOf(t), t);
    CatalogIsValid(t);
    Spoken(L, u, d, t);
  }

  /** The deletion runs; and no store of its tables lets it be replayed. */
  lemma DeletionPrepared(L: Tongue, t: Db) returns (d: DurableStatement)
    requires SpeaksSql(L) && t == OneRowCatalog()
    ensures L.runs(t, d, Ok(t))
    ensures forall u :: Same(L, t, u) ==> L.replays(u, d, Err) && forall r :: L.replays(u, d, r) ==> r.Err?
  {
    d := Deletion();
    DeletionRuns(t, d);
    CatalogIsValid(t);
    Spoken(L, t, d, t);
    forall u | Same(L, t, u) ensures L.replays(u, d, Err) && forall r :: L.replays(u, d, r) ==> r.Err? {
      ReplayHasNoChoice(d, u, Err);
      forall r | L.replays(u, d, r) ensures r.Err? {
        ReplayHasNoChoice(d, u, r);
      }
    }
  }

  lemma SpokenStatements(L: Tongue) returns (s: seq<DurableStatement>, t: seq<Db>)
    requires SpeaksSql(L)
    ensures ReplayRun.Unreplayable(L, s, t)
  {
    var d0, t0 := CreatePrepared(L);
    var d1, t1 := IndexPrepared(L, t0);
    var d2, t2 := InsertPrepared(L, t1);
    var d3 := DeletionPrepared(L, t2);
    s, t := [d0, d1, d2, d3], [t0, t1, t2, t2];
  }

  /** There is a run of the engine whose four commits are all acknowledged, whose only crash strikes a clean
      log, and after which the database can only fail to open. */
  lemma RunsCanEndUnopenable() returns (states: seq<SqlSystem>, actions: seq<SqlAction>)
    ensures ReplayRun.EndsUnopenable(SqlLanguage(), states, actions) && SqlRun(states, actions)
  {
    SqlIsLawful();
    SqlSpeaks(SqlLanguage());
    var s, t := SpokenStatements(SqlLanguage());
    states, actions := ReplayRun.UnopenableRun(SqlLanguage(), s, t);
  }

  lemma TornStatements(L: Tongue) returns (first: DurableStatement, t: Db, second: DurableStatement, u: Db)
    requires SpeaksSql(L)
    ensures L.runs(L.empty, first, Ok(t)) && L.valid(t) && L.runs(t, second, Ok(u))
  {
    first, t := CreatePrepared(L);
    second, u := IndexPrepared(L, t);
  }

  /** There is a run of the engine whose one commit is acknowledged and saved, and whose only crash tears the
      next record within a character, after which the database can only fail to open. */
  lemma TearsCanEndUnopenable() returns (states: seq<SqlSystem>, actions: seq<SqlAction>)
    ensures ReplayRun.EndsTorn(SqlLanguage(), states, actions) && SqlRun(states, actions)
  {
    SqlIsLawful();
    SqlSpeaks(SqlLanguage());
    var first, t, second, u := TornStatements(SqlLanguage());
    states, actions := ReplayRun.TornRun(SqlLanguage(), first, t, second, u);
  }
}
