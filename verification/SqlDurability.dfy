/** The transaction machine with the engine's own statements: every run is serial, keeps every constraint,
    and survives crashes (src/sql/database.rs, src/sql/executor.rs). */
module SqlDurability {
  import opened Wrappers
  import opened Syntax
  import opened Planner
  import opened Relations
  import opened Evaluator
  import opened OptimizerSound
  import opened IndexScan
  import opened IndexedEval
  import opened Statements
  import opened SchemaInvariants
  import opened StatementSound
  import opened Execute
  import opened Wal
  import opened Transactions
  import opened Serializability
  import opened Durability

  /** A logged statement: SQL text, which parses the same way at every time, or a bound statement. */
  datatype DurableStatement = Sql(parsed: Statement) | Bound(statement: Statement)

  /** What replay executes. */
  function Raw(d: DurableStatement): Statement {
    match d
    case Sql(parsed) => parsed
    case Bound(statement) => statement
  }

  /** What was executed when it was logged: text goes through the optimizer, a bound statement already has. */
  function Live(d: DurableStatement): Statement {
    match d
    case Sql(parsed) => OptimizeStatement(parsed)
    case Bound(statement) => statement
  }

  /** Valid stored tables whose rows satisfy every constraint. */
  ghost predicate ValidTables(db: Db) {
    ValidStore(db) && ConstraintsHold(MeaningOf(db))
  }

  ghost predicate Writable(s: Statement) {
    IsWrite(s) && StatementOk(s)
  }

  /** What execute_catalog may make of a write statement. */
  ghost predicate Executes(db: Db, s: Statement, r: Result<Db>) {
    && Writable(s)
    && (r.Ok? <==> StoredWrite(db, s).Ok?)
    && (r.Ok? ==> ValidStore(r.value) && MeaningOf(r.value) == StoredWrite(db, s).value)
  }

  ghost function Effect(m: Db, d: DurableStatement): Result<Db> {
    if IsWrite(Raw(d)) then ExecWrite(m, Raw(d)) else Err
  }

  /** A statement that makes no unsafe probe, and succeeds on these stored tables. */
  ghost predicate Succeeds(db: Db, s: Statement)
    requires ValidDb(db) && IsWrite(s)
  {
    (exists sure :: IndexSafeStatement(db, s, sure)) && StoredWrite(db, s).Ok?
  }

  /** A statement on which live execution and replay must agree: no folding trap, and it succeeds on full
      scans and, as optimized and as written, on every store of these tables. */
  ghost predicate Dependable(m: Db, d: DurableStatement) {
    && Writable(Raw(d)) && IsWrite(Live(d))
    && (d.Sql? ==> SafeStatement(d.parsed))
    && ExecWrite(m, Raw(d)).Ok?
    && forall db :: ValidStore(db) && ValidDb(db) && MeaningOf(db) == m ==> Succeeds(db, Live(d)) && Succeeds(db, Raw(d))
  }

  /** Success on full scans alone makes a statement dependable when its probes are sure to bring no failure:
      what has to be known of the stores is then only which probes they make. */
  lemma SureIsDependable(m: Db, d: DurableStatement)
    requires Writable(Raw(d)) && IsWrite(Live(d)) && PlainDb(m)
    requires d.Sql? ==> SafeStatement(d.parsed)
    requires ExecWrite(m, Raw(d)).Ok?
    requires forall db :: ValidStore(db) && ValidDb(db) && MeaningOf(db) == m ==>
               IndexSafeStatement(db, Live(d), true) && IndexSafeStatement(db, Raw(d), true)
    ensures Dependable(m, d)
  {
    if d.Sql? {
      OptimizedStatementSound(m, d.parsed);
    }
    forall db | ValidStore(db) && ValidDb(db) && MeaningOf(db) == m ensures Succeeds(db, Live(d)) && Succeeds(db, Raw(d)) {
      StoredWriteRefines(db, Live(d), true);
      StoredWriteRefines(db, Raw(d), true);
    }
  }

  /** A query whose optimized, indexed execution gives what it means. */
  ghost predicate DependableQuery(db: Db, q: Query) {
    && ValidDb(db) && SafeQuery(q) && (exists sure :: IndexSafe(db, OptimizeQuery(q), map[], sure))
    && ExecQuery(MeaningOf(db), q, map[]).Ok? && ExecQuery(db, OptimizeQuery(q), map[]).Ok?
  }

  ghost function LiveExecution(): (Db, DurableStatement, Result<Db>) -> bool {
    (db: Db, d: DurableStatement, r: Result<Db>) => Executes(db, Live(d), r)
  }

  ghost function ReplayExecution(): (Db, DurableStatement, Result<Db>) -> bool {
    (db: Db, d: DurableStatement, r: Result<Db>) => Executes(db, Raw(d), r)
  }

  ghost function ChangesSchema(): DurableStatement -> bool {
    (d: DurableStatement) => IsSchemaStatement(Raw(d))
  }

  ghost function SqlLanguage(): Language<Db, Db, DurableStatement, Query, Result<Relation>> {
    Language(
      (db: Db) => ValidTables(db),
      (db: Db) => MeaningOf(db),
      LiveExecution(),
      ReplayExecution(),
      ChangesSchema(),
      (db: Db, q: Query) => ExecQuery(db, OptimizeQuery(q), map[]),
      (m: Db, d: DurableStatement) => Effect(m, d),
      (m: Db, d: DurableStatement) => Dependable(m, d),
      (m: Db, q: Query) => ExecQuery(m, q, map[]),
      (db: Db, q: Query) => DependableQuery(db, q),
      map[])
  }

  // ---------------------------------------------------------------- the language is lawful

  lemma ExecutedIsValid(db: Db, s: Statement, r: Db)
    requires Executes(db, s, Ok(r))
    ensures ValidTables(r)
  {
  }

  lemma EmptyIsValid()
    ensures ValidTables(map[])
  {
    assert MeaningOf(map[]) == map[];
  }

  lemma ExecutedAgain(db: Db, s: Statement, a: Db, b: Db)
    requires Executes(db, s, Ok(a)) && ValidTables(b) && MeaningOf(b) == MeaningOf(a)
    ensures Executes(db, s, Ok(b))
  {
  }

  lemma SqlIsLawful()
    ensures Lawful(SqlLanguage())
  {
    var L := SqlLanguage();
    EmptyIsValid();
    forall t, s, r | L.valid(t) && L.runs(t, s, Ok(r)) ensures L.valid(r) {
      ExecutedIsValid(t, Live(s), r);
    }
    forall t, s, r | L.valid(t) && L.replays(t, s, Ok(r)) ensures L.valid(r) {
      ExecutedIsValid(t, Raw(s), r);
    }
    forall t, s, a, b | L.runs(t, s, Ok(a)) && Same(L, a, b) ensures L.runs(t, s, Ok(b)) {
      ExecutedAgain(t, Live(s), a, b);
    }
  }

  /** A dependable statement has the same effect whether it is optimized or not. */
  lemma DependableExecutes(db: Db, d: DurableStatement, s: Statement, r: Result<Db>)
    requires ValidStore(db) && Dependable(MeaningOf(db), d) && (s == Live(d) || s == Raw(d)) && Executes(db, s, r)
    ensures r.Ok? && Effect(MeaningOf(db), d) == Ok(MeaningOf(r.value))
  {
    ValidStoreIsValidDb(db);
    if d.Sql? {
      OptimizedStatementSound(MeaningOf(db), d.parsed);
    }
    assert Succeeds(db, s);
    var sure :| IndexSafeStatement(db, s, sure);
    StoredWriteRefines(db, s, sure);
  }

  lemma QueryAnswers(db: Db, q: Query)
    requires DependableQuery(db, q)
    ensures ExecQuery(db, OptimizeQuery(q), map[]) == ExecQuery(MeaningOf(db), q, map[])
  {
    OptimizeSound(MeaningOf(db), q, map[]);
    var sure :| IndexSafe(db, OptimizeQuery(q), map[], sure);
    QueryRefines(db, OptimizeQuery(q), map[], sure);
  }

  lemma SqlAgrees()
    ensures Agrees(SqlLanguage())
  {
    var L := SqlLanguage();
    forall t, s, r | L.valid(t) && L.dependable(L.meaning(t), s) && (L.runs(t, s, r) || L.replays(t, s, r))
      ensures r.Ok? && L.effect(L.meaning(t), s) == Ok(L.meaning(r.value))
    {
      DependableExecutes(t, s, if L.runs(t, s, r) then Live(s) else Raw(s), r);
    }
    forall t, q | L.valid(t) && L.dependableRead(t, q) ensures L.answer(t, q) == L.asks(L.meaning(t), q) {
      QueryAnswers(t, q);
    }
  }

  // --------------------------------------------------------------------- main theorems

  type SqlSystem = System<Db, DurableStatement, Query, Result<Relation>>

  type SqlAction = Action<DurableStatement, Query>

  ghost predicate SqlRun(states: seq<SqlSystem>, actions: seq<SqlAction>) {
    IsRun(SqlLanguage(), states, actions)
  }

  ghost predicate SqlDependable(a: SqlSystem, action: SqlAction) {
    DependableAction(SqlLanguage(), a, action)
  }

  /** The tables after the commits of a history, one statement after another on full scans. */
  ghost function SerialTables(history: seq<seq<DurableStatement>>): Result<Db> {
    Serial(SqlLanguage().effect, map[], history)
  }

  /** Every published catalog and every transaction's own catalog satisfies all constraints and has indexes
      that agree with its rows, whatever statements were executed and wherever crashes struck. */
  lemma ReachableCatalogsAreValid(states: seq<SqlSystem>, actions: seq<SqlAction>, n: nat)
    requires SqlRun(states, actions) && n < |states| && states[n].Up?
    ensures ValidTables(states[n].server.catalog.tables)
    ensures forall id :: id in states[n].sessions ==> ValidTables(states[n].sessions[id].catalog.tables)
  {
    SqlIsLawful();
    CatalogsStayValid(SqlLanguage(), states, actions, n);
  }

  /** In every run of dependable statements, whatever crashes it contains, the published tables are the
      serial outcome of the commits and the version counts them. */
  lemma SqlRunsAreSerial(states: seq<SqlSystem>, actions: seq<SqlAction>, n: nat)
    requires SqlRun(states, actions) && n < |states| && states[n].Up?
    requires forall i :: 0 <= i < n ==> SqlDependable(states[i], actions[i])
    ensures SerialTables(states[n].history) == Ok(MeaningOf(states[n].server.catalog.tables))
    ensures states[n].server.catalog.version == |states[n].history|
  {
    SqlIsLawful();
    SqlAgrees();
    EmptyMeaning();
    RunsArePublished(SqlLanguage(), states, actions, n);
  }

  lemma EmptyMeaning()
    ensures SqlLanguage().meaning(SqlLanguage().empty) == map[]
  {
    assert MeaningOf(map[]) == map[];
  }

  /** Such a database can be opened after every crash that did not tear a record within a character, and when
      each crash struck a log of whole records, no acknowledged commit is missing afterwards. */
  lemma SqlRecovers(states: seq<SqlSystem>, actions: seq<SqlAction>, i: nat, n: nat)
    requires SqlRun(states, actions) && i <= n < |actions|
    requires forall k :: 0 <= k < n ==> SqlDependable(states[k], actions[k])
    ensures actions[n] == FailToOpen ==> Unreadable(LogOf(states[n]).lines)
    ensures NoneCutsText(actions, n) ==> actions[n] != FailToOpen
    ensures CrashesAreClean(states, actions, n) ==> Acknowledged(states[i]) <= Acknowledged(states[n])
  {
    SqlIsLawful();
    SqlAgrees();
    RunsRecover(SqlLanguage(), states, actions, i, n);
  }
}
