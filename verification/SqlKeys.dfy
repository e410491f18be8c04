/** Declared keys over whole runs of the engine (src/sql/executor.rs, src/sql/database.rs). */
module SqlKeys {
  import opened Wrappers
  import opened Syntax
  import opened Evaluator
  import opened Statements
  import opened SchemaInvariants
  import opened Execute
  import opened KeptMeanings
  import opened DeclaredKeys
  import opened SqlDurability

  lemma StoredChangeKeepsKeys(db: Db, s: Statement)
    requires IsWrite(s) && AllKeysDeclared(MeaningOf(db)) && StoredChange(db, s).Ok?
    ensures AllKeysDeclared(StoredChange(db, s).value)
  {
    if IsSchemaStatement(s) {
      SchemaChangeKeepsKeys(MeaningOf(db), s);
    }
  }

  lemma ExecutionKeepsKeys(db: Db, s: Statement, r: Db)
    requires AllKeysDeclared(MeaningOf(db)) && Executes(db, s, Ok(r))
    ensures AllKeysDeclared(MeaningOf(r))
  {
    StoredChangeKeepsKeys(db, s);
  }

  ghost function KeysHold(): Db -> bool {
    (m: Db) => AllKeysDeclared(m)
  }

  /** Every statement, optimized or replayed, keeps all keys declared. */
  lemma SqlKeepsKeys()
    ensures Keeps(SqlLanguage(), KeysHold())
  {
    var L := SqlLanguage();
    EmptyMeaning();
    forall t, s, r | L.valid(t) && KeysHold()(L.meaning(t)) && (L.runs(t, s, Ok(r)) || L.replays(t, s, Ok(r)))
      ensures KeysHold()(L.meaning(r))
    {
      ExecutionKeepsKeys(t, if L.runs(t, s, Ok(r)) then Live(s) else Raw(s), r);
    }
  }

  /** The catalogs that a state of the machine holds. */
  predicate IsCatalogOf(db: Db, a: SqlSystem) {
    a.Up? && (db == a.server.catalog.tables || exists id :: id in a.sessions && db == a.sessions[id].catalog.tables)
  }

  /** In every run, whatever is executed and wherever crashes strike, each PRIMARY KEY and UNIQUE constraint of each
      table has its unique index definition, and the columns of each PRIMARY KEY are NOT NULL. */
  lemma RunsKeepKeysDeclared(states: seq<SqlSystem>, actions: seq<SqlAction>, n: nat, db: Db, name: string)
    requires SqlRun(states, actions) && n < |states| && IsCatalogOf(db, states[n]) && name in db
    ensures KeysDeclared(db[name].schema)
  {
    SqlIsLawful();
    SqlKeepsKeys();
    HoldsInRuns(SqlLanguage(), KeysHold(), states, actions, n);
    assert KeysDeclared(MeaningOf(db)[name].schema);
  }

  lemma ValidTableKeys(db: Db, name: string)
    requires ValidTables(db) && name in db && KeysDeclared(db[name].schema)
    ensures var schema, rows := db[name].schema, db[name].rows;
            && (forall c :: c in schema.constraints && IsKey(c) && Guarded(schema, c.columns) ==> KeyHolds(schema, rows, c))
            && (NamesDiffer(schema.indexes) ==> forall c :: c in schema.constraints && IsKey(c) ==> Guarded(schema, c.columns))
  {
    assert TableSatisfies(MeaningOf(db), MeaningOf(db)[name]) && TableOk(db[name]);
    TableKeysHold(db[name].schema, db[name].rows);
  }

  /** In every run, each declared PRIMARY KEY or UNIQUE that an index in force guards holds: no two rows have the
      same NULL-free key, and a PRIMARY KEY identifies each row. With distinct index names all are guarded. */
  lemma DeclaredKeysHoldInRuns(states: seq<SqlSystem>, actions: seq<SqlAction>, n: nat, db: Db, name: string)
    requires SqlRun(states, actions) && n < |states| && IsCatalogOf(db, states[n]) && name in db
    ensures var schema, rows := db[name].schema, db[name].rows;
            && (forall c :: c in schema.constraints && IsKey(c) && Guarded(schema, c.columns) ==> KeyHolds(schema, rows, c))
            && (NamesDiffer(schema.indexes) ==> forall c :: c in schema.constraints && IsKey(c) ==> Guarded(schema, c.columns))
  {
    ReachableCatalogsAreValid(states, actions, n);
    RunsKeepKeysDeclared(states, actions, n, db, name);
    ValidTableKeys(db, name);
  }
}
