/** A transaction can commit and then make its database impossible to open: the optimizer decides whether an
    index is used, and replay runs without it (src/sql/database.rs, src/sql/planner.rs). */
module ReplayLimits {
  import opened Wrappers
  import opened Ascii
  import opened Values
  import opened Syntax
  import opened Planner
  import opened Relations
  import opened Tables
  import opened TableEngine
  import opened Evaluator
  import opened OptimizerSound
  import opened Statements
  import opened SchemaInvariants
  import opened StatementSound
  import opened Execute
  import opened SqlDurability
  import opened Limits

  const ID_IS_SUM := Binary(Column(None, "id"), Compare(Eq), Binary(Literal(Integer(2)), Arith(Plus), Literal(Integer(3))))

  /** WHERE 1 / (id - 1) > 0 AND id = 2 + 3 */
  const WRITTEN := Binary(FAILS, And, ID_IS_SUM)

  lemma FoldsToProbe()
    ensures FoldExpr(WRITTEN) == FOLDED && SafeExpr(WRITTEN)
  {
    assert FoldExpr(DIVIDES.right) == DIVIDES.right && SafeExpr(DIVIDES.right);
    assert FoldExpr(DIVIDES) == DIVIDES && SafeExpr(DIVIDES);
    assert FoldExpr(FAILS) == FAILS && SafeExpr(FAILS);
    assert FoldExpr(ID_IS_SUM.right) == Literal(Integer(5)) && SafeExpr(ID_IS_SUM.right);
    assert FoldExpr(ID_IS_SUM) == ID_IS_FIVE && SafeExpr(ID_IS_SUM);
  }

  /** A table named t whose one row has id 1. */
  function OneRowCatalog(): Db {
    map["t" := OneRowTable()]
  }

  lemma FoldedProbes()
    ensures CandidateRowIds(OneRowTable(), Some(FOLDED)) == Some({})
  {
    var t := OneRowTable();
    var five := IndexPredicate(None, "id", Eq, Integer(5));
    assert CollectIndexPredicates(FAILS) == [] && CollectIndexPredicates(ID_IS_FIVE) == [five];
    assert CollectIndexPredicates(FOLDED) == [five];
    ProbeForFive(t, None);
  }

  lemma RowFails(db: Db, columns: seq<BoundColumn>)
    requires columns == [BoundColumn("t", "id")]
    ensures EvalExpr(db, WRITTEN, columns, [Integer(1)], None, map[]).Err?
  {
    FailsOnOne(db, columns, map[]);
  }

  lemma LiveDeletesNothing(db: Db, t: Table)
    requires t == OneRowTable()
    ensures ProbedDelete(db, "t", t, CandidateRowIds(t, Some(FOLDED)), Some(FOLDED), 1) == Ok(Effect([[Integer(1)]], 0))
  {
    FoldedProbes();
    assert !IsCandidate(t, Some({}), 0) && t.rows[0] == [Integer(1)];
    assert ProbedDelete(db, "t", t, Some({}), Some(FOLDED), 0) == Ok(Effect([], 0));
    assert DeleteNext(Ok(Effect([], 0)), Ok(false), t.rows[0]) == Ok(Effect([[Integer(1)]], 0)) by {
      assert [] + [t.rows[0]] == [[Integer(1)]];
    }
  }

  lemma {:induction false} NothingToProbe(indexes: seq<BTreeIndex>)
    ensures BestCandidates(indexes, []) == None
    decreases indexes
  {
    if indexes != [] {
      NothingToProbe(indexes[..|indexes| - 1]);
      var key := indexes[|indexes| - 1].definition.columns;
      assert ProbeFor(key, []) == Probe([], None);
    }
  }

  lemma ReplayFails(db: Db, t: Table)
    requires Meaning(t) == Meaning(OneRowTable())
    ensures ProbedDelete(db, "t", t, CandidateRowIds(t, Some(WRITTEN)), Some(WRITTEN), 1) == Err
  {
    if t.Indexed? {
      NothingToProbe(t.indexes);
      assert CollectIndexPredicates(FAILS) == [] && CollectIndexPredicates(ID_IS_SUM) == [];
      assert CollectIndexPredicates(WRITTEN) == [];
    }
    assert CandidateRowIds(t, Some(WRITTEN)) == None;
    assert Lower("t") == "t";
    assert TableColumns(Plain(t.schema, []), "t") == [BoundColumn("t", "id")];
    RowFails(db, TableColumns(Plain(t.schema, []), "t"));
    assert SelectionHolds(db, "t", t.schema, Some(WRITTEN), t.rows[0]).Err?;
  }

  lemma SchemaIsValid(t: Table)
    requires t == OneRowTable()
    ensures DefinitionsOf(t.indexes) == Effective(t.schema.indexes) && TableOk(t)
    ensures forall db :: TableSatisfies(db, Meaning(t))
  {
    assert t.schema.indexes[..0] == [] && Effective(t.schema.indexes) == {t.schema.indexes[0]};
    assert t.indexes[0].definition in DefinitionsOf(t.indexes);
    assert Lower("id") == "id" && ColumnIndex(t.schema.columns, "id") == Some(0);
  }

  lemma CatalogIsValid(db: Db)
    requires db == OneRowCatalog()
    ensures ValidTables(db)
  {
    OneRowTableIsConsistent();
    SchemaIsValid(OneRowTable());
  }

  /** The statement DELETE FROM t WHERE 1 / (id - 1) > 0 AND id = 2 + 3 */
  function Deletion(): DurableStatement {
    Sql(Delete("t", Some(WRITTEN)))
  }

  /** It has no folding trap; what runs at once and what replay runs are the two forms below. */
  lemma DeletionIsOrdinary()
    ensures Writable(Raw(Deletion())) && SafeStatement(Deletion().parsed)
    ensures Live(Deletion()) == Delete("t", Some(FOLDED)) && Raw(Deletion()) == Delete("t", Some(WRITTEN))
  {
    FoldsToProbe();
  }

  /** A deletion that changes nothing is accepted where the catalog was, and one that fails on a row is not. */
  lemma DeletionDecided(db: Db, s: Statement, effect: Result<Effect>)
    requires s.Delete? && StoredRows(db, s) == effect && ConstraintsHold(MeaningOf(db))
    ensures effect.Err? ==> StoredWrite(db, s) == Err
    ensures WithRows(db, Lower(s.table), effect) == Ok(MeaningOf(db)) ==> StoredWrite(db, s) == Ok(MeaningOf(db))
  {
  }

  lemma LiveKeepsRows(db: Db, s: Statement)
    requires db == OneRowCatalog() && s == Delete("t", Some(FOLDED))
    ensures StoredRows(db, s) == Ok(Effect([[Integer(1)]], 0))
  {
    LiveDeletesNothing(db, OneRowTable());
    assert Lower("t") == "t" && db["t"] == OneRowTable();
  }

  lemma SameRowsSameMeaning(db: Db)
    requires db == OneRowCatalog()
    ensures WithRows(db, "t", Ok(Effect([[Integer(1)]], 0))) == Ok(MeaningOf(db))
  {
    assert MeaningOf(db)["t" := Plain(db["t"].schema, [[Integer(1)]])] == MeaningOf(db);
  }

  lemma CatalogIsAccepted(db: Db)
    requires db == OneRowCatalog()
    ensures ConstraintsHold(MeaningOf(db))
  {
    CatalogIsValid(db);
  }

  /** What was executed and acknowledged: the optimized statement uses the index and finds no row. */
  lemma LiveIsAccepted(db: Db, s: Statement)
    requires db == OneRowCatalog() && s == Delete("t", Some(FOLDED))
    ensures StoredWrite(db, s) == Ok(MeaningOf(db))
  {
    LiveKeepsRows(db, s);
    SameRowsSameMeaning(db);
    CatalogIsAccepted(db);
    assert Lower("t") == "t";
    DeletionDecided(db, s, Ok(Effect([[Integer(1)]], 0)));
  }

  lemma ReplayStops(db: Db, s: Statement)
    requires "t" in db && Meaning(db["t"]) == Meaning(OneRowTable()) && s == Delete("t", Some(WRITTEN))
    ensures StoredRows(db, s) == Err
  {
    ReplayFails(db, db["t"]);
    assert Lower("t") == "t";
  }

  /** What replay executes: on every store of the same tables, whatever its indexes and row ids, the statement
      as written scans the row and fails on it. */
  lemma ReplayIsRefused(db: Db, s: Statement)
    requires MeaningOf(db) == MeaningOf(OneRowCatalog()) && s == Delete("t", Some(WRITTEN))
    ensures StoredWrite(db, s) == Err
  {
    assert "t" in MeaningOf(OneRowCatalog()) && MeaningOf(db)["t"] == Meaning(OneRowTable());
    CatalogIsAccepted(OneRowCatalog());
    ReplayStops(db, s);
    DeletionDecided(db, s, Err);
  }
}
