/** execute_catalog: one write statement on the stored catalog, validated before it replaces the old one
    (src/sql/executor.rs). */
module CatalogEngine {
  import opened Wrappers
  import opened Ascii
  import opened Values
  import opened Syntax
  import opened Tables
  import opened TableEngine
  import opened Evaluator
  import opened OptimizerSound
  import opened IndexedEval
  import opened Statements
  import opened Ddl
  import opened SchemaInvariants
  import opened Execute
  import opened Engine

  ghost predicate AllMaintained(db: Db) {
    forall name :: name in db ==> Maintained(db[name])
  }

  // ------------------------------------------------------- schema statements keep rows

  /** The same tables, with the same rows. */
  ghost predicate SameRows(before: Db, after: Db) {
    before.Keys == after.Keys
    && forall name :: name in after ==> after[name].Plain? && after[name].rows == before[name].rows
  }

  lemma OperationKeepsRows(a: Altered, name: string, op: AlterOperation)
    requires PlainDb(a.db) && ApplyOperation(a, name, op).Ok?
    ensures |ApplyOperation(a, name, op).value.rows| == |a.rows|
    ensures SameRows(a.db, ApplyOperation(a, name, op).value.db)
  {
    if op.RenameColumn? {
      FollowKeepsRows(a.db, name, op.oldName, op.newName);
    }
  }

  lemma FollowKeepsRows(db: Db, table: string, oldName: string, newName: string)
    requires PlainDb(db)
    ensures SameRows(db, FollowRenameInCatalog(db, table, oldName, newName))
  {
  }

  lemma {:induction false} OperationsKeepRows(a: Altered, name: string, operations: seq<AlterOperation>)
    requires PlainDb(a.db) && ApplyOperations(a, name, operations).Ok?
    ensures |ApplyOperations(a, name, operations).value.rows| == |a.rows|
    ensures SameRows(a.db, ApplyOperations(a, name, operations).value.db)
    decreases operations
  {
    if operations != [] {
      var init := operations[..|operations| - 1];
      OperationsKeepRows(a, name, init);
      OperationKeepsRows(ApplyOperations(a, name, init).value, name, operations[|operations| - 1]);
    }
  }

  /** A schema statement neither adds nor removes rows of a table that stays. */
  ghost predicate KeepsRowCounts(before: Db, after: Db) {
    PlainDb(after)
    && forall name :: name in after ==> if name in before then |after[name].rows| == |before[name].rows| else after[name].rows == []
  }

  lemma SchemaKeepsCounts(db: Db, s: Statement)
    requires PlainDb(db) && IsSchemaStatement(s) && SchemaChange(db, s).Ok?
    ensures KeepsRowCounts(db, SchemaChange(db, s).value)
  {
    if s.AlterTable? {
      OperationsKeepRows(Altered(db, db[Lower(s.table)].schema, db[Lower(s.table)].rows), Lower(s.table), s.operations);
    }
  }

  // ------------------------------------------------------------- stored schema change

  /** Table::new and rebuild_index: the same row ids under the new schema, with every index rebuilt. */
  method RebuildTable(before: Option<Table>, schema: TableSchema, rows: seq<Row>) returns (t: Table)
    requires before.Some? ==> Maintained(before.value) && |before.value.rows| == |rows|
    requires before.None? ==> rows == []
    ensures Maintained(t) && Meaning(t) == Plain(schema, rows)
    ensures before.Some? ==> t.rowIds == before.value.rowIds && t.nextRowId == before.value.nextRowId
  {
    var ids, next := if before.Some? then before.value.rowIds else [], if before.Some? then before.value.nextRowId else 1;
    var live: LiveTable := new LiveTable(Indexed(schema, rows, ids, next, []));
    live.RebuildIndex();
    t := live.View();
  }

  /** Stores changed tables: those with a new meaning are rebuilt, the others stay as they are. */
  method StoreTables(db: Db, changed: Db) returns (stored: Db)
    requires AllMaintained(db) && KeepsRowCounts(MeaningOf(db), changed)
    ensures AllMaintained(stored) && MeaningOf(stored) == changed
  {
    stored := map[];
    var todo := changed.Keys;
    while todo != {}
      invariant todo <= changed.Keys && stored.Keys == changed.Keys - todo
      invariant forall name :: name in stored ==> Maintained(stored[name]) && Meaning(stored[name]) == changed[name]
      decreases todo
    {
      var name :| name in todo;
      var t: Table;
      if name in db && Meaning(db[name]) == changed[name] {
        t := db[name];
      } else {
        t := RebuildTable(if name in db then Some(db[name]) else None, changed[name].schema, changed[name].rows);
      }
      stored := stored[name := t];
      todo := todo - {name};
    }
  }

  /** A schema statement on stored tables. */
  method ExecuteSchema(db: Db, s: Statement) returns (r: Result<Db>)
    requires AllMaintained(db) && IsSchemaStatement(s)
    ensures r.Ok? <==> SchemaChange(MeaningOf(db), s).Ok?
    ensures r.Ok? ==> AllMaintained(r.value) && MeaningOf(r.value) == SchemaChange(MeaningOf(db), s).value
  {
    var changed := SchemaChange(MeaningOf(db), s);
    if changed.Err? {
      return Err;
    }
    SchemaKeepsCounts(MeaningOf(db), s);
    var stored := StoreTables(db, changed.value);
    r := Ok(stored);
  }

  // -------------------------------------------------------------------- data statements

  method ExecuteTable(db: Db, s: Statement) returns (r: Result<(Table, nat)>)
    requires s.Insert? || s.Update? || s.Delete?
    requires Lower(s.table) in db && AllMaintained(db)
    ensures var t := db[Lower(s.table)];
            (r.Ok? <==> StoredRows(db, s).Ok?)
            && (r.Ok? ==> Maintained(r.value.0) && Meaning(r.value.0) == Plain(t.schema, StoredRows(db, s).value.rows)
                          && r.value.1 == StoredRows(db, s).value.affected)
  {
    var name := Lower(s.table);
    match s
    case Insert(_, target, source, onDuplicate) =>
      var proposed := ProposedRows(db, source);
      if proposed.Err? {
        return Err;
      }
      var prepared := Collect(PrepareRows(db[name].schema.columns, target, proposed.value));
      if prepared.Err? {
        return Err;
      }
      r := ExecuteInsert(db, name, prepared.value, onDuplicate);
    case Update(_, assignments, selection) => r := ExecuteUpdate(db, name, assignments, selection);
    case Delete(_, selection) => r := ExecuteDelete(db, name, selection);
    case _ => r := Err;
  }

  method ExecuteWrite(db: Db, s: Statement) returns (r: Result<Db>)
    requires AllMaintained(db) && IsWrite(s)
    ensures r.Ok? <==> StoredChange(db, s).Ok?
    ensures r.Ok? ==> AllMaintained(r.value) && MeaningOf(r.value) == StoredChange(db, s).value
  {
    if IsSchemaStatement(s) {
      r := ExecuteSchema(db, s);
    } else if Lower(s.table) in db {
      var changed := ExecuteTable(db, s);
      if changed.Err? {
        return Err;
      }
      var after := db[Lower(s.table) := changed.value.0];
      assert MeaningOf(after) == MeaningOf(db)[Lower(s.table) := Meaning(changed.value.0)];
      r := Ok(after);
    } else {
      r := Err;
    }
  }

  // ------------------------------------------------- constraints ignore how tables are stored

  lemma CheckIgnoresStore(db: Db, schema: TableSchema, row: Row, check: Expr)
    requires NoSubquery(check)
    ensures CheckHolds(db, schema, row, check) <==> CheckHolds(MeaningOf(db), schema, row, check)
  {
    NoSubqueryIgnoresTables(db, MeaningOf(db), check, TableColumns(Plain(schema, []), schema.name), row, None, map[]);
  }

  lemma ForeignKeyIgnoresStore(db: Db, schema: TableSchema, rows: seq<Row>, fk: TableConstraint)
    requires fk.ForeignKey?
    ensures ForeignKeyHolds(db, schema, rows, fk) <==> ForeignKeyHolds(MeaningOf(db), schema, rows, fk)
  {
  }

  lemma TableIgnoresStore(db: Db, t: Table)
    requires ChecksSimple(t.schema.constraints)
    ensures TableSatisfies(db, t) <==> TableSatisfies(MeaningOf(db), Meaning(t))
  {
    forall i | 0 <= i < |t.rows| ensures ChecksHold(db, t.schema, t.rows[i]) <==> ChecksHold(MeaningOf(db), t.schema, t.rows[i]) {
      forall c | 0 <= c < |t.schema.constraints| && t.schema.constraints[c].Check?
        ensures CheckHolds(db, t.schema, t.rows[i], t.schema.constraints[c].expr)
           <==> CheckHolds(MeaningOf(db), t.schema, t.rows[i], t.schema.constraints[c].expr)
      {
        CheckIgnoresStore(db, t.schema, t.rows[i], t.schema.constraints[c].expr);
      }
    }
    forall c | 0 <= c < |t.schema.constraints| && t.schema.constraints[c].ForeignKey?
      ensures ForeignKeyHolds(db, t.schema, t.rows, t.schema.constraints[c])
         <==> ForeignKeyHolds(MeaningOf(db), t.schema, t.rows, t.schema.constraints[c])
    {
      ForeignKeyIgnoresStore(db, t.schema, t.rows, t.schema.constraints[c]);
    }
  }

  /** A catalog satisfies its constraints exactly when its meaning does. */
  lemma ConstraintsIgnoreStore(db: Db)
    requires DbOk(MeaningOf(db))
    ensures ConstraintsHold(db) <==> ConstraintsHold(MeaningOf(db))
  {
    forall name | name in db ensures TableSatisfies(db, db[name]) <==> TableSatisfies(MeaningOf(db), MeaningOf(db)[name]) {
      assert TableOk(MeaningOf(db)[name]);
      TableIgnoresStore(db, db[name]);
    }
  }

  // ------------------------------------------------------------------------ execute_catalog

  /** execute_catalog on a write: the new catalog is published only when it satisfies every constraint, and
      then its indexes agree with its rows again. */
  method ExecuteCatalog(db: Db, s: Statement) returns (r: Result<Db>)
    requires ValidStore(db) && IsWrite(s) && StatementOk(s)
    ensures r.Ok? <==> StoredWrite(db, s).Ok?
    ensures r.Ok? ==> ValidStore(r.value) && MeaningOf(r.value) == StoredWrite(db, s).value
    ensures r.Ok? ==> ConstraintsHold(r.value)
  {
    r := ExecuteWrite(db, s);
    if r.Ok? {
      StoredChangeKeepsOk(db, s);
      ConstraintsIgnoreStore(r.value);
      StoredFromMeaning(r.value);
      var valid := ValidateCatalog(r.value);
      if !valid {
        r := Err;
      }
    }
  }

  lemma StoredFromMeaning(db: Db)
    requires AllMaintained(db) && DbOk(MeaningOf(db))
    ensures ValidStore(db)
  {
    forall name | name in db ensures TableOk(db[name]) {
      assert TableOk(MeaningOf(db)[name]);
    }
  }
}
