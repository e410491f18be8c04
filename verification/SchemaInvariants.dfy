/** Every write statement keeps rows exactly typed and every constraint and index over columns that
    exist; index probing relies on both (src/sql/executor.rs). */
module SchemaInvariants {
  import opened Wrappers
  import opened Ascii
  import opened Values
  import opened Syntax
  import opened Relations
  import opened Tables
  import opened TableEngine
  import opened Evaluator
  import opened IndexScan
  import opened IndexedEval
  import opened Statements
  import opened Ddl

  // ------------------------------------------------------------- the statement machine

  /** The catalog after a write statement and before validation. */
  function Changed(db: Db, s: Statement): Result<Db>
    requires IsWrite(s)
  {
    if IsSchemaStatement(s) then SchemaChange(db, s)
    else
      var effect := ChangedRows(db, s);
      if effect.Err? then Err else Ok(db[Lower(s.table) := Plain(db[Lower(s.table)].schema, effect.value.rows)])
  }

  /** execute_catalog on tables reduced to their meaning: a write takes effect when the changed catalog
      satisfies every constraint. */
  ghost function ExecWrite(db: Db, s: Statement): Result<Db>
    requires IsWrite(s)
  {
    var changed := Changed(db, s);
    if changed.Ok? && ConstraintsHold(changed.value) then changed else Err
  }

  // ----------------------------------------------------------------- the invariant

  ghost predicate IndexesExist(columns: seq<ColumnDef>, indexes: seq<IndexDef>) {
    forall i :: 0 <= i < |indexes| ==> ColumnsExist(columns, indexes[i].columns)
  }

  ghost predicate ConstraintsExist(columns: seq<ColumnDef>, constraints: seq<TableConstraint>) {
    forall c :: 0 <= c < |constraints| ==> ColumnsExist(columns, ConstraintColumns(constraints[c]))
  }

  /** CHECK expressions look at their own row only. */
  ghost predicate ChecksSimple(constraints: seq<TableConstraint>) {
    forall c :: 0 <= c < |constraints| && constraints[c].Check? ==> NoSubquery(constraints[c].expr)
  }

  ghost predicate SchemaOk(schema: TableSchema) {
    && IndexesExist(schema.columns, schema.indexes)
    && ConstraintsExist(schema.columns, schema.constraints)
    && ChecksSimple(schema.constraints)
  }

  ghost predicate TableOk(t: Table) {
    SchemaOk(t.schema) && Typed(t.schema, t.rows)
  }

  ghost predicate DbOk(db: Db) {
    forall name :: name in db ==> TableOk(db[name])
  }

  /** Column constraints of an added or modified column name that column, as the parser writes them, and
      CHECK expressions hold no subquery. */
  ghost predicate OperationOk(op: AlterOperation) {
    && (op.AddColumn? || op.ModifyColumn? ==>
          ChecksSimple(op.constraints)
          && forall c, k :: 0 <= c < |op.constraints| && 0 <= k < |ConstraintColumns(op.constraints[c])| ==>
               SameName(op.column.name, ConstraintColumns(op.constraints[c])[k]))
    && (op.AddConstraint? && op.constraint.Check? ==> NoSubquery(op.constraint.expr))
  }

  ghost predicate StatementOk(s: Statement) {
    && (s.CreateTable? ==> ChecksSimple(s.constraints))
    && (s.AlterTable? ==> forall i :: 0 <= i < |s.operations| ==> OperationOk(s.operations[i]))
  }

  // ------------------------------------------------------------------ data statements

  lemma CoercedHasType(v: Value, t: DataType)
    ensures CoerceTo(v, t).Some? ==> HasType(CoerceTo(v, t).value, t)
    ensures IsCompatibleWith(v, t) ==> CoerceTo(v, t).Some?
  {
  }

  /** A completed row that passes validation has exactly the column types. */
  lemma CompletedRowTyped(schema: TableSchema, row: Row)
    requires |row| == |schema.columns| && ValidateRow(schema, CompleteRow(schema.columns, row))
    ensures Typed(schema, [CompleteRow(schema.columns, row)])
  {
    var completed := CompleteRow(schema.columns, row);
    forall c | 0 <= c < |schema.columns| ensures HasType(completed[c], schema.columns[c].dataType) {
      var column := schema.columns[c];
      var filled := if row[c].Null? && column.default.Some? then column.default.value else row[c];
      CoercedHasType(filled, column.dataType);
    }
  }

  /** Coerced, or kept because it cannot be coerced. */
  ghost predicate Coerced(columns: seq<ColumnDef>, row: Row) {
    |row| == |columns| && forall c :: 0 <= c < |row| ==>
      HasType(row[c], columns[c].dataType) || CoerceTo(row[c], columns[c].dataType).None?
  }

  lemma CoercedRowTyped(schema: TableSchema, row: Row)
    requires Coerced(schema.columns, row) && ValidateRow(schema, row)
    ensures Typed(schema, [row])
  {
    forall c | 0 <= c < |row| ensures HasType(row[c], schema.columns[c].dataType) {
      CoercedHasType(row[c], schema.columns[c].dataType);
    }
  }

  lemma {:induction false} DuplicateCoerced(db: Db, name: string, schema: TableSchema, incoming: Row, assignments: seq<Assignment>, current: Row)
    requires Coerced(schema.columns, current)
    requires AssignDuplicate(db, name, schema, incoming, assignments, current).Ok?
    ensures Coerced(schema.columns, AssignDuplicate(db, name, schema, incoming, assignments, current).value)
    decreases |assignments|
  {
    if assignments != [] {
      var at := ColumnIndex(schema.columns, assignments[0].column).value;
      var bound := BindIncoming(assignments[0].expr, schema.columns, incoming);
      var v := EvalExpr(db, bound, TableColumns(Plain(schema, []), name), current, None, map[]).value;
      CoercedHasType(v, schema.columns[at].dataType);
      var cell := CoerceOrKeep(v, schema.columns[at].dataType);
      DuplicateCoerced(db, name, schema, incoming, assignments[1..], current[at := cell]);
    }
  }

  lemma {:induction false} AssignedTyped(db: Db, name: string, schema: TableSchema, original: Row, assignments: seq<Assignment>, current: Row)
    requires Typed(schema, [current])
    requires AssignRow(db, name, schema, original, assignments, current).Ok?
    ensures Typed(schema, [AssignRow(db, name, schema, original, assignments, current).value])
    decreases |assignments|
  {
    if assignments != [] {
      var at := ColumnIndex(schema.columns, assignments[0].column).value;
      var v := EvalExpr(db, assignments[0].expr, TableColumns(Plain(schema, []), name), original, None, map[]).value;
      CoercedHasType(v, schema.columns[at].dataType);
      var cell := CoerceTo(v, schema.columns[at].dataType).value;
      assert [current][0] == current;
      assert Typed(schema, [current[at := cell]]);
      AssignedTyped(db, name, schema, original, assignments[1..], current[at := cell]);
    }
  }

  lemma TypedAppend(schema: TableSchema, rows: seq<Row>, row: Row)
    requires Typed(schema, rows) && Typed(schema, [row])
    ensures Typed(schema, rows + [row])
  {
    assert [row][0] == row;
  }

  lemma TypedPut(schema: TableSchema, rows: seq<Row>, p: nat, row: Row)
    requires Typed(schema, rows) && Typed(schema, [row]) && p < |rows|
    ensures Typed(schema, rows[p := row])
  {
    assert [row][0] == row;
  }

  lemma TypedRow(schema: TableSchema, rows: seq<Row>, p: nat)
    requires Typed(schema, rows) && p < |rows|
    ensures Typed(schema, [rows[p]]) && Coerced(schema.columns, rows[p])
  {
  }

  /** The rows an INSERT proposes are completed before they are inserted. */
  ghost predicate AllCompleted(columns: seq<ColumnDef>, rows: seq<Row>) {
    forall i :: 0 <= i < |rows| ==> exists row :: |row| == |columns| && rows[i] == CompleteRow(columns, row)
  }

  lemma InsertRowTyped(db: Db, name: string, schema: TableSchema, rows: seq<Row>, row: Row, onDuplicate: seq<Assignment>)
    requires Typed(schema, rows) && AllCompleted(schema.columns, [row])
    requires InsertRow(db, name, schema, rows, row, onDuplicate).Ok?
    ensures Typed(schema, InsertRow(db, name, schema, rows, row, onDuplicate).value.rows)
  {
    var conflicts := ConflictPositions(schema, rows, row);
    if conflicts == {} {
      assert [row][0] == row;
      var raw :| |raw| == |schema.columns| && row == CompleteRow(schema.columns, raw);
      CompletedRowTyped(schema, raw);
      TypedAppend(schema, rows, row);
    } else {
      var p := TheElement(conflicts);
      assert p in conflicts;
      TypedRow(schema, rows, p);
      DuplicateCoerced(db, name, schema, row, onDuplicate, rows[p]);
      var updated := AssignDuplicate(db, name, schema, row, onDuplicate, rows[p]).value;
      if updated != rows[p] {
        CoercedRowTyped(schema, updated);
        TypedPut(schema, rows, p, updated);
      }
    }
  }

  lemma {:induction false} InsertRowsTyped(db: Db, name: string, schema: TableSchema, rows: seq<Row>, incoming: seq<Row>, onDuplicate: seq<Assignment>)
    requires Typed(schema, rows) && AllCompleted(schema.columns, incoming)
    requires InsertRows(db, name, schema, rows, incoming, onDuplicate).Ok?
    ensures Typed(schema, InsertRows(db, name, schema, rows, incoming, onDuplicate).value.rows)
    decreases |incoming|
  {
    if incoming != [] {
      var last := |incoming| - 1;
      InsertRowsTyped(db, name, schema, rows, incoming[..last], onDuplicate);
      var before := InsertRows(db, name, schema, rows, incoming[..last], onDuplicate).value;
      assert [incoming[last]][0] == incoming[last];
      InsertRowTyped(db, name, schema, before.rows, incoming[last], onDuplicate);
    }
  }

  lemma PreparedAreCompleted(columns: seq<ColumnDef>, target: Option<seq<string>>, proposed: seq<Row>)
    requires Collect(PrepareRows(columns, target, proposed)).Ok?
    ensures AllCompleted(columns, Collect(PrepareRows(columns, target, proposed)).value)
  {
    var prepared := Collect(PrepareRows(columns, target, proposed)).value;
    forall i | 0 <= i < |prepared| ensures exists row :: |row| == |columns| && prepared[i] == CompleteRow(columns, row) {
      assert PrepareRows(columns, target, proposed)[i].Ok?;
      var row := if target.None? then proposed[i] else PlaceValues(columns, target.value, proposed[i], Nulls(|columns|), {}).value;
      assert |row| == |columns| && prepared[i] == CompleteRow(columns, row);
    }
  }

  lemma {:induction false} UpdateRowsTyped(db: Db, name: string, schema: TableSchema, rows: seq<Row>, assignments: seq<Assignment>, selection: Option<Expr>, n: nat)
    requires n <= |rows| && Typed(schema, rows)
    requires UpdateRows(db, name, schema, rows, assignments, selection, n).Ok?
    ensures Typed(schema, UpdateRows(db, name, schema, rows, assignments, selection, n).value.rows)
    decreases n
  {
    if n > 0 {
      UpdateRowsTyped(db, name, schema, rows, assignments, selection, n - 1);
      var before := UpdateRows(db, name, schema, rows, assignments, selection, n - 1).value;
      TypedRow(schema, rows, n - 1);
      var step := UpdateRow(db, name, schema, assignments, selection, rows[n - 1]).value;
      if step.Some? {
        AssignedTyped(db, name, schema, rows[n - 1], assignments, rows[n - 1]);
        TypedAppend(schema, before.rows, step.value);
      } else {
        TypedAppend(schema, before.rows, rows[n - 1]);
      }
    }
  }

  lemma {:induction false} DeleteRowsTyped(db: Db, name: string, schema: TableSchema, rows: seq<Row>, selection: Option<Expr>, n: nat)
    requires n <= |rows| && Typed(schema, rows)
    requires DeleteRows(db, name, schema, rows, selection, n).Ok?
    ensures Typed(schema, DeleteRows(db, name, schema, rows, selection, n).value.rows)
    decreases n
  {
    if n > 0 {
      DeleteRowsTyped(db, name, schema, rows, selection, n - 1);
      var before := DeleteRows(db, name, schema, rows, selection, n - 1).value;
      TypedRow(schema, rows, n - 1);
      TypedAppend(schema, before.rows, rows[n - 1]);
    }
  }

  lemma DataStatementKeepsTypes(db: Db, s: Statement)
    requires s.Insert? || s.Update? || s.Delete?
    requires DbOk(db) && ChangedRows(db, s).Ok?
    ensures Typed(db[Lower(s.table)].schema, ChangedRows(db, s).value.rows)
  {
    var name := Lower(s.table);
    var t := db[name];
    match s
    case Insert(_, target, source, onDuplicate) =>
      var proposed := ProposedRows(db, source).value;
      PreparedAreCompleted(t.schema.columns, target, proposed);
      InsertRowsTyped(db, name, t.schema, t.rows, Collect(PrepareRows(t.schema.columns, target, proposed)).value, onDuplicate);
    case Update(_, assignments, selection) =>
      UpdateRowsTyped(db, name, t.schema, t.rows, assignments, selection, |t.rows|);
    case Delete(_, selection) =>
      DeleteRowsTyped(db, name, t.schema, t.rows, selection, |t.rows|);
    case _ =>
  }

  // -------------------------------------------------------- columns keep their names

  ghost predicate SameColumns(a: seq<ColumnDef>, b: seq<ColumnDef>) {
    |a| == |b| && forall i :: 0 <= i < |a| ==> a[i].name == b[i].name && a[i].dataType == b[i].dataType
  }

  /** Every name found among a is found among b. */
  ghost predicate Finds(a: seq<ColumnDef>, b: seq<ColumnDef>) {
    forall n :: ColumnIndex(a, n).Some? ==> ColumnIndex(b, n).Some?
  }

  lemma SameColumnsFind(a: seq<ColumnDef>, b: seq<ColumnDef>)
    requires SameColumns(a, b)
    ensures Finds(a, b) && Finds(b, a)
  {
    forall n ensures ColumnIndex(a, n).Some? <==> ColumnIndex(b, n).Some? {
      var x, y := ColumnIndex(a, n), ColumnIndex(b, n);
      if x.Some? {
        assert SameName(b[x.value].name, n);
      }
      if y.Some? {
        assert SameName(a[y.value].name, n);
      }
    }
  }

  lemma FindsKeepsSchema(a: seq<ColumnDef>, b: seq<ColumnDef>, constraints: seq<TableConstraint>, indexes: seq<IndexDef>)
    requires Finds(a, b)
    ensures ConstraintsExist(a, constraints) ==> ConstraintsExist(b, constraints)
    ensures IndexesExist(a, indexes) ==> IndexesExist(b, indexes)
  {
  }

  lemma {:induction false} ConstraintIndexesExist(columns: seq<ColumnDef>, table: string, constraints: seq<TableConstraint>)
    requires ConstraintsExist(columns, constraints)
    ensures IndexesExist(columns, ConstraintIndexes(table, constraints))
    decreases constraints
  {
    if constraints != [] {
      ConstraintIndexesExist(columns, table, constraints[..|constraints| - 1]);
      assert ColumnsExist(columns, ConstraintColumns(constraints[|constraints| - 1]));
    }
  }

  lemma {:induction false} ColumnIndexesExist(all: seq<ColumnDef>, table: string, columns: seq<ColumnDef>, indexes: seq<IndexDef>)
    requires IndexesExist(all, indexes) && forall i :: 0 <= i < |columns| ==> ColumnIndex(all, columns[i].name).Some?
    ensures IndexesExist(all, ColumnIndexes(table, columns, indexes))
    decreases columns
  {
    if columns != [] {
      ColumnIndexesExist(all, table, columns[..|columns| - 1], indexes);
    }
  }

  lemma OwnNamesFound(columns: seq<ColumnDef>)
    ensures forall i :: 0 <= i < |columns| ==> ColumnIndex(columns, columns[i].name).Some?
  {
  }

  lemma AutomaticExist(name: string, columns: seq<ColumnDef>, constraints: seq<TableConstraint>)
    requires ConstraintsExist(columns, constraints)
    ensures IndexesExist(columns, AutomaticIndexes(name, columns, constraints))
  {
    ConstraintIndexesExist(columns, name, constraints);
    OwnNamesFound(columns);
    ColumnIndexesExist(columns, name, columns, ConstraintIndexes(name, constraints));
  }

  lemma {:induction false} ManualExist(columns: seq<ColumnDef>, indexes: seq<IndexDef>)
    requires IndexesExist(columns, indexes)
    ensures IndexesExist(columns, ManualIndexes(indexes))
    decreases indexes
  {
    if indexes != [] {
      ManualExist(columns, indexes[1..]);
    }
  }

  lemma RefreshKeepsOk(schema: TableSchema, rows: seq<Row>)
    requires SchemaOk(schema) && Typed(schema, rows)
    ensures SchemaOk(Refresh(schema)) && Typed(Refresh(schema), rows)
  {
    var columns := FlagColumns(ClearFlags(schema.columns), schema.constraints);
    SameColumnsFind(schema.columns, columns);
    FindsKeepsSchema(schema.columns, columns, schema.constraints, schema.indexes);
    AutomaticExist(schema.name, columns, schema.constraints);
    ManualExist(columns, schema.indexes);
  }

  // ------------------------------------------------------------- schema statements

  lemma CreateTableKeepsOk(db: Db, s: Statement)
    requires s.CreateTable? && StatementOk(s) && DbOk(db) && Changed(db, s).Ok?
    ensures DbOk(Changed(db, s).value)
  {
    var flagged := FlagPrimaryKeys(s.columns, s.constraints);
    if Lower(s.table) !in db {
      SameColumnsFind(s.columns, flagged);
      forall c | 0 <= c < |s.constraints| ensures ColumnsExist(s.columns, ConstraintColumns(s.constraints[c])) {
      }
      FindsKeepsSchema(s.columns, flagged, s.constraints, []);
      AutomaticExist(Lower(s.table), flagged, s.constraints);
    }
  }

  lemma RenamedFound(columns: seq<ColumnDef>, at: nat, oldName: string, column: ColumnDef, n: string)
    requires at < |columns| && SameName(columns[at].name, oldName) && ColumnIndex(columns, n).Some?
    ensures ColumnIndex(columns[at := column], RenameName(n, oldName, column.name)).Some?
  {
    var changed := columns[at := column];
    if SameName(n, oldName) {
      assert SameName(changed[at].name, column.name);
    } else {
      var i := ColumnIndex(columns, n).value;
      assert i != at && changed[i] == columns[i];
    }
  }

  lemma RenamedNamesFound(columns: seq<ColumnDef>, at: nat, oldName: string, column: ColumnDef, names: seq<string>)
    requires at < |columns| && SameName(columns[at].name, oldName) && ColumnsExist(columns, names)
    ensures ColumnsExist(columns[at := column], RenameNames(names, oldName, column.name))
  {
    forall k | 0 <= k < |names| ensures ColumnIndex(columns[at := column], RenameNames(names, oldName, column.name)[k]).Some? {
      RenamedFound(columns, at, oldName, column, names[k]);
    }
  }

  lemma {:induction false} RenamedStaysSimple(e: Expr, oldName: string, newName: string)
    requires NoSubquery(e)
    ensures NoSubquery(RenameExpr(e, oldName, newName))
    decreases e
  {
    match e
    case Binary(left, _, right) => RenamedStaysSimple(left, oldName, newName); RenamedStaysSimple(right, oldName, newName);
    case Unary(_, x) => RenamedStaysSimple(x, oldName, newName);
    case IsNull(x, _) => RenamedStaysSimple(x, oldName, newName);
    case LikeExpr(x, p, _) => RenamedStaysSimple(x, oldName, newName); RenamedStaysSimple(p, oldName, newName);
    case InList(x, list, _) =>
      RenamedStaysSimple(x, oldName, newName);
      forall i | 0 <= i < |list| ensures NoSubquery(RenameExpr(list[i], oldName, newName)) {
        RenamedStaysSimple(list[i], oldName, newName);
      }
    case _ =>
  }

  /** A rename of a column and of all references to it leaves every reference resolvable. */
  lemma RenameKeepsSchema(schema: TableSchema, at: nat, oldName: string, column: ColumnDef)
    requires SchemaOk(schema) && at < |schema.columns| && SameName(schema.columns[at].name, oldName)
    ensures SchemaOk(RenameReferences(schema, oldName, column.name).(columns := schema.columns[at := column]))
  {
    var columns, renamed := schema.columns[at := column], RenameReferences(schema, oldName, column.name);
    forall i | 0 <= i < |renamed.indexes| ensures ColumnsExist(columns, renamed.indexes[i].columns) {
      RenamedNamesFound(schema.columns, at, oldName, column, schema.indexes[i].columns);
    }
    forall c | 0 <= c < |renamed.constraints| ensures ColumnsExist(columns, ConstraintColumns(renamed.constraints[c])) {
      RenamedNamesFound(schema.columns, at, oldName, column, ConstraintColumns(schema.constraints[c]));
    }
    forall c | 0 <= c < |renamed.constraints| && renamed.constraints[c].Check? ensures NoSubquery(renamed.constraints[c].expr) {
      RenamedStaysSimple(schema.constraints[c].expr, oldName, column.name);
    }
  }

  /** Replacing a column by one of the same name keeps every reference resolvable. */
  lemma ReplaceKeepsSchema(schema: TableSchema, at: nat, column: ColumnDef)
    requires SchemaOk(schema) && at < |schema.columns| && SameName(schema.columns[at].name, column.name)
    ensures SchemaOk(schema.(columns := schema.columns[at := column]))
  {
    var columns := schema.columns[at := column];
    forall n | ColumnIndex(schema.columns, n).Some? ensures ColumnIndex(columns, n).Some? {
      var i := ColumnIndex(schema.columns, n).value;
      assert SameName(columns[i].name, n);
    }
    FindsKeepsSchema(schema.columns, columns, schema.constraints, schema.indexes);
  }

  lemma AddColumnKeepsOk(a: Altered, name: string, op: AlterOperation)
    requires op.AddColumn? && OperationOk(op) && SchemaOk(a.schema) && Typed(a.schema, a.rows) && DbOk(a.db)
    requires ApplyOperation(a, name, op).Ok?
    ensures AlteredOk(ApplyOperation(a, name, op).value)
  {
    if ColumnIndex(a.schema.columns, op.column.name).None? {
      var columns, constraints := a.schema.columns + [op.column], a.schema.constraints + op.constraints;
      forall n | ColumnIndex(a.schema.columns, n).Some? ensures ColumnIndex(columns, n).Some? {
        assert columns[ColumnIndex(a.schema.columns, n).value] == a.schema.columns[ColumnIndex(a.schema.columns, n).value];
      }
      FindsKeepsSchema(a.schema.columns, columns, a.schema.constraints, a.schema.indexes);
      assert columns[|a.schema.columns|] == op.column;
      forall c | 0 <= c < |constraints|
        ensures ColumnsExist(columns, ConstraintColumns(constraints[c]))
        ensures constraints[c].Check? ==> NoSubquery(constraints[c].expr)
      {
        if c < |a.schema.constraints| {
          assert constraints[c] == a.schema.constraints[c];
        } else {
          assert constraints[c] == op.constraints[c - |a.schema.constraints|];
        }
      }
      CoercedHasType(if op.column.default.Some? then op.column.default.value else Null, op.column.dataType);
    }
  }

  ghost predicate AlteredOk(a: Altered) {
    SchemaOk(a.schema) && Typed(a.schema, a.rows) && DbOk(a.db)
  }

  lemma DroppedFound(columns: seq<ColumnDef>, at: nat, name: string, n: string)
    requires ColumnIndex(columns, name) == Some(at) && ColumnIndex(columns, n).Some? && !SameName(n, name)
    ensures ColumnIndex(RemoveAt(columns, at), n).Some?
  {
    var i, fewer := ColumnIndex(columns, n).value, RemoveAt(columns, at);
    assert i != at;
    assert fewer[if i < at then i else i - 1] == columns[i];
  }

  lemma DropColumnKeepsOk(a: Altered, name: string, op: AlterOperation)
    requires op.DropColumn? && AlteredOk(a) && ApplyOperation(a, name, op).Ok?
    ensures AlteredOk(ApplyOperation(a, name, op).value)
  {
    var at := ColumnIndex(a.schema.columns, op.name);
    if at.Some? {
      var columns := RemoveAt(a.schema.columns, at.value);
      forall i | 0 <= i < |a.schema.indexes| ensures ColumnsExist(columns, a.schema.indexes[i].columns) {
        forall k | 0 <= k < |a.schema.indexes[i].columns| ensures ColumnIndex(columns, a.schema.indexes[i].columns[k]).Some? {
          DroppedFound(a.schema.columns, at.value, op.name, a.schema.indexes[i].columns[k]);
        }
      }
      forall c | 0 <= c < |a.schema.constraints| ensures ColumnsExist(columns, ConstraintColumns(a.schema.constraints[c])) {
        var names := ConstraintColumns(a.schema.constraints[c]);
        forall k | 0 <= k < |names| ensures ColumnIndex(columns, names[k]).Some? {
          DroppedFound(a.schema.columns, at.value, op.name, names[k]);
        }
      }
    }
  }

  lemma FollowKeepsOk(db: Db, table: string, oldName: string, newName: string)
    requires DbOk(db)
    ensures DbOk(FollowRenameInCatalog(db, table, oldName, newName))
  {
    forall name | name in db && FollowsRename(db[name], table, oldName) ensures TableOk(Followed(db[name], table, oldName, newName)) {
      var t := db[name];
      var schema := t.schema.(constraints := seq(|t.schema.constraints|, i requires 0 <= i < |t.schema.constraints| =>
                                FollowRename(t.schema.constraints[i], table, oldName, newName)));
      forall c | 0 <= c < |schema.constraints| ensures ColumnsExist(schema.columns, ConstraintColumns(schema.constraints[c])) {
        assert ColumnsExist(t.schema.columns, ConstraintColumns(t.schema.constraints[c]));
      }
      RefreshKeepsOk(schema, t.rows);
    }
  }

  lemma RenameColumnKeepsOk(a: Altered, name: string, op: AlterOperation)
    requires op.RenameColumn? && AlteredOk(a) && ApplyOperation(a, name, op).Ok?
    ensures AlteredOk(ApplyOperation(a, name, op).value)
  {
    var at := ColumnIndex(a.schema.columns, op.oldName).value;
    var column := a.schema.columns[at].(name := op.newName);
    RenameKeepsSchema(a.schema, at, op.oldName, column);
    FollowKeepsOk(a.db, name, op.oldName, op.newName);
  }

  lemma CoercedCellsTyped(schema: TableSchema, rows: seq<Row>, at: nat, column: ColumnDef, t: DataType)
    requires Typed(schema, rows) && at < |schema.columns| && column.dataType == t && CoerceCells(rows, at, t).Ok?
    ensures Typed(schema.(columns := schema.columns[at := column]), CoerceCells(rows, at, t).value)
  {
    var coerced := CoerceCells(rows, at, t).value;
    var cells := seq(|rows|, i requires 0 <= i < |rows| => CoerceCell(rows[i], at, t));
    forall i | 0 <= i < |coerced| ensures |coerced[i]| == |rows[i]| && coerced[i] == rows[i][at := coerced[i][at]] && HasType(coerced[i][at], t) {
      assert cells[i].Ok?;
      CoercedHasType(rows[i][at], t);
    }
  }

  lemma {:induction false} AddedConstraintsExist(columns: seq<ColumnDef>, existing: seq<TableConstraint>, added: seq<TableConstraint>)
    requires ConstraintsExist(columns, existing) && ConstraintsExist(columns, added)
    ensures ConstraintsExist(columns, AddNewConstraints(existing, added))
    ensures ChecksSimple(existing) && ChecksSimple(added) ==> ChecksSimple(AddNewConstraints(existing, added))
    decreases added
  {
    if added != [] {
      AddedConstraintsExist(columns, existing, added[..|added| - 1]);
    }
  }

  lemma ModifyColumnKeepsOk(a: Altered, name: string, op: AlterOperation)
    requires op.ModifyColumn? && OperationOk(op) && AlteredOk(a) && ApplyOperation(a, name, op).Ok?
    ensures AlteredOk(ApplyOperation(a, name, op).value)
  {
    var at := ColumnIndex(a.schema.columns, op.oldName).value;
    var columns := a.schema.columns[at := op.column];
    var renamed := if SameName(op.oldName, op.column.name) then a.schema else RenameReferences(a.schema, op.oldName, op.column.name);
    if SameName(op.oldName, op.column.name) {
      ReplaceKeepsSchema(a.schema, at, op.column);
    } else {
      RenameKeepsSchema(a.schema, at, op.oldName, op.column);
    }
    assert SchemaOk(renamed.(columns := columns));
    assert columns[at] == op.column;
    forall c | 0 <= c < |op.constraints| ensures ColumnsExist(columns, ConstraintColumns(op.constraints[c])) {
      forall k | 0 <= k < |ConstraintColumns(op.constraints[c])|
        ensures ColumnIndex(columns, ConstraintColumns(op.constraints[c])[k]).Some?
      {
        assert SameName(columns[at].name, ConstraintColumns(op.constraints[c])[k]);
      }
    }
    AddedConstraintsExist(columns, renamed.constraints, op.constraints);
    CoercedCellsTyped(a.schema, a.rows, at, op.column, op.column.dataType);
  }

  lemma ColumnChangeKeepsOk(a: Altered, name: string, op: AlterOperation)
    requires op.SetDefault? || op.SetNullable? || op.SetDataType?
    requires AlteredOk(a) && ApplyOperation(a, name, op).Ok?
    ensures AlteredOk(ApplyOperation(a, name, op).value)
  {
    var at := ColumnIndex(a.schema.columns, op.name).value;
    var column := ApplyOperation(a, name, op).value.schema.columns[at];
    ReplaceKeepsSchema(a.schema, at, column);
    if op.SetDataType? {
      CoercedCellsTyped(a.schema, a.rows, at, column, op.dataType);
    }
  }

  lemma ConstraintChangeKeepsOk(a: Altered, name: string, op: AlterOperation)
    requires op.AddConstraint? || op.DropConstraint? || op.DropPrimaryKey?
    requires OperationOk(op) && AlteredOk(a) && ApplyOperation(a, name, op).Ok?
    ensures AlteredOk(ApplyOperation(a, name, op).value)
  {
    var schema := ApplyOperation(a, name, op).value.schema;
    forall c | 0 <= c < |schema.constraints|
      ensures ColumnsExist(schema.columns, ConstraintColumns(schema.constraints[c]))
      ensures schema.constraints[c].Check? ==> NoSubquery(schema.constraints[c].expr)
    {
      if !(op.AddConstraint? && c == |a.schema.constraints|) {
        assert schema.constraints[c] in a.schema.constraints;
      }
    }
  }

  lemma OperationKeepsOk(a: Altered, name: string, op: AlterOperation)
    requires AlteredOk(a) && OperationOk(op) && ApplyOperation(a, name, op).Ok?
    ensures AlteredOk(ApplyOperation(a, name, op).value)
  {
    match op
    case AddColumn(_, _, _) => AddColumnKeepsOk(a, name, op);
    case DropColumn(_, _) => DropColumnKeepsOk(a, name, op);
    case RenameColumn(_, _) => RenameColumnKeepsOk(a, name, op);
    case ModifyColumn(_, _, _) => ModifyColumnKeepsOk(a, name, op);
    case SetDefault(_, _) => ColumnChangeKeepsOk(a, name, op);
    case SetNullable(_, _) => ColumnChangeKeepsOk(a, name, op);
    case SetDataType(_, _) => ColumnChangeKeepsOk(a, name, op);
    case AddConstraint(_) => ConstraintChangeKeepsOk(a, name, op);
    case DropConstraint(_, _) => ConstraintChangeKeepsOk(a, name, op);
    case DropPrimaryKey => ConstraintChangeKeepsOk(a, name, op);
  }

  lemma {:induction false} OperationsKeepOk(a: Altered, name: string, operations: seq<AlterOperation>)
    requires AlteredOk(a) && forall i :: 0 <= i < |operations| ==> OperationOk(operations[i])
    requires ApplyOperations(a, name, operations).Ok?
    ensures AlteredOk(ApplyOperations(a, name, operations).value)
    decreases operations
  {
    if operations != [] {
      var init, op := operations[..|operations| - 1], operations[|operations| - 1];
      OperationsKeepOk(a, name, init);
      var before := ApplyOperations(a, name, init).value;
      OperationKeepsOk(before, name, op);
      var step := ApplyOperation(before, name, op).value;
      RefreshKeepsOk(step.schema, step.rows);
    }
  }

  lemma AlterTableKeepsOk(db: Db, s: Statement)
    requires s.AlterTable? && StatementOk(s) && DbOk(db) && Changed(db, s).Ok?
    ensures DbOk(Changed(db, s).value)
  {
    var name := Lower(s.table);
    var a := Altered(db, db[name].schema, db[name].rows);
    OperationsKeepOk(a, name, s.operations);
    var altered := ApplyOperations(a, name, s.operations).value;
    RefreshKeepsOk(altered.schema, altered.rows);
  }

  lemma IndexStatementKeepsOk(db: Db, s: Statement)
    requires (s.CreateIndex? || s.DropIndex? || s.DropTable?) && DbOk(db) && Changed(db, s).Ok?
    ensures DbOk(Changed(db, s).value)
  {
  }

  lemma DataStatementKeepsOk(db: Db, s: Statement)
    requires (s.Insert? || s.Update? || s.Delete?) && DbOk(db) && Changed(db, s).Ok?
    ensures DbOk(Changed(db, s).value)
  {
    DataStatementKeepsTypes(db, s);
  }

  /** Every write statement keeps the invariant, ALTER TABLE in all its forms included. */
  lemma WritesKeepOk(db: Db, s: Statement)
    requires IsWrite(s) && StatementOk(s) && DbOk(db) && Changed(db, s).Ok?
    ensures DbOk(Changed(db, s).value)
  {
    match s
    case CreateTable(_, _, _, _) => CreateTableKeepsOk(db, s);
    case AlterTable(_, _) => AlterTableKeepsOk(db, s);
    case Insert(_, _, _, _) => DataStatementKeepsOk(db, s);
    case Update(_, _, _) => DataStatementKeepsOk(db, s);
    case Delete(_, _) => DataStatementKeepsOk(db, s);
    case _ => IndexStatementKeepsOk(db, s);
  }
}
