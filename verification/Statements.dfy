/** What INSERT, UPDATE and DELETE mean on tables reduced to schema and rows, and what it means for a
    catalog to satisfy its constraints (execute_insert, execute_update, execute_delete and
    validate_catalog in src/sql/executor.rs). */
module Statements {
  import opened Wrappers
  import opened Ascii
  import opened Values
  import opened Syntax
  import opened Relations
  import opened Tables
  import opened TableEngine
  import opened Evaluator

  // ------------------------------------------------------------ integrity constraints

  /** No two rows share a NULL-free key of a unique index. */
  ghost predicate UniqueHolds(schema: TableSchema, rows: seq<Row>) {
    forall i, j :: 0 <= i < j < |rows| ==> !Conflicts(schema, rows[i], rows[j])
  }

  /** A CHECK accepts TRUE and UNKNOWN, and must be evaluable. */
  predicate CheckHolds(db: Db, schema: TableSchema, row: Row, check: Expr) {
    var v := EvalExpr(db, check, TableColumns(Plain(schema, []), schema.name), row, None, map[]);
    v.Ok? && Truth(v.value) != False
  }

  predicate ChecksHold(db: Db, schema: TableSchema, row: Row) {
    forall c :: 0 <= c < |schema.constraints| && schema.constraints[c].Check? ==>
      CheckHolds(db, schema, row, schema.constraints[c].expr)
  }

  function LowerAll(names: seq<string>): (r: seq<string>)
    ensures |r| == |names|
  {
    seq(|names|, i requires 0 <= i < |names| => Lower(names[i]))
  }

  predicate ColumnsExist(columns: seq<ColumnDef>, names: seq<string>) {
    forall k :: 0 <= k < |names| ==> ColumnIndex(columns, names[k]).Some?
  }

  function CellsOf(columns: seq<ColumnDef>, names: seq<string>, row: Row): (r: Row)
    requires ColumnsExist(columns, names)
    ensures |r| == |names|
  {
    seq(|names|, k requires 0 <= k < |names| => Cell(row, ColumnIndex(columns, names[k]).value))
  }

  /** Every row whose referring columns are all non-NULL has a parent row with the same values. */
  predicate ForeignKeyHolds(db: Db, schema: TableSchema, rows: seq<Row>, fk: TableConstraint)
    requires fk.ForeignKey?
  {
    fk.foreignTable in db
    && var parent := db[fk.foreignTable];
    && (exists d :: d in parent.schema.indexes && d.unique && LowerAll(d.columns) == LowerAll(fk.referred))
    && ColumnsExist(schema.columns, fk.columns)
    && ColumnsExist(parent.schema.columns, fk.referred)
    && forall i :: 0 <= i < |rows| ==>
         var key := CellsOf(schema.columns, fk.columns, rows[i]);
         Null in key || exists j :: 0 <= j < |parent.rows| && CellsOf(parent.schema.columns, fk.referred, parent.rows[j]) <= key
  }

  ghost predicate TableSatisfies(db: Db, t: Table) {
    && (forall i :: 0 <= i < |t.rows| ==> ValidateRow(t.schema, t.rows[i]) && ChecksHold(db, t.schema, t.rows[i]))
    && UniqueHolds(t.schema, t.rows)
    && forall c :: 0 <= c < |t.schema.constraints| && t.schema.constraints[c].ForeignKey? ==>
         ForeignKeyHolds(db, t.schema, t.rows, t.schema.constraints[c])
  }

  /** Every table satisfies its column types, checks, unique keys and foreign keys. */
  ghost predicate ConstraintsHold(db: Db) {
    forall name :: name in db ==> TableSatisfies(db, db[name])
  }

  // ------------------------------------------------------------------ INSERT

  function EvalConstant(e: Expr): Result<Value> {
    EvalExpr(map[], e, [], [], None, map[])
  }

  function EvalConstants(es: seq<Expr>): (r: seq<Result<Value>>)
    ensures |r| == |es|
  {
    seq(|es|, k requires 0 <= k < |es| => EvalConstant(es[k]))
  }

  function ConstantRows(rows: seq<seq<Expr>>): (r: seq<Result<Row>>)
    ensures |r| == |rows|
  {
    seq(|rows|, i requires 0 <= i < |rows| => Collect(EvalConstants(rows[i])))
  }

  /** The rows an INSERT proposes, before they are matched to columns. */
  function ProposedRows(db: Db, source: InsertSource): Result<seq<Row>> {
    match source
    case ValueRows(rows) => Collect(ConstantRows(rows))
    case FromQuery(query) =>
      var relation :- ExecQuery(db, query, map[]);
      Ok(relation.rows)
  }

  /** Puts values into the named columns; an unknown or repeated column is an error. */
  function PlaceValues(columns: seq<ColumnDef>, names: seq<string>, values: Row, row: Row, used: set<nat>): (r: Result<Row>)
    requires |names| == |values|
    ensures r.Ok? ==> |r.value| == |row|
  {
    if names == [] then Ok(row)
    else
      var at := ColumnIndex(columns, names[0]);
      if at.None? || at.value in used || at.value >= |row| then Err
      else PlaceValues(columns, names[1..], values[1..], row[at.value := values[0]], used + {at.value})
  }

  /** Defaults replace NULLs, and values are coerced where they can be. */
  function CompleteCell(column: ColumnDef, v: Value): Value {
    var filled := if v.Null? && column.default.Some? then column.default.value else v;
    var coerced := CoerceTo(filled, column.dataType);
    if coerced.Some? then coerced.value else filled
  }

  function CompleteRow(columns: seq<ColumnDef>, row: Row): (r: Row)
    requires |row| == |columns|
    ensures |r| == |columns|
  {
    seq(|columns|, c requires 0 <= c < |columns| => CompleteCell(columns[c], row[c]))
  }

  function PrepareRow(columns: seq<ColumnDef>, target: Option<seq<string>>, values: Row): (r: Result<Row>)
    ensures r.Ok? ==> |r.value| == |columns|
  {
    match target
    case None => if |values| == |columns| then Ok(CompleteRow(columns, values)) else Err
    case Some(names) =>
      if |names| != |values| then Err
      else
        var placed :- PlaceValues(columns, names, values, Nulls(|columns|), {});
        Ok(CompleteRow(columns, placed))
  }

  function PrepareRows(columns: seq<ColumnDef>, target: Option<seq<string>>, rows: seq<Row>): (r: seq<Result<Row>>)
    ensures |r| == |rows|
  {
    seq(|rows|, i requires 0 <= i < |rows| => PrepareRow(columns, target, rows[i]))
  }

  /** bind_incoming: the proposed row's values replace VALUES(column), outside subqueries and aggregates. */
  function BindIncoming(e: Expr, columns: seq<ColumnDef>, incoming: Row): Expr {
    match e
    case Incoming(column) =>
      var at := ColumnIndex(columns, column);
      Literal(if at.Some? then Cell(incoming, at.value) else Null)
    case Binary(left, op, right) => Binary(BindIncoming(left, columns, incoming), op, BindIncoming(right, columns, incoming))
    case Unary(op, x) => Unary(op, BindIncoming(x, columns, incoming))
    case IsNull(x, negated) => IsNull(BindIncoming(x, columns, incoming), negated)
    case LikeExpr(x, p, negated) => LikeExpr(BindIncoming(x, columns, incoming), BindIncoming(p, columns, incoming), negated)
    case InList(x, list, negated) =>
      InList(BindIncoming(x, columns, incoming),
             seq(|list|, i requires 0 <= i < |list| => BindIncoming(list[i], columns, incoming)), negated)
    case _ => e
  }

  function CoerceOrKeep(v: Value, t: DataType): Value {
    var coerced := CoerceTo(v, t);
    if coerced.Some? then coerced.value else v
  }

  /** ON DUPLICATE KEY UPDATE: each assignment sees the effect of the ones before it. */
  function AssignDuplicate(db: Db, name: string, schema: TableSchema, incoming: Row, assignments: seq<Assignment>, current: Row): (r: Result<Row>)
    ensures r.Ok? ==> |r.value| == |current|
    decreases |assignments|
  {
    if assignments == [] then Ok(current)
    else
      var at := ColumnIndex(schema.columns, assignments[0].column);
      var bound := BindIncoming(assignments[0].expr, schema.columns, incoming);
      var v := EvalExpr(db, bound, TableColumns(Plain(schema, []), name), current, None, map[]);
      if at.None? || at.value >= |current| || v.Err? then Err
      else
        var cell := CoerceOrKeep(v.value, schema.columns[at.value].dataType);
        AssignDuplicate(db, name, schema, incoming, assignments[1..], current[at.value := cell])
  }

  datatype Effect = Effect(rows: seq<Row>, affected: nat)

  /** One proposed row against the rows so far. */
  function InsertRow(db: Db, name: string, schema: TableSchema, rows: seq<Row>, row: Row, onDuplicate: seq<Assignment>): (r: Result<Effect>)
    ensures r.Ok? ==> |r.value.rows| >= |rows|
  {
    var conflicts := ConflictPositions(schema, rows, row);
    if conflicts == {} then
      if ValidateRow(schema, row) then Ok(Effect(rows + [row], 1)) else Err
    else if onDuplicate == [] || |conflicts| != 1 then Err
    else
      var p := TheElement(conflicts);
      var updated := AssignDuplicate(db, name, schema, row, onDuplicate, rows[p]);
      if updated.Err? then Err
      else if updated.value == rows[p] then Ok(Effect(rows, 0))
      else if ValidateRow(schema, updated.value) then Ok(Effect(rows[p := updated.value], 2))
      else Err
  }

  /** The element of a singleton. */
  function TheElement(s: set<nat>): (r: nat)
    requires |s| == 1
    ensures s == {r}
  {
    SingletonHasOne(s);
    var x :| x in s;
    x
  }

  lemma SingletonHasOne(s: set<nat>)
    requires |s| == 1
    ensures s != {}
    ensures forall x, y :: x in s && y in s ==> x == y
    ensures forall x :: x in s ==> s == {x}
  {
    forall x, y | x in s && y in s ensures x == y {
      assert |s - {x}| == 0;
      assert s - {x} == {};
    }
  }

  function InsertRows(db: Db, name: string, schema: TableSchema, rows: seq<Row>, incoming: seq<Row>, onDuplicate: seq<Assignment>): Result<Effect>
    decreases |incoming|
  {
    if incoming == [] then Ok(Effect(rows, 0))
    else
      var last := |incoming| - 1;
      InsertNext(db, name, schema, InsertRows(db, name, schema, rows, incoming[..last], onDuplicate), incoming[last], onDuplicate)
  }

  function InsertNext(db: Db, name: string, schema: TableSchema, before: Result<Effect>, row: Row, onDuplicate: seq<Assignment>): Result<Effect> {
    if before.Err? then Err
    else
      var step := InsertRow(db, name, schema, before.value.rows, row, onDuplicate);
      if step.Err? then Err else Ok(Effect(step.value.rows, before.value.affected + step.value.affected))
  }

  // ------------------------------------------------------------ UPDATE and DELETE

  function SelectionHolds(db: Db, name: string, schema: TableSchema, selection: Option<Expr>, row: Row): Result<bool> {
    if selection.None? then Ok(true)
    else IsTrue(EvalExpr(db, selection.value, TableColumns(Plain(schema, []), name), row, None, map[]))
  }

  /** SET: every assignment sees the original row. */
  function AssignRow(db: Db, name: string, schema: TableSchema, original: Row, assignments: seq<Assignment>, current: Row): (r: Result<Row>)
    ensures r.Ok? ==> |r.value| == |current|
    decreases |assignments|
  {
    if assignments == [] then Ok(current)
    else
      var at := ColumnIndex(schema.columns, assignments[0].column);
      var v := EvalExpr(db, assignments[0].expr, TableColumns(Plain(schema, []), name), original, None, map[]);
      if at.None? || at.value >= |current| || v.Err? || CoerceTo(v.value, schema.columns[at.value].dataType).None? then Err
      else
        AssignRow(db, name, schema, original, assignments[1..],
                  current[at.value := CoerceTo(v.value, schema.columns[at.value].dataType).value])
  }

  /** None when the row is not selected. */
  function UpdateRow(db: Db, name: string, schema: TableSchema, assignments: seq<Assignment>, selection: Option<Expr>, row: Row): Result<Option<Row>> {
    var selected := SelectionHolds(db, name, schema, selection, row);
    if selected.Err? then Err
    else if !selected.value then Ok(None)
    else
      var updated := AssignRow(db, name, schema, row, assignments, row);
      if updated.Err? then Err else Ok(Some(updated.value))
  }

  function UpdateNext(before: Result<Effect>, step: Result<Option<Row>>, row: Row): (r: Result<Effect>)
    ensures r.Ok? ==> before.Ok? && |r.value.rows| == |before.value.rows| + 1
  {
    if before.Err? || step.Err? then Err
    else if step.value.None? then Ok(Effect(before.value.rows + [row], before.value.affected))
    else Ok(Effect(before.value.rows + [step.value.value], before.value.affected + 1))
  }

  /** The first n rows after UPDATE. */
  function UpdateRows(db: Db, name: string, schema: TableSchema, rows: seq<Row>, assignments: seq<Assignment>, selection: Option<Expr>, n: nat): (r: Result<Effect>)
    requires n <= |rows|
    ensures r.Ok? ==> |r.value.rows| == n
  {
    if n == 0 then Ok(Effect([], 0))
    else
      UpdateNext(UpdateRows(db, name, schema, rows, assignments, selection, n - 1),
                 UpdateRow(db, name, schema, assignments, selection, rows[n - 1]), rows[n - 1])
  }

  function DeleteNext(before: Result<Effect>, selected: Result<bool>, row: Row): Result<Effect> {
    if before.Err? || selected.Err? then Err
    else if selected.value then Ok(Effect(before.value.rows, before.value.affected + 1))
    else Ok(Effect(before.value.rows + [row], before.value.affected))
  }

  /** The rows that DELETE keeps among the first n. */
  function DeleteRows(db: Db, name: string, schema: TableSchema, rows: seq<Row>, selection: Option<Expr>, n: nat): Result<Effect>
    requires n <= |rows|
  {
    if n == 0 then Ok(Effect([], 0))
    else
      DeleteNext(DeleteRows(db, name, schema, rows, selection, n - 1),
                 SelectionHolds(db, name, schema, selection, rows[n - 1]), rows[n - 1])
  }

  /** The rows of one table after a data statement; other tables are not touched. */
  function ChangedRows(db: Db, s: Statement): Result<Effect>
    requires s.Insert? || s.Update? || s.Delete?
  {
    var name := Lower(s.table);
    if name !in db then Err
    else
      var t := db[name];
      match s
      case Insert(_, target, source, onDuplicate) =>
        var proposed :- ProposedRows(db, source);
        var prepared :- Collect(PrepareRows(t.schema.columns, target, proposed));
        InsertRows(db, name, t.schema, t.rows, prepared, onDuplicate)
      case Update(_, assignments, selection) =>
        UpdateRows(db, name, t.schema, t.rows, assignments, selection, |t.rows|)
      case Delete(_, selection) =>
        DeleteRows(db, name, t.schema, t.rows, selection, |t.rows|)
      case _ => Err
  }
}
