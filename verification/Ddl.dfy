/** Schema statements as transformations of schemas and rows (execute_create_table, execute_alter_table
    and their helpers in src/sql/executor.rs). */
module Ddl {
  import opened Wrappers
  import opened Ascii
  import opened Values
  import opened Syntax
  import opened Relations
  import opened Tables
  import opened Evaluator

  // ------------------------------------------------------------ derived metadata

  function ConstraintColumns(c: TableConstraint): seq<string> {
    if c.Check? then [] else c.columns
  }

  function JoinNames(names: seq<string>): string {
    if names == [] then ""
    else if |names| == 1 then names[0]
    else names[0] + "_" + JoinNames(names[1..])
  }

  function NameOr(name: Option<string>, generated: string): string {
    if name.Some? then name.value else generated
  }

  /** generated_constraint_name */
  function ConstraintName(table: string, c: TableConstraint): string {
    match c
    case PrimaryKey(name, _) => NameOr(name, table + "_pk")
    case Unique(name, columns) => NameOr(name, table + "_" + JoinNames(columns) + "_uk")
    case ForeignKey(name, columns, _, _) => NameOr(name, table + "_" + JoinNames(columns) + "_fk")
    case Check(name, _) => NameOr(name, table + "_check")
  }

  function ConstraintIndexes(table: string, constraints: seq<TableConstraint>): seq<IndexDef> {
    if constraints == [] then []
    else
      var last := constraints[|constraints| - 1];
      ConstraintIndexes(table, constraints[..|constraints| - 1])
      + if last.Check? then []
        else [IndexDef(ConstraintName(table, last), last.columns, !last.ForeignKey?, true)]
  }

  /** A flagged column gets an index of its own unless some index has exactly that column. */
  function ColumnIndexes(table: string, columns: seq<ColumnDef>, indexes: seq<IndexDef>): seq<IndexDef> {
    if columns == [] then indexes
    else
      var before := ColumnIndexes(table, columns[..|columns| - 1], indexes);
      var last := columns[|columns| - 1];
      if (last.primaryKey || last.unique) && !(exists i :: 0 <= i < |before| && before[i].columns == [last.name]) then
        before + [IndexDef(table + "_" + last.name + (if last.primaryKey then "_pk" else "_uk"), [last.name], true, true)]
      else before
  }

  function AutomaticIndexes(name: string, columns: seq<ColumnDef>, constraints: seq<TableConstraint>): seq<IndexDef> {
    ColumnIndexes(name, columns, ConstraintIndexes(name, constraints))
  }

  function ManualIndexes(indexes: seq<IndexDef>): seq<IndexDef> {
    if indexes == [] then []
    else (if indexes[0].automatic then [] else [indexes[0]]) + ManualIndexes(indexes[1..])
  }

  function FlagPrimary(columns: seq<ColumnDef>, names: seq<string>, single: bool): (r: seq<ColumnDef>)
    ensures |r| == |columns|
    ensures forall i :: 0 <= i < |columns| ==> r[i].name == columns[i].name && r[i].dataType == columns[i].dataType
    decreases |names|
  {
    if names == [] then columns
    else
      var before := FlagPrimary(columns, names[..|names| - 1], single);
      var at := ColumnIndex(before, names[|names| - 1]);
      if at.None? then before
      else before[at.value := before[at.value].(nullable := false, primaryKey := single, unique := single)]
  }

  function FlagConstraint(columns: seq<ColumnDef>, c: TableConstraint): (r: seq<ColumnDef>)
    ensures |r| == |columns|
    ensures forall i :: 0 <= i < |columns| ==> r[i].name == columns[i].name && r[i].dataType == columns[i].dataType
  {
    match c
    case PrimaryKey(_, names) => FlagPrimary(columns, names, |names| == 1)
    case Unique(_, names) =>
      if |names| != 1 || ColumnIndex(columns, names[0]).None? then columns
      else
        var at := ColumnIndex(columns, names[0]).value;
        columns[at := columns[at].(unique := true)]
    case _ => columns
  }

  function FlagColumns(columns: seq<ColumnDef>, constraints: seq<TableConstraint>): (r: seq<ColumnDef>)
    ensures |r| == |columns|
    ensures forall i :: 0 <= i < |columns| ==> r[i].name == columns[i].name && r[i].dataType == columns[i].dataType
  {
    if constraints == [] then columns
    else FlagConstraint(FlagColumns(columns, constraints[..|constraints| - 1]), constraints[|constraints| - 1])
  }

  function ClearFlags(columns: seq<ColumnDef>): (r: seq<ColumnDef>)
    ensures |r| == |columns|
  {
    seq(|columns|, i requires 0 <= i < |columns| => columns[i].(primaryKey := false, unique := false))
  }

  /** refresh_constraint_metadata: flags and automatic indexes are derived again from the constraints. */
  function Refresh(schema: TableSchema): TableSchema {
    var columns := FlagColumns(ClearFlags(schema.columns), schema.constraints);
    schema.(columns := columns,
            indexes := AutomaticIndexes(schema.name, columns, schema.constraints) + ManualIndexes(schema.indexes))
  }

  // ------------------------------------------------------------- CREATE and DROP

  /** The key columns that CREATE TABLE insists on. */
  predicate CreateIsValid(columns: seq<ColumnDef>, constraints: seq<TableConstraint>) {
    && (forall i, j :: 0 <= i < j < |columns| ==> !SameName(columns[i].name, columns[j].name))
    && (forall c, k :: 0 <= c < |constraints| && 0 <= k < |ConstraintColumns(constraints[c])| ==>
          ColumnIndex(columns, ConstraintColumns(constraints[c])[k]).Some?)
    && (forall c, d :: 0 <= c < d < |constraints| ==> !(constraints[c].PrimaryKey? && constraints[d].PrimaryKey?))
  }

  function FlagPrimaryKeys(columns: seq<ColumnDef>, constraints: seq<TableConstraint>): (r: seq<ColumnDef>)
    ensures |r| == |columns|
    ensures forall i :: 0 <= i < |columns| ==> r[i].name == columns[i].name && r[i].dataType == columns[i].dataType
  {
    if constraints == [] then columns
    else
      var before := FlagPrimaryKeys(columns, constraints[..|constraints| - 1]);
      var last := constraints[|constraints| - 1];
      if last.PrimaryKey? then FlagPrimary(before, last.columns, |last.columns| == 1) else before
  }

  function CreateTableOf(db: Db, table: string, columns: seq<ColumnDef>, constraints: seq<TableConstraint>, ifNotExists: bool): Result<Db> {
    var name := Lower(table);
    if name in db then (if ifNotExists then Ok(db) else Err)
    else if !CreateIsValid(columns, constraints) then Err
    else
      var flagged := FlagPrimaryKeys(columns, constraints);
      Ok(db[name := Plain(TableSchema(name, flagged, constraints, AutomaticIndexes(name, flagged, constraints)), [])])
  }

  predicate References(t: Table, name: string) {
    exists c :: 0 <= c < |t.schema.constraints| && t.schema.constraints[c].ForeignKey?
                && SameName(t.schema.constraints[c].foreignTable, name)
  }

  function DropTableOf(db: Db, table: string, ifExists: bool): Result<Db> {
    var name := Lower(table);
    if name !in db then (if ifExists then Ok(db) else Err)
    else if exists other :: other in db && other != name && References(db[other], name) then Err
    else Ok(db - {name})
  }

  function FindIndex(indexes: seq<IndexDef>, name: string): (r: Option<nat>)
    ensures r.Some? ==> r.value < |indexes| && SameName(indexes[r.value].name, name)
  {
    if indexes == [] then None
    else if SameName(indexes[0].name, name) then Some(0)
    else
      var rest := FindIndex(indexes[1..], name);
      if rest.Some? then Some(rest.value + 1) else None
  }

  function CreateIndexOf(db: Db, index: string, table: string, columns: seq<string>, unique: bool, ifNotExists: bool): Result<Db> {
    var name := Lower(table);
    if name !in db then Err
    else
      var t := db[name];
      if FindIndex(t.schema.indexes, index).Some? then (if ifNotExists then Ok(db) else Err)
      else if columns == [] || exists k :: 0 <= k < |columns| && ColumnIndex(t.schema.columns, columns[k]).None? then Err
      else Ok(db[name := Plain(t.schema.(indexes := t.schema.indexes + [IndexDef(Lower(index), columns, unique, false)]), t.rows)])
  }

  function DropIndexOf(db: Db, index: string, table: string, ifExists: bool): Result<Db> {
    var name := Lower(table);
    if name !in db then Err
    else
      var t := db[name];
      var at := FindIndex(t.schema.indexes, index);
      if at.None? then (if ifExists then Ok(db) else Err)
      else if t.schema.indexes[at.value].automatic then Err
      else Ok(db[name := Plain(t.schema.(indexes := t.schema.indexes[..at.value] + t.schema.indexes[at.value + 1..]), t.rows)])
  }

  // ----------------------------------------------------------------- ALTER TABLE

  function RenameName(name: string, oldName: string, newName: string): string {
    if SameName(name, oldName) then newName else name
  }

  function RenameNames(names: seq<string>, oldName: string, newName: string): (r: seq<string>)
    ensures |r| == |names|
  {
    seq(|names|, i requires 0 <= i < |names| => RenameName(names[i], oldName, newName))
  }

  /** rename_expr; it does not enter subqueries or aggregates. */
  function RenameExpr(e: Expr, oldName: string, newName: string): Expr {
    match e
    case Column(q, name) => Column(q, RenameName(name, oldName, newName))
    case Binary(left, op, right) => Binary(RenameExpr(left, oldName, newName), op, RenameExpr(right, oldName, newName))
    case Unary(op, x) => Unary(op, RenameExpr(x, oldName, newName))
    case IsNull(x, negated) => IsNull(RenameExpr(x, oldName, newName), negated)
    case LikeExpr(x, p, negated) => LikeExpr(RenameExpr(x, oldName, newName), RenameExpr(p, oldName, newName), negated)
    case InList(x, list, negated) =>
      InList(RenameExpr(x, oldName, newName),
             seq(|list|, i requires 0 <= i < |list| => RenameExpr(list[i], oldName, newName)), negated)
    case _ => e
  }

  function RenameConstraint(table: string, c: TableConstraint, oldName: string, newName: string): TableConstraint {
    match c
    case PrimaryKey(name, columns) => PrimaryKey(name, RenameNames(columns, oldName, newName))
    case Unique(name, columns) => Unique(name, RenameNames(columns, oldName, newName))
    case Check(name, e) => Check(name, RenameExpr(e, oldName, newName))
    case ForeignKey(name, columns, foreign, referred) =>
      ForeignKey(name, RenameNames(columns, oldName, newName), foreign,
                 if SameName(foreign, table) then RenameNames(referred, oldName, newName) else referred)
  }

  /** rename_schema_references */
  function RenameReferences(schema: TableSchema, oldName: string, newName: string): TableSchema {
    schema.(
      constraints := seq(|schema.constraints|, i requires 0 <= i < |schema.constraints| =>
                       RenameConstraint(schema.name, schema.constraints[i], oldName, newName)),
      indexes := seq(|schema.indexes|, i requires 0 <= i < |schema.indexes| =>
                   schema.indexes[i].(columns := RenameNames(schema.indexes[i].columns, oldName, newName))))
  }

  /** Foreign keys of another table follow a renamed referenced column. */
  function FollowRename(c: TableConstraint, table: string, oldName: string, newName: string): TableConstraint {
    if c.ForeignKey? && SameName(c.foreignTable, table)
    then c.(referred := RenameNames(c.referred, oldName, newName)) else c
  }

  predicate FollowsRename(t: Table, table: string, oldName: string) {
    exists c :: 0 <= c < |t.schema.constraints| && t.schema.constraints[c].ForeignKey?
                && SameName(t.schema.constraints[c].foreignTable, table)
                && exists k :: 0 <= k < |t.schema.constraints[c].referred| && SameName(t.schema.constraints[c].referred[k], oldName)
  }

  function Followed(t: Table, table: string, oldName: string, newName: string): Table {
    Plain(Refresh(t.schema.(constraints := seq(|t.schema.constraints|, i requires 0 <= i < |t.schema.constraints| =>
                              FollowRename(t.schema.constraints[i], table, oldName, newName)))),
          t.rows)
  }

  function FollowRenameInCatalog(db: Db, table: string, oldName: string, newName: string): Db {
    map name | name in db ::
      if name != table && FollowsRename(db[name], table, oldName) then Followed(db[name], table, oldName, newName) else db[name]
  }

  function AppendCell(rows: seq<Row>, v: Value): (r: seq<Row>)
    ensures |r| == |rows|
  {
    seq(|rows|, i requires 0 <= i < |rows| => rows[i] + [v])
  }

  function DropCell(rows: seq<Row>, at: nat): (r: seq<Row>)
    ensures |r| == |rows|
  {
    seq(|rows|, i requires 0 <= i < |rows| => if at < |rows[i]| then rows[i][..at] + rows[i][at + 1..] else rows[i])
  }

  function CoerceCell(row: Row, at: nat, t: DataType): (r: Result<Row>)
    ensures r.Ok? ==> |r.value| == |row|
  {
    if at >= |row| || CoerceTo(row[at], t).None? then Err else Ok(row[at := CoerceTo(row[at], t).value])
  }

  function CoerceCells(rows: seq<Row>, at: nat, t: DataType): (r: Result<seq<Row>>)
    ensures r.Ok? ==> |r.value| == |rows|
  {
    Collect(seq(|rows|, i requires 0 <= i < |rows| => CoerceCell(rows[i], at, t)))
  }

  predicate UsesColumn(names: seq<string>, name: string) {
    exists k :: 0 <= k < |names| && SameName(names[k], name)
  }

  predicate ReferencedLocally(schema: TableSchema, name: string) {
    || (exists c :: 0 <= c < |schema.constraints| && UsesColumn(ConstraintColumns(schema.constraints[c]), name))
    || (exists i :: 0 <= i < |schema.indexes| && UsesColumn(schema.indexes[i].columns, name))
  }

  predicate ReferencedFromOutside(db: Db, table: string, name: string) {
    exists other :: other in db && other != table && FollowsRename(db[other], table, name)
  }

  predicate SameKind(a: TableConstraint, b: TableConstraint) {
    (a.PrimaryKey? && b.PrimaryKey?) || (a.Unique? && b.Unique?) || (a.Check? && b.Check?) || (a.ForeignKey? && b.ForeignKey?)
  }

  /** MODIFY COLUMN adds a constraint unless one of its kind has the same columns. */
  function AddNewConstraints(existing: seq<TableConstraint>, added: seq<TableConstraint>): seq<TableConstraint> {
    if added == [] then existing
    else
      var before := AddNewConstraints(existing, added[..|added| - 1]);
      var last := added[|added| - 1];
      if exists c :: 0 <= c < |before| && SameKind(before[c], last) && ConstraintColumns(before[c]) == ConstraintColumns(last)
      then before else before + [last]
  }

  /** validate_expr_columns; it does not enter subqueries or aggregates. */
  predicate ExprColumnsExist(e: Expr, columns: seq<ColumnDef>) {
    match e
    case Column(_, name) => ColumnIndex(columns, name).Some?
    case Binary(left, _, right) => ExprColumnsExist(left, columns) && ExprColumnsExist(right, columns)
    case Unary(_, x) => ExprColumnsExist(x, columns)
    case IsNull(x, _) => ExprColumnsExist(x, columns)
    case LikeExpr(x, p, _) => ExprColumnsExist(x, columns) && ExprColumnsExist(p, columns)
    case InList(x, list, _) => ExprColumnsExist(x, columns) && forall i :: 0 <= i < |list| ==> ExprColumnsExist(list[i], columns)
    case _ => true
  }

  function FindConstraint(table: string, constraints: seq<TableConstraint>, name: string): (r: Option<nat>)
    ensures r.Some? ==> r.value < |constraints|
  {
    if constraints == [] then None
    else if (constraints[0].name.Some? && SameName(constraints[0].name.value, name))
            || SameName(ConstraintName(table, constraints[0]), name) then Some(0)
    else
      var rest := FindConstraint(table, constraints[1..], name);
      if rest.Some? then Some(rest.value + 1) else None
  }

  function FindPrimaryKey(constraints: seq<TableConstraint>): (r: Option<nat>)
    ensures r.Some? ==> r.value < |constraints|
  {
    if constraints == [] then None
    else if constraints[0].PrimaryKey? then Some(0)
    else
      var rest := FindPrimaryKey(constraints[1..]);
      if rest.Some? then Some(rest.value + 1) else None
  }

  function RemoveAt<T>(s: seq<T>, at: nat): seq<T>
    requires at < |s|
  {
    s[..at] + s[at + 1..]
  }

  datatype Altered = Altered(db: Db, schema: TableSchema, rows: seq<Row>)

  /** apply_alter_operation before its final refresh. */
  function ApplyOperation(a: Altered, name: string, op: AlterOperation): Result<Altered> {
    var schema, rows := a.schema, a.rows;
    match op
    case AddColumn(column, constraints, ifNotExists) =>
      if ColumnIndex(schema.columns, column.name).Some? then (if ifNotExists then Ok(a) else Err)
      else
        var v := CoerceTo(if column.default.Some? then column.default.value else Null, column.dataType);
        if v.None? || (v.value.Null? && !column.nullable && rows != []) then Err
        else Ok(a.(schema := schema.(columns := schema.columns + [column], constraints := schema.constraints + constraints),
                   rows := AppendCell(rows, v.value)))
    case DropColumn(column, ifExists) =>
      var at := ColumnIndex(schema.columns, column);
      if at.None? then (if ifExists then Ok(a) else Err)
      else if |schema.columns| == 1 || ReferencedLocally(schema, column) || ReferencedFromOutside(a.db, name, column) then Err
      else Ok(a.(schema := schema.(columns := RemoveAt(schema.columns, at.value)), rows := DropCell(rows, at.value)))
    case RenameColumn(oldName, newName) =>
      var at := ColumnIndex(schema.columns, oldName);
      if ColumnIndex(schema.columns, newName).Some? || at.None? then Err
      else
        var columns := schema.columns[at.value := schema.columns[at.value].(name := newName)];
        Ok(Altered(FollowRenameInCatalog(a.db, name, oldName, newName),
                   RenameReferences(schema.(columns := columns), oldName, newName), rows))
    case ModifyColumn(oldName, column, constraints) =>
      var at := ColumnIndex(schema.columns, oldName);
      if at.None? then Err
      else if !SameName(oldName, column.name) && ColumnIndex(schema.columns, column.name).Some? then Err
      else
        var renamed := if SameName(oldName, column.name) then schema else RenameReferences(schema, oldName, column.name);
        var coerced := CoerceCells(rows, at.value, column.dataType);
        if coerced.Err? then Err
        else Ok(a.(schema := renamed.(columns := schema.columns[at.value := column],
                                      constraints := AddNewConstraints(renamed.constraints, constraints)),
                   rows := coerced.value))
    case SetDefault(column, default) =>
      var at := ColumnIndex(schema.columns, column);
      if at.None? || (default.Some? && CoerceTo(default.value, schema.columns[at.value].dataType).None?) then Err
      else
        var v := if default.Some? then CoerceTo(default.value, schema.columns[at.value].dataType) else None;
        Ok(a.(schema := schema.(columns := schema.columns[at.value := schema.columns[at.value].(default := v)])))
    case SetNullable(column, nullable) =>
      var at := ColumnIndex(schema.columns, column);
      if at.None? || (nullable && schema.columns[at.value].primaryKey) then Err
      else if !nullable && exists i :: 0 <= i < |rows| && Cell(rows[i], at.value).Null? then Err
      else Ok(a.(schema := schema.(columns := schema.columns[at.value := schema.columns[at.value].(nullable := nullable)])))
    case SetDataType(column, dataType) =>
      var at := ColumnIndex(schema.columns, column);
      if at.None? then Err
      else
        var coerced := CoerceCells(rows, at.value, dataType);
        var default := schema.columns[at.value].default;
        if coerced.Err? || (default.Some? && CoerceTo(default.value, dataType).None?) then Err
        else
          var v := if default.Some? then CoerceTo(default.value, dataType) else None;
          var changed := schema.columns[at.value].(dataType := dataType, default := v);
          Ok(a.(schema := schema.(columns := schema.columns[at.value := changed]), rows := coerced.value))
    case AddConstraint(c) =>
      if c.name.Some? && exists i :: 0 <= i < |schema.constraints| && schema.constraints[i].name.Some?
                                     && SameName(schema.constraints[i].name.value, c.name.value) then Err
      else if c.PrimaryKey? && FindPrimaryKey(schema.constraints).Some? then Err
      else if exists k :: 0 <= k < |ConstraintColumns(c)| && ColumnIndex(schema.columns, ConstraintColumns(c)[k]).None? then Err
      else if c.Check? && !ExprColumnsExist(c.expr, schema.columns) then Err
      else Ok(a.(schema := schema.(constraints := schema.constraints + [c])))
    case DropConstraint(constraint, ifExists) =>
      var at := FindConstraint(schema.name, schema.constraints, constraint);
      if at.None? then (if ifExists then Ok(a) else Err)
      else Ok(a.(schema := schema.(constraints := RemoveAt(schema.constraints, at.value))))
    case DropPrimaryKey =>
      var at := FindPrimaryKey(schema.constraints);
      if at.None? then Err else Ok(a.(schema := schema.(constraints := RemoveAt(schema.constraints, at.value))))
  }

  /** IF [NOT] EXISTS operations with nothing to do return before the refresh. */
  predicate Skips(schema: TableSchema, op: AlterOperation) {
    || (op.AddColumn? && op.ifNotExists && ColumnIndex(schema.columns, op.column.name).Some?)
    || (op.DropColumn? && op.ifExists && ColumnIndex(schema.columns, op.name).None?)
  }

  /** Each operation is followed by a refresh; a failed operation fails the statement. */
  function ApplyOperations(a: Altered, name: string, operations: seq<AlterOperation>): Result<Altered> {
    if operations == [] then Ok(a)
    else
      var before := ApplyOperations(a, name, operations[..|operations| - 1]);
      if before.Err? then Err
      else
        var op := operations[|operations| - 1];
        var step := ApplyOperation(before.value, name, op);
        if step.Err? || Skips(before.value.schema, op) then step
        else Ok(step.value.(schema := Refresh(step.value.schema)))
  }

  function AlterTableOf(db: Db, table: string, operations: seq<AlterOperation>): Result<Db> {
    var name := Lower(table);
    if name !in db then Err
    else
      var altered := ApplyOperations(Altered(db, db[name].schema, db[name].rows), name, operations);
      if altered.Err? then Err
      else Ok(altered.value.db[name := Plain(Refresh(altered.value.schema), altered.value.rows)])
  }

  /** The catalog after a schema statement, before it is validated. */
  function SchemaChange(db: Db, s: Statement): Result<Db>
    requires IsSchemaStatement(s)
  {
    match s
    case CreateTable(table, columns, constraints, ifNotExists) => CreateTableOf(db, table, columns, constraints, ifNotExists)
    case DropTable(table, ifExists) => DropTableOf(db, table, ifExists)
    case CreateIndex(index, table, columns, unique, ifNotExists) => CreateIndexOf(db, index, table, columns, unique, ifNotExists)
    case DropIndex(index, table, ifExists) => DropIndexOf(db, index, table, ifExists)
    case AlterTable(table, operations) => AlterTableOf(db, table, operations)
  }
}
