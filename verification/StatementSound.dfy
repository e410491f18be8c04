/** Optimizing a write statement does not change what it does to the tables. */
module StatementSound {
  import opened Wrappers
  import opened Values
  import opened Ascii
  import opened Syntax
  import opened Planner
  import opened Relations
  import opened Tables
  import opened TableEngine
  import opened Evaluator
  import opened OptimizerSound
  import opened Statements
  import opened SchemaInvariants

  ghost predicate SafeAssignments(assignments: seq<Assignment>) {
    forall i :: 0 <= i < |assignments| ==> SafeExpr(assignments[i].expr)
  }

  /** No expression of the statement folds a trap. */
  ghost predicate SafeStatement(s: Statement) {
    match s
    case Insert(_, _, source, onDuplicate) =>
      && SafeAssignments(onDuplicate)
      && (match source
          case ValueRows(rows) => forall i :: 0 <= i < |rows| ==> SafeAll(rows[i])
          case FromQuery(query) => SafeQuery(query))
    case Update(_, assignments, selection) => SafeAssignments(assignments) && SafeOption(selection)
    case Delete(_, selection) => SafeOption(selection)
    case Select(query) => SafeQuery(query)
    case _ => true
  }

  // ------------------------------------------------- folding under bind_incoming

  lemma {:induction false} GroundIsBound(e: Expr, columns: seq<ColumnDef>, incoming: Row)
    requires Ground(e)
    ensures BindIncoming(e, columns, incoming) == e
  {
    match e
    case Binary(left, _, right) => GroundIsBound(left, columns, incoming); GroundIsBound(right, columns, incoming);
    case Unary(_, x) => GroundIsBound(x, columns, incoming);
    case IsNull(x, _) => GroundIsBound(x, columns, incoming);
    case LikeExpr(x, p, _) => GroundIsBound(x, columns, incoming); GroundIsBound(p, columns, incoming);
    case _ =>
  }

  /** A folded assignment evaluates like the original after the proposed row is bound into both. */
  lemma {:induction false} BoundFoldSound(db: Db, e: Expr, schema: seq<ColumnDef>, incoming: Row, columns: seq<BoundColumn>, row: Row)
    requires PlainDb(db) && SafeExpr(e)
    ensures EvalExpr(db, BindIncoming(FoldExpr(e), schema, incoming), columns, row, None, map[])
         == EvalExpr(db, BindIncoming(e, schema, incoming), columns, row, None, map[])
    decreases e, 1
  {
    if FoldExpr(e).Literal? {
      FoldedLiteralIsGround(e);
      GroundIsBound(e, schema, incoming);
      FoldSound(db, e, columns, row, None, map[]);
    } else if e.Binary? {
      BoundFoldSound(db, e.left, schema, incoming, columns, row);
      BoundFoldSound(db, e.right, schema, incoming, columns, row);
    } else if e.InList? {
      BoundListSound(db, e, schema, incoming, columns, row);
    } else if e.LikeExpr? {
      BoundFoldSound(db, e.expr, schema, incoming, columns, row);
      BoundFoldSound(db, e.pattern, schema, incoming, columns, row);
    } else {
      BoundOtherSound(db, e, schema, incoming, columns, row);
    }
  }

  lemma {:induction false} BoundOtherSound(db: Db, e: Expr, schema: seq<ColumnDef>, incoming: Row, columns: seq<BoundColumn>, row: Row)
    requires PlainDb(db) && SafeExpr(e) && !FoldExpr(e).Literal?
    requires !e.Binary? && !e.InList? && !e.LikeExpr?
    ensures EvalExpr(db, BindIncoming(FoldExpr(e), schema, incoming), columns, row, None, map[])
         == EvalExpr(db, BindIncoming(e, schema, incoming), columns, row, None, map[])
    decreases e, 0
  {
    match e
    case Unary(_, x) => BoundFoldSound(db, x, schema, incoming, columns, row);
    case IsNull(x, _) => BoundFoldSound(db, x, schema, incoming, columns, row);
    case _ => FoldSound(db, e, columns, row, None, map[]);
  }

  lemma {:induction false} BoundListSound(db: Db, e: Expr, schema: seq<ColumnDef>, incoming: Row, columns: seq<BoundColumn>, row: Row)
    requires PlainDb(db) && SafeExpr(e) && e.InList?
    ensures EvalExpr(db, BindIncoming(FoldExpr(e), schema, incoming), columns, row, None, map[])
         == EvalExpr(db, BindIncoming(e, schema, incoming), columns, row, None, map[])
    decreases e, 0
  {
    BoundFoldSound(db, e.expr, schema, incoming, columns, row);
    var folded, bound := BindIncoming(FoldExpr(e), schema, incoming).list, BindIncoming(e, schema, incoming).list;
    forall i | 0 <= i < |e.list|
      ensures EvalExpr(db, folded[i], columns, row, None, map[]) == EvalExpr(db, bound[i], columns, row, None, map[])
    {
      assert FoldAll(e.list)[i] == FoldExpr(e.list[i]);
      BoundFoldSound(db, e.list[i], schema, incoming, columns, row);
    }
    assert EvalEach(db, folded, columns, row, None, map[]) == EvalEach(db, bound, columns, row, None, map[]);
  }

  // -------------------------------------------------------------------- INSERT

  lemma {:induction false} DuplicateSound(db: Db, name: string, schema: TableSchema, incoming: Row, assignments: seq<Assignment>, current: Row)
    requires PlainDb(db) && SafeAssignments(assignments)
    ensures AssignDuplicate(db, name, schema, incoming, OptimizeAssignments(assignments), current)
         == AssignDuplicate(db, name, schema, incoming, assignments, current)
    decreases |assignments|
  {
    if assignments != [] {
      var columns := TableColumns(Plain(schema, []), name);
      BoundFoldSound(db, assignments[0].expr, schema.columns, incoming, columns, current);
      assert OptimizeAssignments(assignments)[1..] == OptimizeAssignments(assignments[1..]);
      var at := ColumnIndex(schema.columns, assignments[0].column);
      var v := EvalExpr(db, BindIncoming(assignments[0].expr, schema.columns, incoming), columns, current, None, map[]);
      if at.Some? && at.value < |current| && v.Ok? {
        var cell := CoerceOrKeep(v.value, schema.columns[at.value].dataType);
        DuplicateSound(db, name, schema, incoming, assignments[1..], current[at.value := cell]);
      }
    }
  }

  lemma InsertRowSound(db: Db, name: string, schema: TableSchema, rows: seq<Row>, row: Row, onDuplicate: seq<Assignment>)
    requires PlainDb(db) && SafeAssignments(onDuplicate)
    ensures InsertRow(db, name, schema, rows, row, OptimizeAssignments(onDuplicate))
         == InsertRow(db, name, schema, rows, row, onDuplicate)
  {
    var conflicts := ConflictPositions(schema, rows, row);
    if |conflicts| == 1 {
      DuplicateSound(db, name, schema, row, onDuplicate, rows[TheElement(conflicts)]);
    }
  }

  lemma InsertNextSound(db: Db, name: string, schema: TableSchema, before: Result<Effect>, row: Row, onDuplicate: seq<Assignment>)
    requires PlainDb(db) && SafeAssignments(onDuplicate)
    ensures InsertNext(db, name, schema, before, row, OptimizeAssignments(onDuplicate))
         == InsertNext(db, name, schema, before, row, onDuplicate)
  {
    if before.Ok? {
      InsertRowSound(db, name, schema, before.value.rows, row, onDuplicate);
    }
  }

  lemma {:induction false} InsertRowsSound(db: Db, name: string, schema: TableSchema, rows: seq<Row>, incoming: seq<Row>, onDuplicate: seq<Assignment>)
    requires PlainDb(db) && SafeAssignments(onDuplicate)
    ensures InsertRows(db, name, schema, rows, incoming, OptimizeAssignments(onDuplicate))
         == InsertRows(db, name, schema, rows, incoming, onDuplicate)
    decreases |incoming|
  {
    if incoming != [] {
      var last := |incoming| - 1;
      InsertRowsSound(db, name, schema, rows, incoming[..last], onDuplicate);
      InsertNextSound(db, name, schema, InsertRows(db, name, schema, rows, incoming[..last], onDuplicate), incoming[last], onDuplicate);
    }
  }

  lemma ProposedSound(db: Db, s: Statement)
    requires PlainDb(db) && s.Insert? && SafeStatement(s)
    ensures ProposedRows(db, OptimizeStatement(s).source) == ProposedRows(db, s.source)
  {
    match s.source
    case FromQuery(query) => OptimizeSound(db, query, map[]);
    case ValueRows(rows) =>
      var folded := OptimizeStatement(s).source.rows;
      forall i | 0 <= i < |rows| ensures EvalConstants(folded[i]) == EvalConstants(rows[i]) {
        assert folded[i] == FoldAll(rows[i]);
        forall k | 0 <= k < |rows[i]| ensures EvalConstant(folded[i][k]) == EvalConstant(rows[i][k]) {
          FoldSound(map[], rows[i][k], [], [], None, map[]);
        }
      }
      assert ConstantRows(folded) == ConstantRows(rows);
  }

  // ------------------------------------------------------------ UPDATE and DELETE

  lemma SelectionSound(db: Db, name: string, schema: TableSchema, selection: Option<Expr>, row: Row)
    requires PlainDb(db) && SafeOption(selection)
    ensures SelectionHolds(db, name, schema, FoldOption(selection), row) == SelectionHolds(db, name, schema, selection, row)
  {
    if selection.Some? {
      FoldSound(db, selection.value, TableColumns(Plain(schema, []), name), row, None, map[]);
    }
  }

  lemma {:induction false} AssignSound(db: Db, name: string, schema: TableSchema, original: Row, assignments: seq<Assignment>, current: Row)
    requires PlainDb(db) && SafeAssignments(assignments)
    ensures AssignRow(db, name, schema, original, OptimizeAssignments(assignments), current)
         == AssignRow(db, name, schema, original, assignments, current)
    decreases |assignments|
  {
    if assignments != [] {
      var columns := TableColumns(Plain(schema, []), name);
      FoldSound(db, assignments[0].expr, columns, original, None, map[]);
      assert OptimizeAssignments(assignments)[1..] == OptimizeAssignments(assignments[1..]);
      var at := ColumnIndex(schema.columns, assignments[0].column);
      var v := EvalExpr(db, assignments[0].expr, columns, original, None, map[]);
      if at.Some? && at.value < |current| && v.Ok? {
        var coerced := CoerceTo(v.value, schema.columns[at.value].dataType);
        if coerced.Some? {
          AssignSound(db, name, schema, original, assignments[1..], current[at.value := coerced.value]);
        }
      }
    }
  }

  lemma {:induction false} UpdateRowsSound(db: Db, name: string, schema: TableSchema, rows: seq<Row>, assignments: seq<Assignment>, selection: Option<Expr>, n: nat)
    requires PlainDb(db) && SafeAssignments(assignments) && SafeOption(selection) && n <= |rows|
    ensures UpdateRows(db, name, schema, rows, OptimizeAssignments(assignments), FoldOption(selection), n)
         == UpdateRows(db, name, schema, rows, assignments, selection, n)
    decreases n
  {
    if n > 0 {
      UpdateRowsSound(db, name, schema, rows, assignments, selection, n - 1);
      SelectionSound(db, name, schema, selection, rows[n - 1]);
      AssignSound(db, name, schema, rows[n - 1], assignments, rows[n - 1]);
    }
  }

  lemma {:induction false} DeleteRowsSound(db: Db, name: string, schema: TableSchema, rows: seq<Row>, selection: Option<Expr>, n: nat)
    requires PlainDb(db) && SafeOption(selection) && n <= |rows|
    ensures DeleteRows(db, name, schema, rows, FoldOption(selection), n) == DeleteRows(db, name, schema, rows, selection, n)
    decreases n
  {
    if n > 0 {
      DeleteRowsSound(db, name, schema, rows, selection, n - 1);
      SelectionSound(db, name, schema, selection, rows[n - 1]);
    }
  }

  lemma InsertSound(db: Db, s: Statement)
    requires PlainDb(db) && s.Insert? && SafeStatement(s)
    ensures ChangedRows(db, OptimizeStatement(s)) == ChangedRows(db, s)
  {
    var name := Lower(s.table);
    if name in db {
      ProposedSound(db, s);
      var proposed := ProposedRows(db, s.source);
      if proposed.Ok? {
        var prepared := Collect(PrepareRows(db[name].schema.columns, s.target, proposed.value));
        if prepared.Ok? {
          InsertRowsSound(db, name, db[name].schema, db[name].rows, prepared.value, s.onDuplicate);
        }
      }
    }
  }

  /** optimize_statement changes neither the effect nor the failure of a write statement. */
  lemma OptimizedStatementSound(db: Db, s: Statement)
    requires PlainDb(db) && IsWrite(s) && SafeStatement(s)
    ensures IsWrite(OptimizeStatement(s)) && Changed(db, OptimizeStatement(s)) == Changed(db, s)
    ensures ExecWrite(db, OptimizeStatement(s)) == ExecWrite(db, s)
  {
    var name := if IsSchemaStatement(s) then "" else Lower(s.table);
    match s
    case Insert(_, _, _, _) => InsertSound(db, s);
    case Update(_, assignments, selection) =>
      if name in db {
        UpdateRowsSound(db, name, db[name].schema, db[name].rows, assignments, selection, |db[name].rows|);
      }
    case Delete(_, selection) =>
      if name in db {
        DeleteRowsSound(db, name, db[name].schema, db[name].rows, selection, |db[name].rows|);
      }
    case _ =>
  }
}
