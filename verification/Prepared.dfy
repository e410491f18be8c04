/** Prepared statements as wholes: counting, numbering and binding their placeholders around the optimizer
    (src/sql/parser.rs, src/sql/database.rs). */
module Prepared {
  import opened Wrappers
  import opened Values
  import opened Syntax
  import opened Relations
  import opened Planner
  import opened Parameters
  import opened CheckExpressions

  function InRows(rows: seq<seq<Expr>>): (r: seq<seq<nat>>)
    ensures |r| == |rows|
  {
    seq(|rows|, i requires 0 <= i < |rows| => InAll(rows[i]))
  }

  function Expressions(assignments: seq<Assignment>): (r: seq<Expr>)
    ensures |r| == |assignments|
  {
    seq(|assignments|, i requires 0 <= i < |assignments| => assignments[i].expr)
  }

  function WithExpressions(assignments: seq<Assignment>, es: seq<Expr>): (r: seq<Assignment>)
    requires |es| == |assignments|
    ensures |r| == |assignments| && Expressions(r) == es
  {
    seq(|assignments|, i requires 0 <= i < |assignments| => Assignment(assignments[i].column, es[i]))
  }

  function InInsertSource(source: InsertSource): seq<nat> {
    match source
    case ValueRows(rows) => Flatten(InRows(rows))
    case FromQuery(query) => InQuery(query)
  }

  /** The placeholders of a statement in the order of visit_statement_exprs. */
  function InStatement(s: Statement): seq<nat> {
    match s
    case CreateTable(_, columns, constraints, _) => InAll(InColumns(columns)) + InAll(InConstraints(constraints))
    case AlterTable(_, operations) => InAll(InOperations(operations))
    case Insert(_, _, source, onDuplicate) => InInsertSource(source) + InAll(Expressions(onDuplicate))
    case Select(query) => InQuery(query)
    case Update(_, assignments, selection) => InAll(Expressions(assignments)) + InOption(selection)
    case Delete(_, selection) => InOption(selection)
    case Explain(inner) => InStatement(inner)
    case _ => []
  }

  function CountOf(parameters: seq<nat>): nat {
    if parameters == [] then 0
    else
      var before, last := CountOf(parameters[..|parameters| - 1]), parameters[|parameters| - 1] + 1;
      if before < last then last else before
  }

  /** parameter_count: one more than the largest number in use. */
  function ParameterCount(s: Statement): nat {
    CountOf(InStatement(s))
  }

  function BindRows(rows: seq<seq<Expr>>, vs: seq<Value>): (r: seq<seq<Expr>>)
    ensures |r| == |rows|
  {
    seq(|rows|, i requires 0 <= i < |rows| => BindAll(rows[i], vs))
  }

  function BindAssignments(assignments: seq<Assignment>, vs: seq<Value>): (r: seq<Assignment>)
    ensures |r| == |assignments|
  {
    seq(|assignments|, i requires 0 <= i < |assignments| => Assignment(assignments[i].column, BindExpr(assignments[i].expr, vs)))
  }

  function BindStatement(s: Statement, vs: seq<Value>): Statement {
    match s
    case CreateTable(table, columns, constraints, ifNotExists) =>
      CreateTable(table, PutColumns(columns, BindAll(InColumns(columns), vs)),
                  PutConstraints(constraints, BindAll(InConstraints(constraints), vs)), ifNotExists)
    case AlterTable(table, operations) => AlterTable(table, PutOperations(operations, BindAll(InOperations(operations), vs)))
    case Insert(table, target, source, onDuplicate) =>
      var bound :=
        match source
        case ValueRows(rows) => ValueRows(BindRows(rows, vs))
        case FromQuery(query) => FromQuery(BindQuery(query, vs));
      Insert(table, target, bound, BindAssignments(onDuplicate, vs))
    case Select(query) => Select(BindQuery(query, vs))
    case Update(table, assignments, selection) => Update(table, BindAssignments(assignments, vs), BindOption(selection, vs))
    case Delete(table, selection) => Delete(table, BindOption(selection, vs))
    case Explain(inner) => Explain(BindStatement(inner, vs))
    case _ => s
  }

  /** bind_parameters: exactly as many values as placeholders. */
  function BindParameters(s: Statement, vs: seq<Value>): Result<Statement> {
    if |vs| != ParameterCount(s) then Err else Ok(BindStatement(s, vs))
  }

  function AssignRows(rows: seq<seq<Expr>>, next: nat): (seq<seq<Expr>>, nat) {
    if rows == [] then ([], next)
    else
      var init := AssignRows(rows[..|rows| - 1], next);
      var last := AssignAll(rows[|rows| - 1], init.1);
      (init.0 + [last.0], last.1)
  }

  function AssignInsertSource(source: InsertSource, next: nat): (InsertSource, nat) {
    match source
    case ValueRows(rows) =>
      var r := AssignRows(rows, next);
      (ValueRows(r.0), r.1)
    case FromQuery(query) =>
      var q := AssignQuery(query, next);
      (FromQuery(q.0), q.1)
  }

  lemma {:induction false} AssignedSize(es: seq<Expr>, next: nat)
    ensures |AssignAll(es, next).0| == |es|
    decreases es
  {
    if es != [] {
      AssignedSize(es[..|es| - 1], next);
    }
  }

  function AssignAssignments(assignments: seq<Assignment>, next: nat): (seq<Assignment>, nat) {
    var es := AssignAll(Expressions(assignments), next);
    AssignedSize(Expressions(assignments), next);
    (WithExpressions(assignments, es.0), es.1)
  }

  function AssignColumns(columns: seq<ColumnDef>, next: nat): (seq<ColumnDef>, nat) {
    var es := AssignAll(InColumns(columns), next);
    AssignedSize(InColumns(columns), next);
    (PutColumns(columns, es.0), es.1)
  }

  function AssignConstraints(constraints: seq<TableConstraint>, next: nat): (seq<TableConstraint>, nat) {
    var es := AssignAll(InConstraints(constraints), next);
    AssignedSize(InConstraints(constraints), next);
    (PutConstraints(constraints, es.0), es.1)
  }

  function AssignOperations(operations: seq<AlterOperation>, next: nat): (seq<AlterOperation>, nat) {
    var es := AssignAll(InOperations(operations), next);
    AssignedSize(InOperations(operations), next);
    (PutOperations(operations, es.0), es.1)
  }

  function AssignStatement(s: Statement, next: nat): (Statement, nat) {
    match s
    case CreateTable(table, columns, constraints, ifNotExists) =>
      var first := AssignColumns(columns, next);
      var second := AssignConstraints(constraints, first.1);
      (CreateTable(table, first.0, second.0, ifNotExists), second.1)
    case AlterTable(table, operations) =>
      var r := AssignOperations(operations, next);
      (AlterTable(table, r.0), r.1)
    case Insert(table, target, source, onDuplicate) =>
      var numbered := AssignInsertSource(source, next);
      var assignments := AssignAssignments(onDuplicate, numbered.1);
      (Insert(table, target, numbered.0, assignments.0), assignments.1)
    case Select(query) =>
      var q := AssignQuery(query, next);
      (Select(q.0), q.1)
    case Update(table, assignments, selection) =>
      var a := AssignAssignments(assignments, next);
      var e := AssignOption(selection, a.1);
      (Update(table, a.0, e.0), e.1)
    case Delete(table, selection) =>
      var e := AssignOption(selection, next);
      (Delete(table, e.0), e.1)
    case Explain(inner) =>
      var r := AssignStatement(inner, next);
      (Explain(r.0), r.1)
    case _ => (s, next)
  }

  /** assign_parameters */
  function AssignParameters(s: Statement): Statement {
    AssignStatement(s, 0).0
  }

  // ------------------------------------------------------------------- numbering and counting

  lemma {:induction false} NumberRows(rows: seq<seq<Expr>>, n: nat)
    ensures Numbered(Flatten(InRows(rows)), n, Flatten(InRows(AssignRows(rows, n).0)), AssignRows(rows, n).1)
    decreases rows
  {
    if rows != [] {
      var init, last := rows[..|rows| - 1], rows[|rows| - 1];
      NumberRows(init, n);
      var a := AssignRows(init, n);
      NumberAll(last, a.1);
      var b := AssignAll(last, a.1);
      assert InRows(rows) == InRows(init) + [InAll(last)] && InRows(a.0 + [b.0]) == InRows(a.0) + [InAll(b.0)];
      FlattenAppend(InRows(init), InAll(last));
      FlattenAppend(InRows(a.0), InAll(b.0));
      NumberedBoth(Flatten(InRows(init)), InAll(last), n, Flatten(InRows(a.0)), a.1, InAll(b.0), b.1);
    }
  }

  lemma NumberAssignments(assignments: seq<Assignment>, n: nat)
    ensures Numbered(InAll(Expressions(assignments)), n, InAll(Expressions(AssignAssignments(assignments, n).0)), AssignAssignments(assignments, n).1)
  {
    NumberAll(Expressions(assignments), n);
  }

  lemma NumberInsertSource(source: InsertSource, n: nat)
    ensures Numbered(InInsertSource(source), n, InInsertSource(AssignInsertSource(source, n).0), AssignInsertSource(source, n).1)
  {
    match source
    case ValueRows(rows) => NumberRows(rows, n);
    case FromQuery(query) => NumberQuery(query, n);
  }

  lemma NumberColumns(columns: seq<ColumnDef>, n: nat)
    ensures Numbered(InAll(InColumns(columns)), n, InAll(InColumns(AssignColumns(columns, n).0)), AssignColumns(columns, n).1)
  {
    NumberAll(InColumns(columns), n);
    AssignedSize(InColumns(columns), n);
    ColumnsReplace(columns, AssignAll(InColumns(columns), n).0);
  }

  lemma NumberConstraints(constraints: seq<TableConstraint>, n: nat)
    ensures Numbered(InAll(InConstraints(constraints)), n, InAll(InConstraints(AssignConstraints(constraints, n).0)), AssignConstraints(constraints, n).1)
  {
    NumberAll(InConstraints(constraints), n);
    AssignedSize(InConstraints(constraints), n);
    ConstraintsReplace(constraints, AssignAll(InConstraints(constraints), n).0);
  }

  lemma NumberOperations(operations: seq<AlterOperation>, n: nat)
    ensures Numbered(InAll(InOperations(operations)), n, InAll(InOperations(AssignOperations(operations, n).0)), AssignOperations(operations, n).1)
  {
    NumberAll(InOperations(operations), n);
    AssignedSize(InOperations(operations), n);
    OperationsReplace(operations, AssignAll(InOperations(operations), n).0);
  }

  /** assign_parameters numbers the placeholders of a statement consecutively, each once. */
  lemma {:induction false} NumberStatement(s: Statement, n: nat)
    ensures Numbered(InStatement(s), n, InStatement(AssignStatement(s, n).0), AssignStatement(s, n).1)
    decreases s
  {
    match s
    case CreateTable(_, columns, constraints, _) =>
      NumberColumns(columns, n);
      var first := AssignColumns(columns, n);
      NumberConstraints(constraints, first.1);
      var second := AssignConstraints(constraints, first.1);
      NumberedBoth(InAll(InColumns(columns)), InAll(InConstraints(constraints)), n, InAll(InColumns(first.0)), first.1, InAll(InConstraints(second.0)), second.1);
    case AlterTable(_, operations) => NumberOperations(operations, n);
    case Insert(_, _, source, onDuplicate) =>
      NumberInsertSource(source, n);
      var first := AssignInsertSource(source, n);
      NumberAssignments(onDuplicate, first.1);
      var second := AssignAssignments(onDuplicate, first.1);
      NumberedBoth(InInsertSource(source), InAll(Expressions(onDuplicate)), n, InInsertSource(first.0), first.1, InAll(Expressions(second.0)), second.1);
    case Select(query) => NumberQuery(query, n);
    case Update(_, assignments, selection) =>
      NumberAssignments(assignments, n);
      var first := AssignAssignments(assignments, n);
      NumberOption(selection, first.1);
      var second := AssignOption(selection, first.1);
      NumberedBoth(InAll(Expressions(assignments)), InOption(selection), n, InAll(Expressions(first.0)), first.1, InOption(second.0), second.1);
    case Delete(_, selection) => NumberOption(selection, n);
    case Explain(inner) => NumberStatement(inner, n);
    case _ =>
  }

  lemma {:induction false} CountOfRange(k: nat)
    ensures CountOf(Range(0, k)) == k
    decreases k
  {
    if k > 0 {
      CountOfRange(k - 1);
      assert Range(0, k)[..k - 1] == Range(0, k - 1);
    }
  }

  /** After numbering, the placeholders are 0 to n - 1 in order, each once, and n is their count. */
  lemma NumbersAreExact(s: Statement)
    ensures InStatement(AssignParameters(s)) == Range(0, |InStatement(s)|)
    ensures ParameterCount(AssignParameters(s)) == |InStatement(s)|
  {
    NumberStatement(s, 0);
    CountOfRange(|InStatement(s)|);
  }

  // ----------------------------------------------------------------------------- binding

  lemma {:induction false} CountCovers(parameters: seq<nat>, vs: seq<Value>)
    requires CountOf(parameters) <= |vs|
    ensures Covered(parameters, vs)
    decreases parameters
  {
    if parameters != [] {
      CountCovers(parameters[..|parameters| - 1], vs);
    }
  }

  lemma BoundRows(rows: seq<seq<Expr>>, vs: seq<Value>)
    requires Covered(Flatten(InRows(rows)), vs)
    ensures Flatten(InRows(BindRows(rows, vs))) == []
  {
    forall i | 0 <= i < |rows| ensures InAll(BindAll(rows[i], vs)) == [] {
      CoveredPart(InRows(rows), i, vs);
      BoundAll(rows[i], vs);
    }
    FlattenEmpty(InRows(BindRows(rows, vs)));
  }

  lemma BoundAssignments(assignments: seq<Assignment>, vs: seq<Value>)
    requires Covered(InAll(Expressions(assignments)), vs)
    ensures InAll(Expressions(BindAssignments(assignments, vs))) == []
  {
    BoundAll(Expressions(assignments), vs);
    assert Expressions(BindAssignments(assignments, vs)) == BindAll(Expressions(assignments), vs);
  }

  lemma {:induction false} BoundStatement(s: Statement, vs: seq<Value>)
    requires Covered(InStatement(s), vs)
    ensures InStatement(BindStatement(s, vs)) == []
    decreases s
  {
    match s
    case CreateTable(_, columns, constraints, _) =>
      CoveredBoth(InAll(InColumns(columns)), InAll(InConstraints(constraints)), vs);
      BoundAll(InColumns(columns), vs);
      BoundAll(InConstraints(constraints), vs);
      ColumnsReplace(columns, BindAll(InColumns(columns), vs));
      ConstraintsReplace(constraints, BindAll(InConstraints(constraints), vs));
    case AlterTable(_, operations) =>
      BoundAll(InOperations(operations), vs);
      OperationsReplace(operations, BindAll(InOperations(operations), vs));
    case Insert(_, _, source, onDuplicate) =>
      CoveredBoth(InInsertSource(source), InAll(Expressions(onDuplicate)), vs);
      BoundAssignments(onDuplicate, vs);
      if source.ValueRows? {
        BoundRows(source.rows, vs);
      } else {
        BoundQuery(source.query, vs);
      }
    case Select(query) => BoundQuery(query, vs);
    case Update(_, assignments, selection) =>
      CoveredBoth(InAll(Expressions(assignments)), InOption(selection), vs);
      BoundAssignments(assignments, vs);
      BoundOption(selection, vs);
    case Delete(_, selection) => BoundOption(selection, vs);
    case Explain(inner) => BoundStatement(inner, vs);
    case _ =>
  }

  /** A numbered statement is bound by exactly as many values as it has placeholders, and none is left. */
  lemma BindingIsComplete(s: Statement, vs: seq<Value>)
    ensures var bound := BindParameters(AssignParameters(s), vs);
            (bound.Ok? <==> |vs| == |InStatement(s)|) && (bound.Ok? ==> InStatement(bound.value) == [])
  {
    NumbersAreExact(s);
    if |vs| == |InStatement(s)| {
      CountCovers(InStatement(AssignParameters(s)), vs);
      BoundStatement(AssignParameters(s), vs);
    }
  }

  // ----------------------------------------------------------- the optimizer around binding

  lemma AssignmentsBind(assignments: seq<Assignment>, vs: seq<Value>)
    ensures OptimizeAssignments(BindAssignments(OptimizeAssignments(assignments), vs)) == OptimizeAssignments(BindAssignments(assignments, vs))
  {
    forall i | 0 <= i < |assignments|
      ensures FoldExpr(BindExpr(FoldExpr(assignments[i].expr), vs)) == FoldExpr(BindExpr(assignments[i].expr, vs))
    {
      FoldBind(assignments[i].expr, vs);
    }
  }

  function FoldRows(rows: seq<seq<Expr>>): (r: seq<seq<Expr>>)
    ensures |r| == |rows|
  {
    seq(|rows|, i requires 0 <= i < |rows| => FoldAll(rows[i]))
  }

  lemma RowsBind(rows: seq<seq<Expr>>, vs: seq<Value>)
    ensures FoldRows(BindRows(FoldRows(rows), vs)) == FoldRows(BindRows(rows, vs))
  {
    forall i | 0 <= i < |rows| ensures FoldAll(BindAll(FoldAll(rows[i]), vs)) == FoldAll(BindAll(rows[i], vs)) {
      FoldBindAll(rows[i], vs);
    }
  }

  lemma InsertBind(s: Statement, vs: seq<Value>)
    requires s.Insert?
    ensures OptimizeStatement(BindStatement(OptimizeStatement(s), vs)) == OptimizeStatement(BindStatement(s, vs))
  {
    AssignmentsBind(s.onDuplicate, vs);
    match s.source
    case FromQuery(query) => OptimizeBind(query, vs);
    case ValueRows(rows) =>
      RowsBind(rows, vs);
      assert OptimizeStatement(s).source.rows == FoldRows(rows);
      assert BindStatement(OptimizeStatement(s), vs).source.rows == BindRows(FoldRows(rows), vs);
      assert OptimizeStatement(BindStatement(OptimizeStatement(s), vs)).source.rows == FoldRows(BindRows(FoldRows(rows), vs));
      assert OptimizeStatement(BindStatement(s, vs)).source.rows == FoldRows(BindRows(rows, vs));
  }

  /** execute_prepared binds the plan that was optimized when the statement was prepared; that gives the same
      plan as binding the statement as it was written. */
  lemma {:induction false} PreparedPlanIsExact(s: Statement, vs: seq<Value>)
    ensures OptimizeStatement(BindStatement(OptimizeStatement(s), vs)) == OptimizeStatement(BindStatement(s, vs))
    decreases s
  {
    match s
    case Insert(_, _, source, onDuplicate) => InsertBind(s, vs);
    case Select(query) => OptimizeBind(query, vs);
    case Update(_, assignments, selection) =>
      AssignmentsBind(assignments, vs);
      FoldBindOption(selection, vs);
    case Delete(_, selection) => FoldBindOption(selection, vs);
    case Explain(inner) => PreparedPlanIsExact(inner, vs);
    case _ =>
  }

  lemma AssignmentsKeep(assignments: seq<Assignment>)
    ensures InAll(Expressions(OptimizeAssignments(assignments))) == InAll(Expressions(assignments))
    ensures OptimizeAssignments(OptimizeAssignments(assignments)) == OptimizeAssignments(assignments)
  {
    FoldAllKeeps(Expressions(assignments));
    FoldAllIdempotent(Expressions(assignments));
    assert Expressions(OptimizeAssignments(assignments)) == FoldAll(Expressions(assignments));
    forall i | 0 <= i < |assignments| ensures FoldExpr(FoldExpr(assignments[i].expr)) == FoldExpr(assignments[i].expr) {
      FoldIdempotent(assignments[i].expr);
    }
  }

  lemma RowsKeep(rows: seq<seq<Expr>>)
    ensures InRows(FoldRows(rows)) == InRows(rows) && FoldRows(FoldRows(rows)) == FoldRows(rows)
  {
    forall i | 0 <= i < |rows| ensures InAll(FoldAll(rows[i])) == InAll(rows[i]) && FoldAll(FoldAll(rows[i])) == FoldAll(rows[i]) {
      FoldAllKeeps(rows[i]);
      FoldAllIdempotent(rows[i]);
    }
  }

  lemma InsertKeeps(s: Statement)
    requires s.Insert?
    ensures InStatement(OptimizeStatement(s)) == InStatement(s)
    ensures OptimizeStatement(OptimizeStatement(s)) == OptimizeStatement(s)
  {
    AssignmentsKeep(s.onDuplicate);
    match s.source
    case FromQuery(query) =>
      OptimizeKeeps(query);
      OptimizeIdempotent(query);
    case ValueRows(rows) =>
      RowsKeep(rows);
      assert OptimizeStatement(s).source.rows == FoldRows(rows);
      assert OptimizeStatement(OptimizeStatement(s)).source.rows == FoldRows(FoldRows(rows));
  }

  /** Optimizing is idempotent and changes neither the placeholders nor their count. */
  lemma {:induction false} OptimizingKeepsPlaceholders(s: Statement)
    ensures InStatement(OptimizeStatement(s)) == InStatement(s) && ParameterCount(OptimizeStatement(s)) == ParameterCount(s)
    ensures OptimizeStatement(OptimizeStatement(s)) == OptimizeStatement(s)
    decreases s
  {
    match s
    case Insert(_, _, source, onDuplicate) => InsertKeeps(s);
    case Select(query) =>
      OptimizeKeeps(query);
      OptimizeIdempotent(query);
    case Update(_, assignments, selection) =>
      AssignmentsKeep(assignments);
      FoldOptionKeeps(selection);
      FoldOptionIdempotent(selection);
    case Delete(_, selection) =>
      FoldOptionKeeps(selection);
      FoldOptionIdempotent(selection);
    case Explain(inner) => OptimizingKeepsPlaceholders(inner);
    case _ =>
  }
}
