/** The CHECK expressions of CREATE TABLE and ALTER TABLE in the order of visit_statement_exprs, and the same
    statements with other expressions in their places (src/sql/parser.rs). */
module CheckExpressions {
  import opened Syntax

  function InConstraint(c: TableConstraint): seq<Expr> {
    if c.Check? then [c.expr] else []
  }

  function PutConstraint(c: TableConstraint, es: seq<Expr>): TableConstraint {
    if c.Check? && |es| == 1 then c.(expr := es[0]) else c
  }

  function InColumn(column: ColumnDef): seq<Expr> {
    column.checks
  }

  function PutColumn(column: ColumnDef, es: seq<Expr>): ColumnDef {
    column.(checks := es)
  }

  /** The expressions of all xs, one x after the other. */
  function OfAll<X>(of: X -> seq<Expr>, xs: seq<X>): seq<Expr> {
    if xs == [] then [] else OfAll(of, xs[..|xs| - 1]) + of(xs[|xs| - 1])
  }

  function PutAll<X>(of: X -> seq<Expr>, put: (X, seq<Expr>) -> X, xs: seq<X>, es: seq<Expr>): (r: seq<X>)
    requires |es| == |OfAll(of, xs)|
    ensures |r| == |xs|
  {
    if xs == [] then []
    else
      var before, last := xs[..|xs| - 1], xs[|xs| - 1];
      var n := |OfAll(of, before)|;
      PutAll(of, put, before, es[..n]) + [put(last, es[n..])]
  }

  /** What is put can be read again, and putting the old expressions back restores everything. */
  ghost predicate Replaces<X(!new)>(of: X -> seq<Expr>, put: (X, seq<Expr>) -> X) {
    forall x, es :: |es| == |of(x)| ==> of(put(x, es)) == es && put(put(x, es), of(x)) == x
  }

  lemma {:induction false} PutAllReplaces<X(!new)>(of: X -> seq<Expr>, put: (X, seq<Expr>) -> X, xs: seq<X>, es: seq<Expr>)
    requires Replaces(of, put) && |es| == |OfAll(of, xs)|
    ensures OfAll(of, PutAll(of, put, xs, es)) == es
    ensures PutAll(of, put, PutAll(of, put, xs, es), OfAll(of, xs)) == xs
    decreases xs
  {
    if xs != [] {
      var before, last := xs[..|xs| - 1], xs[|xs| - 1];
      var n := |OfAll(of, before)|;
      PutAllReplaces(of, put, before, es[..n]);
      var changed := PutAll(of, put, xs, es);
      assert changed[..|changed| - 1] == PutAll(of, put, before, es[..n]);
      assert OfAll(of, xs)[..n] == OfAll(of, before) && OfAll(of, xs)[n..] == of(last);
      assert es == es[..n] + es[n..] && xs == before + [last];
    }
  }

  function InConstraints(constraints: seq<TableConstraint>): seq<Expr> {
    OfAll(InConstraint, constraints)
  }

  function PutConstraints(constraints: seq<TableConstraint>, es: seq<Expr>): seq<TableConstraint>
    requires |es| == |InConstraints(constraints)|
  {
    PutAll(InConstraint, PutConstraint, constraints, es)
  }

  lemma ConstraintsReplace(constraints: seq<TableConstraint>, es: seq<Expr>)
    requires |es| == |InConstraints(constraints)|
    ensures InConstraints(PutConstraints(constraints, es)) == es
    ensures PutConstraints(PutConstraints(constraints, es), InConstraints(constraints)) == constraints
  {
    PutAllReplaces(InConstraint, PutConstraint, constraints, es);
  }

  function InColumns(columns: seq<ColumnDef>): seq<Expr> {
    OfAll(InColumn, columns)
  }

  function PutColumns(columns: seq<ColumnDef>, es: seq<Expr>): seq<ColumnDef>
    requires |es| == |InColumns(columns)|
  {
    PutAll(InColumn, PutColumn, columns, es)
  }

  lemma ColumnsReplace(columns: seq<ColumnDef>, es: seq<Expr>)
    requires |es| == |InColumns(columns)|
    ensures InColumns(PutColumns(columns, es)) == es
    ensures PutColumns(PutColumns(columns, es), InColumns(columns)) == columns
  {
    PutAllReplaces(InColumn, PutColumn, columns, es);
  }

  /** Columns with their own constraints, and constraints on their own. */
  function InOperation(operation: AlterOperation): seq<Expr> {
    match operation
    case AddColumn(column, constraints, _) => column.checks + InConstraints(constraints)
    case ModifyColumn(_, column, constraints) => column.checks + InConstraints(constraints)
    case AddConstraint(constraint) => InConstraint(constraint)
    case _ => []
  }

  function PutOperation(operation: AlterOperation, es: seq<Expr>): AlterOperation {
    if |es| != |InOperation(operation)| then operation
    else
      match operation
      case AddColumn(column, constraints, ifNotExists) =>
        var n := |column.checks|;
        AddColumn(PutColumn(column, es[..n]), PutConstraints(constraints, es[n..]), ifNotExists)
      case ModifyColumn(oldName, column, constraints) =>
        var n := |column.checks|;
        ModifyColumn(oldName, PutColumn(column, es[..n]), PutConstraints(constraints, es[n..]))
      case AddConstraint(constraint) => AddConstraint(PutConstraint(constraint, es))
      case _ => operation
  }

  lemma OperationReplaces(operation: AlterOperation, es: seq<Expr>)
    requires |es| == |InOperation(operation)|
    ensures InOperation(PutOperation(operation, es)) == es
    ensures PutOperation(PutOperation(operation, es), InOperation(operation)) == operation
  {
    if operation.AddColumn? || operation.ModifyColumn? {
      var n := |operation.column.checks|;
      ConstraintsReplace(operation.constraints, es[n..]);
      assert es == es[..n] + es[n..];
      var was := InOperation(operation);
      assert was[..n] == operation.column.checks && was[n..] == InConstraints(operation.constraints);
    }
  }

  function InOperations(operations: seq<AlterOperation>): seq<Expr> {
    OfAll(InOperation, operations)
  }

  function PutOperations(operations: seq<AlterOperation>, es: seq<Expr>): seq<AlterOperation>
    requires |es| == |InOperations(operations)|
  {
    PutAll(InOperation, PutOperation, operations, es)
  }

  lemma OperationsReplace(operations: seq<AlterOperation>, es: seq<Expr>)
    requires |es| == |InOperations(operations)|
    ensures InOperations(PutOperations(operations, es)) == es
    ensures PutOperations(PutOperations(operations, es), InOperations(operations)) == operations
  {
    forall x, xs | |xs| == |InOperation(x)| ensures InOperation(PutOperation(x, xs)) == xs && PutOperation(PutOperation(x, xs), InOperation(x)) == x {
      OperationReplaces(x, xs);
    }
    PutAllReplaces(InOperation, PutOperation, operations, es);
  }

  lemma {:induction false} OfAllAppends<X>(of: X -> seq<Expr>, xs: seq<X>, ys: seq<X>)
    ensures OfAll(of, xs + ys) == OfAll(of, xs) + OfAll(of, ys)
    decreases ys
  {
    if ys == [] {
      assert xs + ys == xs;
    } else {
      OfAllAppends(of, xs, ys[..|ys| - 1]);
      assert (xs + ys)[..|xs + ys| - 1] == xs + ys[..|ys| - 1];
    }
  }
}
