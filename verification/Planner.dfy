/** The rule optimizer (src/sql/planner.rs): constant folding through statements and queries. */
module Planner {
  import opened Wrappers
  import opened Values
  import opened Syntax

  /** fold_binary: any NULL operand folds to NULL, whatever the operator. */
  function FoldBinary(a: Value, op: BinaryOp, b: Value): Option<Value> {
    if a.Null? || b.Null? then Some(Null)
    else
      match op
      case Compare(c) => Some(TruthValue(CompareSql(a, b, c)))
      case And => Some(TruthValue(AndTruth(Truth(a), Truth(b))))
      case Or => Some(TruthValue(OrTruth(Truth(a), Truth(b))))
      case Arith(arithmetic) =>
        if arithmetic == Over && IsZero(b) then None else NumericResult(a, b, arithmetic)
  }

  function FoldUnary(op: UnaryOp, v: Value): Option<Value> {
    match op
    case Not => Some(TruthValue(NotTruth(Truth(v))))
    case Negate =>
      if v.Integer? then Some(Integer(-v.i)) else if v.Float? then Some(Float(-v.f)) else None
    case Positive =>
      if v.Integer? || v.Float? then Some(v) else None
  }

  function FoldExpr(e: Expr): Expr
    decreases e, 0
  {
    match e
    case Binary(left, op, right) =>
      var l, r := FoldExpr(left), FoldExpr(right);
      if l.Literal? && r.Literal? && FoldBinary(l.value, op, r.value).Some? then
        Literal(FoldBinary(l.value, op, r.value).value)
      else
        Binary(l, op, r)
    case Unary(op, x) =>
      var v := FoldExpr(x);
      if v.Literal? && FoldUnary(op, v.value).Some? then
        Literal(FoldUnary(op, v.value).value)
      else
        Unary(op, v)
    case IsNull(x, negated) =>
      var v := FoldExpr(x);
      if v.Literal? then Literal(Boolean(v.value.Null? != negated)) else IsNull(v, negated)
    case LikeExpr(x, p, negated) =>
      var v, pattern := FoldExpr(x), FoldExpr(p);
      if v.Literal? && pattern.Literal? then
        var truth := CompareSql(v.value, pattern.value, LikeOp);
        Literal(TruthValue(if negated then NotTruth(truth) else truth))
      else
        LikeExpr(v, pattern, negated)
    case InList(x, list, negated) => InList(FoldExpr(x), FoldAll(list), negated)
    case InSubquery(x, query, negated) => InSubquery(FoldExpr(x), OptimizeQuery(query), negated)
    case Exists(query, negated) => Exists(OptimizeQuery(query), negated)
    case ScalarSubquery(query) => ScalarSubquery(OptimizeQuery(query))
    case Aggregate(fn, operand, distinct) => Aggregate(fn, FoldOption(operand), distinct)
    case _ => e
  }

  function FoldAll(es: seq<Expr>): (r: seq<Expr>)
    ensures |r| == |es|
    decreases es, 0
  {
    seq(|es|, i requires 0 <= i < |es| => FoldExpr(es[i]))
  }

  function FoldOption(e: Option<Expr>): Option<Expr>
    decreases e, 0
  {
    match e
    case Some(x) => Some(FoldExpr(x))
    case None => None
  }

  function OptimizeSource(source: TableSource): TableSource
    decreases source, 0
  {
    match source
    case Derived(query, visible) => Derived(OptimizeQuery(query), visible)
    case Named(_, _) => source
  }

  function OptimizeItem(item: SelectItem): SelectItem
    decreases item, 0
  {
    match item
    case Item(expr, alias) => Item(FoldExpr(expr), alias)
    case Wildcard(_) => item
  }

  function OptimizeJoin(join: Join): Join
    decreases join, 0
  {
    Join(join.joinType, OptimizeSource(join.source), FoldOption(join.on))
  }

  function OptimizeCte(cte: Cte): Cte
    decreases cte, 0
  {
    Cte(cte.name, cte.columns, OptimizeQuery(cte.query))
  }

  function OptimizeCtes(ctes: seq<Cte>): (r: seq<Cte>)
    ensures |r| == |ctes|
    decreases ctes, 1
  {
    seq(|ctes|, i requires 0 <= i < |ctes| => OptimizeCte(ctes[i]))
  }

  function OptimizeItems(items: seq<SelectItem>): (r: seq<SelectItem>)
    ensures |r| == |items|
    decreases items, 1
  {
    seq(|items|, i requires 0 <= i < |items| => OptimizeItem(items[i]))
  }

  function OptimizeJoins(joins: seq<Join>): (r: seq<Join>)
    ensures |r| == |joins|
    decreases joins, 1
  {
    seq(|joins|, i requires 0 <= i < |joins| => OptimizeJoin(joins[i]))
  }

  function OptimizeOrderBy(order: OrderBy): OrderBy
    decreases order, 0
  {
    OrderBy(FoldExpr(order.expr), order.descending)
  }

  function OptimizeOrder(orders: seq<OrderBy>): (r: seq<OrderBy>)
    ensures |r| == |orders|
    decreases orders, 1
  {
    seq(|orders|, i requires 0 <= i < |orders| => OptimizeOrderBy(orders[i]))
  }

  function OptimizeQuery(q: Query): Query
    decreases q, 0
  {
    Query(
      OptimizeCtes(q.ctes),
      q.distinct,
      OptimizeItems(q.projection),
      if q.from.Some? then Some(OptimizeSource(q.from.value)) else None,
      OptimizeJoins(q.joins),
      FoldOption(q.selection),
      FoldAll(q.groupBy),
      FoldOption(q.having),
      OptimizeOrder(q.orderBy),
      q.limit)
  }

  function OptimizeAssignments(assignments: seq<Assignment>): (r: seq<Assignment>)
    ensures |r| == |assignments|
  {
    seq(|assignments|, i requires 0 <= i < |assignments| =>
      Assignment(assignments[i].column, FoldExpr(assignments[i].expr)))
  }

  function OptimizeStatement(s: Statement): Statement {
    match s
    case Select(query) => Select(OptimizeQuery(query))
    case Insert(table, target, source, onDuplicate) =>
      var optimized :=
        match source
        case ValueRows(rows) =>
          ValueRows(seq(|rows|, i requires 0 <= i < |rows| => FoldAll(rows[i])))
        case FromQuery(query) => FromQuery(OptimizeQuery(query));
      Insert(table, target, optimized, OptimizeAssignments(onDuplicate))
    case Update(table, assignments, selection) =>
      Update(table, OptimizeAssignments(assignments), FoldOption(selection))
    case Delete(table, selection) => Delete(table, FoldOption(selection))
    case Explain(inner) => Explain(OptimizeStatement(inner))
    case _ => s
  }
}
