/** The optimizer preserves the meaning of queries: on full scans, an optimized expression or query
    evaluates to the same value, relation or failure as the original when no folded node combines NULL in
    a way that three-valued evaluation would decide differently; for a single node that is an equivalence. */
module OptimizerSound {
  import opened Wrappers
  import opened Values
  import opened Syntax
  import opened Planner
  import opened Relations
  import opened Tables
  import opened Evaluator

  ghost predicate PlainDb(db: Db) {
    forall name :: name in db ==> db[name].Plain?
  }

  // ------------------------------------------------------ where folding is faithful

  /** Two literals on which folding and evaluation part: NULL OR TRUE, NULL AND FALSE and NULL / 0. */
  predicate NullTrap(a: Value, op: BinaryOp, b: Value) {
    match op
    case Or => (a.Null? && Truth(b) == True) || (Truth(a) == True && b.Null?)
    case And => (a.Null? && Truth(b) == False) || (Truth(a) == False && b.Null?)
    case Arith(arithmetic) => arithmetic == Over && a.Null? && IsZero(b)
    case Compare(_) => false
  }

  /** Folding two literals agrees with evaluating them if and only if they are not a trap. */
  lemma FoldBinaryFaithful(a: Value, op: BinaryOp, b: Value)
    requires FoldBinary(a, op, b).Some?
    ensures BinaryOf(op, Ok(a), Ok(b)) == Ok(FoldBinary(a, op, b).value) <==> !NullTrap(a, op, b)
  {
  }

  lemma FoldUnaryFaithful(op: UnaryOp, v: Value)
    requires FoldUnary(op, v).Some?
    ensures UnaryOf(op, Ok(v)) == Ok(FoldUnary(op, v).value)
  {
  }

  /** No node that folds to a literal is a trap. */
  ghost predicate SafeExpr(e: Expr)
    decreases e, 0
  {
    match e
    case Binary(left, op, right) =>
      && SafeExpr(left) && SafeExpr(right)
      && (FoldExpr(left).Literal? && FoldExpr(right).Literal? ==>
            !NullTrap(FoldExpr(left).value, op, FoldExpr(right).value))
    case Unary(_, x) => SafeExpr(x)
    case IsNull(x, _) => SafeExpr(x)
    case LikeExpr(x, p, _) => SafeExpr(x) && SafeExpr(p)
    case InList(x, list, _) => SafeExpr(x) && SafeAll(list)
    case InSubquery(x, query, _) => SafeExpr(x) && SafeQuery(query)
    case Exists(query, _) => SafeQuery(query)
    case ScalarSubquery(query) => SafeQuery(query)
    case Aggregate(_, operand, _) => SafeOption(operand)
    case _ => true
  }

  ghost predicate SafeAll(es: seq<Expr>)
    decreases es, 0
  {
    forall i :: 0 <= i < |es| ==> SafeExpr(es[i])
  }

  ghost predicate SafeOption(e: Option<Expr>)
    decreases e, 0
  {
    e.Some? ==> SafeExpr(e.value)
  }

  ghost predicate SafeSource(s: TableSource)
    decreases s, 0
  {
    s.Derived? ==> SafeQuery(s.query)
  }

  ghost predicate SafeItem(item: SelectItem)
    decreases item, 0
  {
    item.Item? ==> SafeExpr(item.expr)
  }

  ghost predicate SafeJoin(join: Join)
    decreases join, 0
  {
    SafeSource(join.source) && SafeOption(join.on)
  }

  ghost predicate SafeOrder(order: OrderBy)
    decreases order, 0
  {
    SafeExpr(order.expr)
  }

  ghost predicate SafeCte(cte: Cte)
    decreases cte, 0
  {
    SafeQuery(cte.query)
  }

  ghost predicate SafeQuery(q: Query)
    decreases q, 0
  {
    && (forall i :: 0 <= i < |q.ctes| ==> SafeCte(q.ctes[i]))
    && (forall i :: 0 <= i < |q.projection| ==> SafeItem(q.projection[i]))
    && (q.from.Some? ==> SafeSource(q.from.value))
    && (forall i :: 0 <= i < |q.joins| ==> SafeJoin(q.joins[i]))
    && SafeOption(q.selection)
    && SafeAll(q.groupBy)
    && SafeOption(q.having)
    && (forall i :: 0 <= i < |q.orderBy| ==> SafeOrder(q.orderBy[i]))
  }

  // --------------------------------------------- what folding leaves unchanged

  /** Only combinations of literals fold to a literal. */
  lemma {:induction false} FoldedLiteralIsGround(e: Expr)
    requires FoldExpr(e).Literal?
    ensures Ground(e)
  {
    match e
    case Binary(left, _, right) => FoldedLiteralIsGround(left); FoldedLiteralIsGround(right);
    case Unary(_, x) => FoldedLiteralIsGround(x);
    case IsNull(x, _) => FoldedLiteralIsGround(x);
    case LikeExpr(x, p, _) => FoldedLiteralIsGround(x); FoldedLiteralIsGround(p);
    case _ =>
  }

  lemma {:induction false} GroundIsPlain(e: Expr, columns: seq<BoundColumn>)
    requires Ground(e)
    ensures !HasAggregate(e) && ExpressionResolves(e, columns)
  {
    match e
    case Binary(left, _, right) => GroundIsPlain(left, columns); GroundIsPlain(right, columns);
    case Unary(_, x) => GroundIsPlain(x, columns);
    case IsNull(x, _) => GroundIsPlain(x, columns);
    case LikeExpr(x, _, _) => GroundIsPlain(x, columns);
    case _ =>
  }

  /** Folding changes neither a column's visible name nor the tests that choose a query's shape. */
  lemma {:induction false} FoldKeepsShape(e: Expr, columns: seq<BoundColumn>)
    ensures ExpressionName(FoldExpr(e)) == ExpressionName(e)
    ensures e.Column? <==> FoldExpr(e).Column?
    ensures e.Column? ==> FoldExpr(e) == e
    ensures e.Aggregate? <==> FoldExpr(e).Aggregate?
    ensures HasAggregate(FoldExpr(e)) <==> HasAggregate(e)
    ensures ExpressionResolves(FoldExpr(e), columns) <==> ExpressionResolves(e, columns)
    decreases e
  {
    if FoldExpr(e).Literal? {
      FoldedLiteralIsGround(e);
      GroundIsPlain(e, columns);
    }
    match e
    case Binary(left, _, right) => FoldKeepsShape(left, columns); FoldKeepsShape(right, columns);
    case Unary(_, x) => FoldKeepsShape(x, columns);
    case IsNull(x, _) => FoldKeepsShape(x, columns);
    case LikeExpr(x, _, _) => FoldKeepsShape(x, columns);
    case InList(x, list, _) =>
      FoldKeepsShape(x, columns);
      forall i | 0 <= i < |list|
        ensures HasAggregate(FoldAll(list)[i]) <==> HasAggregate(list[i])
        ensures ExpressionResolves(FoldAll(list)[i], columns) <==> ExpressionResolves(list[i], columns)
      {
        FoldKeepsShape(list[i], columns);
      }
    case _ =>
  }

  lemma {:induction false} ScanOfPlain(t: Table, n: nat)
    requires t.Plain? && n <= |t.rows|
    ensures ScanPrefix(t, None, n) == t.rows[..n]
  {
    if n > 0 {
      ScanOfPlain(t, n - 1);
    }
  }

  // ------------------------------------------------------ preservation: expressions

  /** fold_expr preserves the value or the failure of an expression on every row and group. */
  lemma {:induction false} FoldSound(db: Db, e: Expr, columns: seq<BoundColumn>, row: Row, group: GroupRowsOption, ctes: CteEnv)
    requires PlainDb(db) && SafeExpr(e)
    ensures EvalExpr(db, FoldExpr(e), columns, row, group, ctes) == EvalExpr(db, e, columns, row, group, ctes)
    decreases e, 1
  {
    if e.Binary? {
      FoldBinarySound(db, e, columns, row, group, ctes);
    } else if e.Unary? || e.IsNull? || e.LikeExpr? {
      FoldOperatorSound(db, e, columns, row, group, ctes);
    } else if e.InSubquery? || e.Exists? || e.ScalarSubquery? {
      FoldSubquerySound(db, e, columns, row, group, ctes);
    } else {
      FoldNestedSound(db, e, columns, row, group, ctes);
    }
  }

  lemma {:induction false} FoldBinarySound(db: Db, e: Expr, columns: seq<BoundColumn>, row: Row, group: GroupRowsOption, ctes: CteEnv)
    requires PlainDb(db) && SafeExpr(e) && e.Binary?
    ensures EvalExpr(db, FoldExpr(e), columns, row, group, ctes) == EvalExpr(db, e, columns, row, group, ctes)
    decreases e, 0
  {
    FoldSound(db, e.left, columns, row, group, ctes);
    FoldSound(db, e.right, columns, row, group, ctes);
    var l, r := FoldExpr(e.left), FoldExpr(e.right);
    if l.Literal? && r.Literal? && FoldBinary(l.value, e.op, r.value).Some? {
      FoldBinaryFaithful(l.value, e.op, r.value);
    }
  }

  lemma {:induction false} FoldOperatorSound(db: Db, e: Expr, columns: seq<BoundColumn>, row: Row, group: GroupRowsOption, ctes: CteEnv)
    requires PlainDb(db) && SafeExpr(e)
    requires e.Unary? || e.IsNull? || e.LikeExpr?
    ensures EvalExpr(db, FoldExpr(e), columns, row, group, ctes) == EvalExpr(db, e, columns, row, group, ctes)
    decreases e, 0
  {
    FoldSound(db, e.expr, columns, row, group, ctes);
    if e.LikeExpr? {
      FoldSound(db, e.pattern, columns, row, group, ctes);
    } else if e.Unary? && FoldExpr(e.expr).Literal? && FoldUnary(e.sign, FoldExpr(e.expr).value).Some? {
      FoldUnaryFaithful(e.sign, FoldExpr(e.expr).value);
    }
  }

  lemma {:induction false} FoldNestedSound(db: Db, e: Expr, columns: seq<BoundColumn>, row: Row, group: GroupRowsOption, ctes: CteEnv)
    requires PlainDb(db) && SafeExpr(e)
    requires !e.Binary? && !e.Unary? && !e.IsNull? && !e.LikeExpr? && !e.InSubquery? && !e.Exists? && !e.ScalarSubquery?
    ensures EvalExpr(db, FoldExpr(e), columns, row, group, ctes) == EvalExpr(db, e, columns, row, group, ctes)
    decreases e, 0
  {
    match e
    case InList(x, list, _) =>
      FoldSound(db, x, columns, row, group, ctes);
      FoldEachSound(db, list, columns, row, group, ctes);
    case Aggregate(_, operand, _) =>
      if group.Some? {
        FoldOperandSound(db, operand, columns, group.value, ctes);
      }
    case _ =>
  }

  lemma {:induction false} FoldSubquerySound(db: Db, e: Expr, columns: seq<BoundColumn>, row: Row, group: GroupRowsOption, ctes: CteEnv)
    requires PlainDb(db) && SafeExpr(e)
    requires e.InSubquery? || e.Exists? || e.ScalarSubquery?
    ensures EvalExpr(db, FoldExpr(e), columns, row, group, ctes) == EvalExpr(db, e, columns, row, group, ctes)
    decreases e, 0
  {
    if e.InSubquery? {
      FoldSound(db, e.expr, columns, row, group, ctes);
    }
    OptimizeSound(db, e.query, ctes);
  }

  lemma {:induction false} FoldEachSound(db: Db, es: seq<Expr>, columns: seq<BoundColumn>, row: Row, group: GroupRowsOption, ctes: CteEnv)
    requires PlainDb(db) && SafeAll(es)
    ensures EvalEach(db, FoldAll(es), columns, row, group, ctes) == EvalEach(db, es, columns, row, group, ctes)
    decreases es, 0
  {
    forall k | 0 <= k < |es|
      ensures EvalExpr(db, FoldAll(es)[k], columns, row, group, ctes) == EvalExpr(db, es[k], columns, row, group, ctes)
    {
      FoldSound(db, es[k], columns, row, group, ctes);
    }
  }

  lemma {:induction false} FoldRowsSound(db: Db, e: Expr, columns: seq<BoundColumn>, rows: seq<Row>, ctes: CteEnv)
    requires PlainDb(db) && SafeExpr(e)
    ensures EvalRows(db, FoldExpr(e), columns, rows, ctes) == EvalRows(db, e, columns, rows, ctes)
    decreases e, 2
  {
    forall i | 0 <= i < |rows|
      ensures EvalExpr(db, FoldExpr(e), columns, rows[i], None, ctes) == EvalExpr(db, e, columns, rows[i], None, ctes)
    {
      FoldSound(db, e, columns, rows[i], None, ctes);
    }
  }

  lemma {:induction false} FoldOperandSound(db: Db, operand: Option<Expr>, columns: seq<BoundColumn>, group: seq<Row>, ctes: CteEnv)
    requires PlainDb(db) && SafeOption(operand)
    ensures OperandValues(db, FoldOption(operand), columns, group, ctes) == OperandValues(db, operand, columns, group, ctes)
    decreases operand, 0
  {
    if operand.Some? {
      FoldRowsSound(db, operand.value, columns, group, ctes);
    }
  }

  // ------------------------------------------------------ preservation: queries

  lemma {:induction false} CteSound(db: Db, cte: Cte, env: CteEnv)
    requires PlainDb(db) && SafeCte(cte)
    ensures ExecQuery(db, OptimizeCte(cte).query, env) == ExecQuery(db, cte.query, env)
    decreases cte, 0
  {
    OptimizeSound(db, cte.query, env);
  }

  lemma {:induction false} CtesSound(db: Db, ctes: seq<Cte>, env: CteEnv)
    requires PlainDb(db) && forall i :: 0 <= i < |ctes| ==> SafeCte(ctes[i])
    ensures BindCtes(db, OptimizeCtes(ctes), env) == BindCtes(db, ctes, env)
    decreases ctes, 1
  {
    if ctes != [] {
      CteSound(db, ctes[0], env);
      assert OptimizeCtes(ctes)[1..] == OptimizeCtes(ctes[1..]);
      var relation := ExecQuery(db, ctes[0].query, env);
      if relation.Ok? {
        var named := NameCte(ctes[0].name, ctes[0].columns, relation.value);
        if named.Ok? {
          CtesSound(db, ctes[1..], env[ctes[0].name := named.value]);
        }
      }
    }
  }

  lemma {:induction false} SourceSound(db: Db, source: TableSource, ctes: CteEnv, selection: Option<Expr>, other: Option<Expr>)
    requires PlainDb(db) && SafeSource(source)
    ensures SourceRelation(db, OptimizeSource(source), ctes, other) == SourceRelation(db, source, ctes, selection)
    decreases source, 0
  {
    match source
    case Named(name, _) =>
      if name in db {
        ScanOfPlain(db[name], |db[name].rows|);
      }
    case Derived(query, _) => OptimizeSound(db, query, ctes);
  }

  lemma {:induction false} PairsSound(db: Db, on: Option<Expr>, columns: seq<BoundColumn>, leftRow: Row, rightRows: seq<Row>, ctes: CteEnv)
    requires PlainDb(db) && SafeOption(on)
    ensures PairVerdicts(db, FoldOption(on), columns, leftRow, rightRows, ctes)
         == PairVerdicts(db, on, columns, leftRow, rightRows, ctes)
    decreases on, 0
  {
    if on.Some? {
      forall j | 0 <= j < |rightRows|
        ensures EvalExpr(db, FoldExpr(on.value), columns, leftRow + rightRows[j], None, ctes)
             == EvalExpr(db, on.value, columns, leftRow + rightRows[j], None, ctes)
      {
        FoldSound(db, on.value, columns, leftRow + rightRows[j], None, ctes);
      }
    }
  }

  lemma {:induction false} VerdictsSound(db: Db, on: Option<Expr>, left: Relation, right: Relation, ctes: CteEnv)
    requires PlainDb(db) && SafeOption(on)
    ensures JoinVerdicts(db, FoldOption(on), left, right, ctes) == JoinVerdicts(db, on, left, right, ctes)
    decreases on, 1
  {
    if on.Some? {
      HashIndicesSound(on.value, left.columns, right.columns);
    }
    var columns := left.columns + right.columns;
    forall i | 0 <= i < |left.rows|
      ensures PairVerdicts(db, FoldOption(on), columns, left.rows[i], right.rows, ctes)
           == PairVerdicts(db, on, columns, left.rows[i], right.rows, ctes)
    {
      PairsSound(db, on, columns, left.rows[i], right.rows, ctes);
    }
    assert VerdictRows(db, FoldOption(on), columns, left.rows, right.rows, ctes)
        == VerdictRows(db, on, columns, left.rows, right.rows, ctes);
  }

  lemma HashIndicesSound(on: Expr, left: seq<BoundColumn>, right: seq<BoundColumn>)
    ensures HashJoinIndices(FoldExpr(on), left, right) == HashJoinIndices(on, left, right)
  {
    if on.Binary? {
      FoldKeepsShape(on.left, left);
      FoldKeepsShape(on.right, left);
    }
  }

  lemma {:induction false} JoinSound(db: Db, join: Join, acc: Relation, ctes: CteEnv)
    requires PlainDb(db) && SafeJoin(join)
    ensures ExecJoin(db, OptimizeJoin(join), acc, ctes) == ExecJoin(db, join, acc, ctes)
    decreases join, 0
  {
    SourceSound(db, join.source, ctes, None, None);
    var right := SourceRelation(db, join.source, ctes, None);
    if right.Ok? {
      VerdictsSound(db, join.on, acc, right.value, ctes);
    }
  }

  lemma {:induction false} JoinsSound(db: Db, joins: seq<Join>, acc: Relation, ctes: CteEnv)
    requires PlainDb(db) && forall i :: 0 <= i < |joins| ==> SafeJoin(joins[i])
    ensures ExecJoins(db, OptimizeJoins(joins), acc, ctes) == ExecJoins(db, joins, acc, ctes)
    decreases joins, 1
  {
    if joins != [] {
      JoinSound(db, joins[0], acc, ctes);
      assert OptimizeJoins(joins)[1..] == OptimizeJoins(joins[1..]);
      var joined := ExecJoin(db, joins[0], acc, ctes);
      if joined.Ok? {
        JoinsSound(db, joins[1..], joined.value, ctes);
      }
    }
  }

  lemma {:induction false} FilterSound(db: Db, selection: Option<Expr>, relation: Relation, ctes: CteEnv)
    requires PlainDb(db) && SafeOption(selection)
    ensures FilterRelation(db, FoldOption(selection), relation, ctes) == FilterRelation(db, selection, relation, ctes)
    decreases selection, 0
  {
    if selection.Some? {
      FoldRowsSound(db, selection.value, relation.columns, relation.rows, ctes);
    }
  }

  lemma {:induction false} OrderValueSound(db: Db, order: OrderBy, columns: seq<BoundColumn>, row: Row, ctes: CteEnv)
    requires PlainDb(db) && SafeOrder(order)
    ensures OrderValue(db, OptimizeOrderBy(order), columns, row, ctes) == OrderValue(db, order, columns, row, ctes)
    decreases order, 0
  {
    FoldKeepsShape(order.expr, columns);
    FoldSound(db, order.expr, columns, row, None, ctes);
  }

  lemma {:induction false} OrderKeySound(db: Db, orders: seq<OrderBy>, columns: seq<BoundColumn>, row: Row, ctes: CteEnv)
    requires PlainDb(db) && forall i :: 0 <= i < |orders| ==> SafeOrder(orders[i])
    ensures OrderKeyOf(db, OptimizeOrder(orders), columns, row, ctes) == OrderKeyOf(db, orders, columns, row, ctes)
    decreases orders, 0
  {
    forall k | 0 <= k < |orders|
      ensures OrderValue(db, OptimizeOrder(orders)[k], columns, row, ctes) == OrderValue(db, orders[k], columns, row, ctes)
    {
      OrderValueSound(db, orders[k], columns, row, ctes);
    }
  }

  lemma {:induction false} SortSound(db: Db, orders: seq<OrderBy>, relation: Relation, ctes: CteEnv, sort: bool)
    requires PlainDb(db) && forall i :: 0 <= i < |orders| ==> SafeOrder(orders[i])
    ensures SortRelation(db, OptimizeOrder(orders), relation, ctes, sort) == SortRelation(db, orders, relation, ctes, sort)
    decreases orders, 1
  {
    assert Descending(OptimizeOrder(orders)) == Descending(orders);
    forall i | 0 <= i < |relation.rows|
      ensures OrderKeyOf(db, OptimizeOrder(orders), relation.columns, relation.rows[i], ctes)
           == OrderKeyOf(db, orders, relation.columns, relation.rows[i], ctes)
    {
      OrderKeySound(db, orders, relation.columns, relation.rows[i], ctes);
    }
    assert OrderKeys(db, OptimizeOrder(orders), relation.columns, relation.rows, ctes)
        == OrderKeys(db, orders, relation.columns, relation.rows, ctes);
  }

  lemma {:induction false} ItemSound(db: Db, item: SelectItem, columns: seq<BoundColumn>, row: Row, group: GroupRowsOption, ctes: CteEnv)
    requires PlainDb(db) && SafeItem(item)
    ensures ItemCells(db, OptimizeItem(item), columns, row, group, ctes) == ItemCells(db, item, columns, row, group, ctes)
    decreases item, 0
  {
    if item.Item? {
      FoldSound(db, item.expr, columns, row, group, ctes);
    }
  }

  lemma {:induction false} ProjectRowSound(db: Db, projection: seq<SelectItem>, columns: seq<BoundColumn>, row: Row, group: GroupRowsOption, ctes: CteEnv)
    requires PlainDb(db) && forall i :: 0 <= i < |projection| ==> SafeItem(projection[i])
    ensures ProjectRow(db, OptimizeItems(projection), columns, row, group, ctes)
         == ProjectRow(db, projection, columns, row, group, ctes)
    decreases projection, 0
  {
    forall k | 0 <= k < |projection|
      ensures ItemCells(db, OptimizeItems(projection)[k], columns, row, group, ctes)
           == ItemCells(db, projection[k], columns, row, group, ctes)
    {
      ItemSound(db, projection[k], columns, row, group, ctes);
    }
    assert ItemCellsEach(db, OptimizeItems(projection), columns, row, group, ctes)
        == ItemCellsEach(db, projection, columns, row, group, ctes);
  }

  lemma {:induction false} ProjectionColumnsSound(projection: seq<SelectItem>, columns: seq<BoundColumn>)
    ensures ProjectionColumns(OptimizeItems(projection), columns) == ProjectionColumns(projection, columns)
    decreases projection
  {
    if projection != [] {
      if projection[0].Item? {
        FoldKeepsShape(projection[0].expr, columns);
      }
      assert OptimizeItems(projection)[1..] == OptimizeItems(projection[1..]);
      ProjectionColumnsSound(projection[1..], columns);
    }
  }

  lemma {:induction false} ProjectSound(db: Db, projection: seq<SelectItem>, source: Relation, ctes: CteEnv)
    requires PlainDb(db) && forall i :: 0 <= i < |projection| ==> SafeItem(projection[i])
    ensures ProjectQuery(db, OptimizeItems(projection), source, ctes) == ProjectQuery(db, projection, source, ctes)
    decreases projection, 1
  {
    ProjectionColumnsSound(projection, source.columns);
    forall i | 0 <= i < |source.rows|
      ensures ProjectRow(db, OptimizeItems(projection), source.columns, source.rows[i], None, ctes)
           == ProjectRow(db, projection, source.columns, source.rows[i], None, ctes)
    {
      ProjectRowSound(db, projection, source.columns, source.rows[i], None, ctes);
    }
    assert ProjectEach(db, OptimizeItems(projection), source.columns, source.rows, ctes)
        == ProjectEach(db, projection, source.columns, source.rows, ctes);
  }

  lemma {:induction false} GroupKeysSound(db: Db, groupBy: seq<Expr>, source: Relation, ctes: CteEnv)
    requires PlainDb(db) && SafeAll(groupBy)
    ensures GroupKeys(db, FoldAll(groupBy), source, ctes) == GroupKeys(db, groupBy, source, ctes)
    decreases groupBy, 1
  {
    forall i | 0 <= i < |source.rows|
      ensures EvalEach(db, FoldAll(groupBy), source.columns, source.rows[i], None, ctes)
           == EvalEach(db, groupBy, source.columns, source.rows[i], None, ctes)
    {
      FoldEachSound(db, groupBy, source.columns, source.rows[i], None, ctes);
    }
    assert GroupValues(db, FoldAll(groupBy), source, ctes) == GroupValues(db, groupBy, source, ctes);
  }

  lemma {:induction false} HavingSound(db: Db, having: Option<Expr>, columns: seq<BoundColumn>, row: Row, group: seq<Row>, ctes: CteEnv)
    requires PlainDb(db) && SafeOption(having)
    ensures HavingHolds(db, FoldOption(having), columns, row, group, ctes) == HavingHolds(db, having, columns, row, group, ctes)
    decreases having, 0
  {
    if having.Some? {
      FoldSound(db, having.value, columns, row, Some(group), ctes);
    }
  }

  lemma {:induction false} GroupOutputSound(db: Db, q: Query, columns: seq<BoundColumn>, group: seq<Row>, ctes: CteEnv)
    requires PlainDb(db) && SafeQuery(q)
    ensures GroupOutput(db, OptimizeQuery(q), columns, group, ctes) == GroupOutput(db, q, columns, group, ctes)
    decreases q, 0
  {
    HavingSound(db, q.having, columns, Representative(group, |columns|), group, ctes);
    ProjectRowSound(db, q.projection, columns, Representative(group, |columns|), Some(group), ctes);
  }

  lemma {:induction false} GroupOutputsSound(db: Db, q: Query, columns: seq<BoundColumn>, groups: seq<Group>, ctes: CteEnv)
    requires PlainDb(db) && SafeQuery(q)
    ensures GroupOutputs(db, OptimizeQuery(q), columns, groups, ctes) == GroupOutputs(db, q, columns, groups, ctes)
    decreases q, 1
  {
    forall g | 0 <= g < |groups|
      ensures GroupOutput(db, OptimizeQuery(q), columns, groups[g].rows, ctes) == GroupOutput(db, q, columns, groups[g].rows, ctes)
    {
      GroupOutputSound(db, q, columns, groups[g].rows, ctes);
    }
  }

  lemma {:induction false} AggregateSound(db: Db, q: Query, source: Relation, ctes: CteEnv)
    requires PlainDb(db) && SafeQuery(q)
    ensures AggregateQuery(db, OptimizeQuery(q), source, ctes) == AggregateQuery(db, q, source, ctes)
    decreases q, 3
  {
    GroupKeysSound(db, q.groupBy, source, ctes);
    GroupedSound(db, q, source, GroupKeys(db, q.groupBy, source, ctes), ctes);
  }

  lemma {:induction false} GroupedSound(db: Db, q: Query, source: Relation, keys: Result<seq<string>>, ctes: CteEnv)
    requires PlainDb(db) && SafeQuery(q) && (keys.Ok? ==> |keys.value| == |source.rows|)
    ensures GroupedOutput(db, OptimizeQuery(q), source, keys, ctes) == GroupedOutput(db, q, source, keys, ctes)
    decreases q, 2
  {
    ProjectionColumnsSound(q.projection, source.columns);
    if keys.Ok? {
      var groups := GroupsFor(keys.value, source.rows, q.groupBy);
      assert GroupsFor(keys.value, source.rows, FoldAll(q.groupBy)) == groups;
      GroupOutputsSound(db, q, source.columns, groups, ctes);
    }
  }

  lemma ItemShapeSound(item: SelectItem)
    ensures OptimizeItem(item).Item? <==> item.Item?
    ensures item.Item? ==> (HasAggregate(OptimizeItem(item).expr) <==> HasAggregate(item.expr))
  {
    if item.Item? {
      FoldKeepsShape(item.expr, []);
    }
  }

  lemma ItemsShapeSound(items: seq<SelectItem>)
    ensures forall i :: 0 <= i < |items| ==>
              (OptimizeItems(items)[i].Item? <==> items[i].Item?)
              && (items[i].Item? ==> (HasAggregate(OptimizeItems(items)[i].expr) <==> HasAggregate(items[i].expr)))
  {
    forall i | 0 <= i < |items|
      ensures OptimizeItems(items)[i].Item? <==> items[i].Item?
      ensures items[i].Item? ==> (HasAggregate(OptimizeItems(items)[i].expr) <==> HasAggregate(items[i].expr))
    {
      ItemShapeSound(items[i]);
    }
  }

  lemma OrderShapeSound(orders: seq<OrderBy>, columns: seq<BoundColumn>)
    ensures forall i :: 0 <= i < |orders| ==>
              (ExpressionResolves(OptimizeOrder(orders)[i].expr, columns) <==> ExpressionResolves(orders[i].expr, columns))
  {
    forall i | 0 <= i < |orders|
      ensures ExpressionResolves(OptimizeOrder(orders)[i].expr, columns) <==> ExpressionResolves(orders[i].expr, columns)
    {
      FoldKeepsShape(orders[i].expr, columns);
    }
  }

  lemma ShapeSound(q: Query, columns: seq<BoundColumn>)
    ensures IsAggregateQuery(OptimizeQuery(q)) <==> IsAggregateQuery(q)
    ensures OrderBeforeProjection(OptimizeQuery(q), columns) <==> OrderBeforeProjection(q, columns)
  {
    var o := OptimizeQuery(q);
    assert o.projection == OptimizeItems(q.projection) && o.orderBy == OptimizeOrder(q.orderBy);
    ItemsShapeSound(q.projection);
    OrderShapeSound(q.orderBy, columns);
    if q.having.Some? {
      FoldKeepsShape(q.having.value, columns);
    }
  }

  lemma {:induction false} ProjectedSound(db: Db, q: Query, source: Relation, ctes: CteEnv)
    requires PlainDb(db) && SafeQuery(q)
    ensures Projected(db, OptimizeQuery(q), source, ctes) == Projected(db, q, source, ctes)
    decreases q, 4
  {
    ShapeSound(q, source.columns);
    AggregateSound(db, q, source, ctes);
    ProjectSound(db, q.projection, source, ctes);
  }

  lemma {:induction false} FinishSound(db: Db, q: Query, filtered: Relation, ctes: CteEnv)
    requires PlainDb(db) && SafeQuery(q)
    ensures FinishQuery(db, OptimizeQuery(q), filtered, ctes) == FinishQuery(db, q, filtered, ctes)
    decreases q, 5
  {
    ShapeSound(q, filtered.columns);
    var before := OrderBeforeProjection(q, filtered.columns);
    SortSound(db, q.orderBy, filtered, ctes, before);
    var sorted := SortRelation(db, q.orderBy, filtered, ctes, before);
    ProjectedSound(db, q, sorted, ctes);
    FinishProjectedSound(db, q, Projected(db, q, sorted, ctes), q.orderBy != [] && !before, ctes);
  }

  lemma {:induction false} FinishProjectedSound(db: Db, q: Query, projected: Result<Relation>, sort: bool, ctes: CteEnv)
    requires PlainDb(db) && SafeQuery(q)
    ensures FinishProjected(db, OptimizeQuery(q), projected, sort, ctes) == FinishProjected(db, q, projected, sort, ctes)
    decreases q, 0
  {
    if projected.Ok? {
      SortSound(db, q.orderBy, Distinct(projected.value, q.distinct), ctes, sort);
    }
  }

  lemma {:induction false} JoinedRowsSound(db: Db, q: Query, ctes: CteEnv)
    requires PlainDb(db) && SafeQuery(q)
    ensures JoinedRows(db, OptimizeQuery(q), ctes) == JoinedRows(db, q, ctes)
    decreases q, 3
  {
    if q.from.Some? {
      SourceSound(db, q.from.value, ctes, q.selection, FoldOption(q.selection));
    }
    var source := FromRelation(db, q.from, ctes, q.selection);
    if source.Ok? {
      JoinsSound(db, q.joins, source.value, ctes);
    }
  }

  lemma {:induction false} SourceRowsSound(db: Db, q: Query, ctes: CteEnv)
    requires PlainDb(db) && SafeQuery(q)
    ensures SourceRows(db, OptimizeQuery(q), ctes) == SourceRows(db, q, ctes)
    decreases q, 4
  {
    JoinedRowsSound(db, q, ctes);
    var joined := JoinedRows(db, q, ctes);
    if joined.Ok? {
      FilterSound(db, q.selection, joined.value, ctes);
    }
  }

  /** optimize_query preserves meaning through CTEs, derived tables, joins, grouping and subqueries:
      same columns, rows and order, or the same failure. */
  lemma {:induction false} OptimizeSound(db: Db, q: Query, inherited: CteEnv)
    requires PlainDb(db) && SafeQuery(q)
    ensures ExecQuery(db, OptimizeQuery(q), inherited) == ExecQuery(db, q, inherited)
    decreases q, 6
  {
    CtesSound(db, q.ctes, inherited);
    var ctes := BindCtes(db, q.ctes, inherited);
    if ctes.Ok? {
      SourceRowsSound(db, q, ctes.value);
      var filtered := SourceRows(db, q, ctes.value);
      if filtered.Ok? {
        FinishSound(db, q, filtered.value, ctes.value);
      }
    }
  }
}
