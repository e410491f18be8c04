/** Executing a query through indexes against executing it on full scans: when both succeed they give the same
    relation, and conditions under which success on full scans is enough. */
module IndexedEval {
  import opened Wrappers
  import opened Values
  import opened Syntax
  import opened Relations
  import opened Tables
  import opened Evaluator
  import opened IndexScan
  import opened JoinSplit
  import opened ProbedJoins

  // ---------------------------------------------------------------- hypotheses

  /** The probe of the first table, if one is made, is about that table and its key types. To be sure that it
      brings no failure of its own, nothing may fail on the rows that RIGHT joins pad. */
  ghost predicate SafeProbe(db: Db, q: Query, ctes: CteEnv, sure: bool)
    requires ValidDb(db)
  {
    q.from.Some? && q.from.value.Named? && q.from.value.name !in ctes && q.from.value.name in db ==>
      var t, visible := db[q.from.value.name], VisibleName(q.from.value);
      && SafeSelection(t, visible, q.selection)
      && (sure && HasRightJoin(q.joins) && CandidateRowIds(t, q.selection).Some? ==>
            PaddingSucceeds(MeaningOf(db), q.joins, q.selection, Relation(TableColumns(t, visible), ScanRows(t, q.selection)),
                            |t.schema.columns|, ctes))
  }

  ghost predicate IndexSafeExpr(db: Db, e: Expr, ctes: CteEnv, sure: bool)
    requires ValidDb(db)
    decreases e, 0
  {
    match e
    case Binary(left, _, right) => IndexSafeExpr(db, left, ctes, sure) && IndexSafeExpr(db, right, ctes, sure)
    case Unary(_, x) => IndexSafeExpr(db, x, ctes, sure)
    case IsNull(x, _) => IndexSafeExpr(db, x, ctes, sure)
    case LikeExpr(x, p, _) => IndexSafeExpr(db, x, ctes, sure) && IndexSafeExpr(db, p, ctes, sure)
    case InList(x, list, _) => IndexSafeExpr(db, x, ctes, sure) && IndexSafeAll(db, list, ctes, sure)
    case InSubquery(x, query, _) => IndexSafeExpr(db, x, ctes, sure) && IndexSafe(db, query, ctes, sure)
    case Exists(query, _) => IndexSafe(db, query, ctes, sure)
    case ScalarSubquery(query) => IndexSafe(db, query, ctes, sure)
    case Aggregate(_, operand, _) => IndexSafeOption(db, operand, ctes, sure)
    case _ => true
  }

  ghost predicate IndexSafeAll(db: Db, es: seq<Expr>, ctes: CteEnv, sure: bool)
    requires ValidDb(db)
    decreases es, 0
  {
    forall i :: 0 <= i < |es| ==> IndexSafeExpr(db, es[i], ctes, sure)
  }

  ghost predicate IndexSafeOption(db: Db, e: Option<Expr>, ctes: CteEnv, sure: bool)
    requires ValidDb(db)
    decreases e, 0
  {
    e.Some? ==> IndexSafeExpr(db, e.value, ctes, sure)
  }

  ghost predicate IndexSafeSource(db: Db, s: TableSource, ctes: CteEnv, sure: bool)
    requires ValidDb(db)
    decreases s, 0
  {
    s.Derived? ==> IndexSafe(db, s.query, ctes, sure)
  }

  ghost predicate IndexSafeItem(db: Db, item: SelectItem, ctes: CteEnv, sure: bool)
    requires ValidDb(db)
    decreases item, 0
  {
    item.Item? ==> IndexSafeExpr(db, item.expr, ctes, sure)
  }

  ghost predicate IndexSafeJoin(db: Db, join: Join, ctes: CteEnv, sure: bool)
    requires ValidDb(db)
    decreases join, 0
  {
    IndexSafeSource(db, join.source, ctes, sure) && IndexSafeOption(db, join.on, ctes, sure)
  }

  ghost predicate IndexSafeCte(db: Db, cte: Cte, ctes: CteEnv, sure: bool)
    requires ValidDb(db)
    decreases cte, 0
  {
    IndexSafe(db, cte.query, ctes, sure)
  }

  /** Each common table expression in the environment of those before it. */
  ghost predicate IndexSafeCtes(db: Db, ctes: seq<Cte>, env: CteEnv, sure: bool)
    requires ValidDb(db)
    decreases ctes, 0
  {
    ctes != [] ==>
      && IndexSafeCte(db, ctes[0], env, sure)
      && var relation := ExecQuery(MeaningOf(db), ctes[0].query, env);
         relation.Ok? ==>
           var named := NameCte(ctes[0].name, ctes[0].columns, relation.value);
           named.Ok? ==> IndexSafeCtes(db, ctes[1..], env[ctes[0].name := named.value], sure)
  }

  /** An ORDER BY key: sorting swallows failures, so each subquery in it has to give the same result for
      certain. It does when it succeeds on full scans and its indexed execution is sure to. */
  ghost predicate SettledExpr(db: Db, e: Expr, ctes: CteEnv)
    requires ValidDb(db)
    decreases e, 0
  {
    match e
    case Binary(left, _, right) => SettledExpr(db, left, ctes) && SettledExpr(db, right, ctes)
    case Unary(_, x) => SettledExpr(db, x, ctes)
    case IsNull(x, _) => SettledExpr(db, x, ctes)
    case LikeExpr(x, p, _) => SettledExpr(db, x, ctes) && SettledExpr(db, p, ctes)
    case InList(x, list, _) => SettledExpr(db, x, ctes) && forall i :: 0 <= i < |list| ==> SettledExpr(db, list[i], ctes)
    case InSubquery(x, query, _) => SettledExpr(db, x, ctes) && SettledQuery(db, query, ctes)
    case Exists(query, _) => SettledQuery(db, query, ctes)
    case ScalarSubquery(query) => SettledQuery(db, query, ctes)
    case Aggregate(_, operand, _) => operand.Some? ==> SettledExpr(db, operand.value, ctes)
    case _ => true
  }

  ghost predicate SettledQuery(db: Db, query: Query, ctes: CteEnv)
    requires ValidDb(db)
    decreases query, 2
  {
    IndexSafe(db, query, ctes, true) && ExecQuery(MeaningOf(db), query, ctes).Ok?
  }

  ghost predicate SettledOrder(db: Db, order: OrderBy, ctes: CteEnv)
    requires ValidDb(db)
    decreases order, 0
  {
    SettledExpr(db, order.expr, ctes)
  }

  /** The parts of a query once its common table expressions are bound. */
  ghost predicate IndexSafeParts(db: Db, q: Query, ctes: CteEnv, sure: bool)
    requires ValidDb(db)
    decreases q, 0
  {
    && SafeProbe(db, q, ctes, sure)
    && (forall i :: 0 <= i < |q.projection| ==> IndexSafeItem(db, q.projection[i], ctes, sure))
    && (q.from.Some? ==> IndexSafeSource(db, q.from.value, ctes, sure))
    && (forall i :: 0 <= i < |q.joins| ==> IndexSafeJoin(db, q.joins[i], ctes, sure))
    && IndexSafeOption(db, q.selection, ctes, sure)
    && IndexSafeAll(db, q.groupBy, ctes, sure)
    && IndexSafeOption(db, q.having, ctes, sure)
    && (forall i :: 0 <= i < |q.orderBy| ==> SettledOrder(db, q.orderBy[i], ctes))
  }

  ghost predicate IndexSafe(db: Db, q: Query, inherited: CteEnv, sure: bool)
    requires ValidDb(db)
    decreases q, 1
  {
    && IndexSafeCtes(db, q.ctes, inherited, sure)
    && var ctes := BindCtes(MeaningOf(db), q.ctes, inherited);
       ctes.Ok? ==> IndexSafeParts(db, q, ctes.value, sure)
  }

  // ------------------------------------------- subquery-free expressions ignore the tables

  predicate NoSubquery(e: Expr) {
    match e
    case Binary(left, _, right) => NoSubquery(left) && NoSubquery(right)
    case Unary(_, x) => NoSubquery(x)
    case IsNull(x, _) => NoSubquery(x)
    case LikeExpr(x, p, _) => NoSubquery(x) && NoSubquery(p)
    case InList(x, list, _) => NoSubquery(x) && forall i :: 0 <= i < |list| ==> NoSubquery(list[i])
    case InSubquery(_, _, _) => false
    case Exists(_, _) => false
    case ScalarSubquery(_) => false
    case Aggregate(_, operand, _) => operand.Some? ==> NoSubquery(operand.value)
    case _ => true
  }

  lemma {:induction false} NoSubqueryIgnoresTables(a: Db, b: Db, e: Expr, columns: seq<BoundColumn>, row: Row, group: GroupRowsOption, ctes: CteEnv)
    requires NoSubquery(e)
    ensures EvalExpr(a, e, columns, row, group, ctes) == EvalExpr(b, e, columns, row, group, ctes)
    decreases e
  {
    match e
    case Binary(left, _, right) =>
      NoSubqueryIgnoresTables(a, b, left, columns, row, group, ctes);
      NoSubqueryIgnoresTables(a, b, right, columns, row, group, ctes);
    case Unary(_, x) => NoSubqueryIgnoresTables(a, b, x, columns, row, group, ctes);
    case IsNull(x, _) => NoSubqueryIgnoresTables(a, b, x, columns, row, group, ctes);
    case LikeExpr(x, p, _) =>
      NoSubqueryIgnoresTables(a, b, x, columns, row, group, ctes);
      NoSubqueryIgnoresTables(a, b, p, columns, row, group, ctes);
    case InList(x, list, _) =>
      NoSubqueryIgnoresTables(a, b, x, columns, row, group, ctes);
      forall i | 0 <= i < |list|
        ensures EvalExpr(a, list[i], columns, row, group, ctes) == EvalExpr(b, list[i], columns, row, group, ctes)
      {
        NoSubqueryIgnoresTables(a, b, list[i], columns, row, group, ctes);
      }
      assert EvalEach(a, list, columns, row, group, ctes) == EvalEach(b, list, columns, row, group, ctes);
    case Aggregate(_, operand, _) =>
      if group.Some? && operand.Some? {
        forall i | 0 <= i < |group.value|
          ensures EvalExpr(a, operand.value, columns, group.value[i], None, ctes)
               == EvalExpr(b, operand.value, columns, group.value[i], None, ctes)
        {
          NoSubqueryIgnoresTables(a, b, operand.value, columns, group.value[i], None, ctes);
        }
        assert EvalRows(a, operand.value, columns, group.value, ctes) == EvalRows(b, operand.value, columns, group.value, ctes);
      }
    case _ =>
  }

  // ------------------------------------------------------- refinement: expressions

  lemma {:induction false} ExprRefines(db: Db, e: Expr, columns: seq<BoundColumn>, row: Row, group: GroupRowsOption, ctes: CteEnv, sure: bool)
    requires ValidDb(db) && IndexSafeExpr(db, e, ctes, sure)
    requires EvalExpr(MeaningOf(db), e, columns, row, group, ctes).Ok? && (sure || EvalExpr(db, e, columns, row, group, ctes).Ok?)
    ensures EvalExpr(db, e, columns, row, group, ctes) == EvalExpr(MeaningOf(db), e, columns, row, group, ctes)
    decreases e, 1
  {
    if e.Binary? {
      BinaryRefines(db, e, columns, row, group, ctes, sure);
    } else if e.Unary? || e.IsNull? || e.LikeExpr? {
      ExprRefines(db, e.expr, columns, row, group, ctes, sure);
      if e.LikeExpr? {
        ExprRefines(db, e.pattern, columns, row, group, ctes, sure);
      }
    } else if e.InSubquery? || e.Exists? || e.ScalarSubquery? {
      SubqueryRefines(db, e, columns, row, group, ctes, sure);
    } else {
      NestedRefines(db, e, columns, row, group, ctes, sure);
    }
  }

  lemma {:induction false} BinaryRefines(db: Db, e: Expr, columns: seq<BoundColumn>, row: Row, group: GroupRowsOption, ctes: CteEnv, sure: bool)
    requires ValidDb(db) && IndexSafeExpr(db, e, ctes, sure) && e.Binary?
    requires EvalExpr(MeaningOf(db), e, columns, row, group, ctes).Ok? && (sure || EvalExpr(db, e, columns, row, group, ctes).Ok?)
    ensures EvalExpr(db, e, columns, row, group, ctes) == EvalExpr(MeaningOf(db), e, columns, row, group, ctes)
    decreases e, 0
  {
    ExprRefines(db, e.left, columns, row, group, ctes, sure);
    if EvalExpr(MeaningOf(db), e.right, columns, row, group, ctes).Ok? && (sure || EvalExpr(db, e.right, columns, row, group, ctes).Ok?) {
      ExprRefines(db, e.right, columns, row, group, ctes, sure);
    }
  }

  lemma {:induction false} NestedRefines(db: Db, e: Expr, columns: seq<BoundColumn>, row: Row, group: GroupRowsOption, ctes: CteEnv, sure: bool)
    requires ValidDb(db) && IndexSafeExpr(db, e, ctes, sure)
    requires !e.Binary? && !e.Unary? && !e.IsNull? && !e.LikeExpr? && !e.InSubquery? && !e.Exists? && !e.ScalarSubquery?
    requires EvalExpr(MeaningOf(db), e, columns, row, group, ctes).Ok? && (sure || EvalExpr(db, e, columns, row, group, ctes).Ok?)
    ensures EvalExpr(db, e, columns, row, group, ctes) == EvalExpr(MeaningOf(db), e, columns, row, group, ctes)
    decreases e, 0
  {
    match e
    case InList(x, list, _) =>
      ExprRefines(db, x, columns, row, group, ctes, sure);
      EachRefines(db, list, columns, row, group, ctes, sure);
    case Aggregate(_, operand, _) => OperandRefines(db, operand, columns, group.value, ctes, sure);
    case _ =>
  }

  lemma {:induction false} SubqueryRefines(db: Db, e: Expr, columns: seq<BoundColumn>, row: Row, group: GroupRowsOption, ctes: CteEnv, sure: bool)
    requires ValidDb(db) && IndexSafeExpr(db, e, ctes, sure)
    requires e.InSubquery? || e.Exists? || e.ScalarSubquery?
    requires EvalExpr(MeaningOf(db), e, columns, row, group, ctes).Ok? && (sure || EvalExpr(db, e, columns, row, group, ctes).Ok?)
    ensures EvalExpr(db, e, columns, row, group, ctes) == EvalExpr(MeaningOf(db), e, columns, row, group, ctes)
    decreases e, 0
  {
    if e.InSubquery? {
      ExprRefines(db, e.expr, columns, row, group, ctes, sure);
    }
    QueryRefines(db, e.query, ctes, sure);
  }

  lemma {:induction false} EachRefines(db: Db, es: seq<Expr>, columns: seq<BoundColumn>, row: Row, group: GroupRowsOption, ctes: CteEnv, sure: bool)
    requires ValidDb(db) && IndexSafeAll(db, es, ctes, sure)
    requires Collect(EvalEach(MeaningOf(db), es, columns, row, group, ctes)).Ok? && (sure || Collect(EvalEach(db, es, columns, row, group, ctes)).Ok?)
    ensures EvalEach(db, es, columns, row, group, ctes) == EvalEach(MeaningOf(db), es, columns, row, group, ctes)
    decreases es, 0
  {
    var meant, got := EvalEach(MeaningOf(db), es, columns, row, group, ctes), EvalEach(db, es, columns, row, group, ctes);
    forall k | 0 <= k < |es| ensures EvalExpr(db, es[k], columns, row, group, ctes) == meant[k] {
      assert meant[k].Ok? && (sure || got[k].Ok?);
      ExprRefines(db, es[k], columns, row, group, ctes, sure);
    }
  }

  lemma {:induction false} RowsRefine(db: Db, e: Expr, columns: seq<BoundColumn>, rows: seq<Row>, ctes: CteEnv, sure: bool)
    requires ValidDb(db) && IndexSafeExpr(db, e, ctes, sure)
    requires Collect(EvalRows(MeaningOf(db), e, columns, rows, ctes)).Ok? && (sure || Collect(EvalRows(db, e, columns, rows, ctes)).Ok?)
    ensures EvalRows(db, e, columns, rows, ctes) == EvalRows(MeaningOf(db), e, columns, rows, ctes)
    decreases e, 2
  {
    var meant, got := EvalRows(MeaningOf(db), e, columns, rows, ctes), EvalRows(db, e, columns, rows, ctes);
    forall i | 0 <= i < |rows| ensures EvalExpr(db, e, columns, rows[i], None, ctes) == meant[i] {
      assert meant[i].Ok? && (sure || got[i].Ok?);
      ExprRefines(db, e, columns, rows[i], None, ctes, sure);
    }
  }

  lemma {:induction false} OperandRefines(db: Db, operand: Option<Expr>, columns: seq<BoundColumn>, group: seq<Row>, ctes: CteEnv, sure: bool)
    requires ValidDb(db) && IndexSafeOption(db, operand, ctes, sure)
    requires OperandValues(MeaningOf(db), operand, columns, group, ctes).Ok? && (sure || OperandValues(db, operand, columns, group, ctes).Ok?)
    ensures OperandValues(db, operand, columns, group, ctes) == OperandValues(MeaningOf(db), operand, columns, group, ctes)
    decreases operand, 0
  {
    if operand.Some? {
      RowsRefine(db, operand.value, columns, group, ctes, sure);
    }
  }

  // ---------------------------------------------------- refinement: FROM and joins

  lemma {:induction false} CtesRefine(db: Db, ctes: seq<Cte>, env: CteEnv, sure: bool)
    requires ValidDb(db) && IndexSafeCtes(db, ctes, env, sure)
    requires BindCtes(MeaningOf(db), ctes, env).Ok? && (sure || BindCtes(db, ctes, env).Ok?)
    ensures BindCtes(db, ctes, env) == BindCtes(MeaningOf(db), ctes, env)
    decreases ctes, 0
  {
    if ctes != [] {
      CteRefines(db, ctes[0], env, sure);
      var relation := ExecQuery(MeaningOf(db), ctes[0].query, env).value;
      var named := NameCte(ctes[0].name, ctes[0].columns, relation).value;
      CtesRefine(db, ctes[1..], env[ctes[0].name := named], sure);
    }
  }

  lemma {:induction false} CteRefines(db: Db, cte: Cte, env: CteEnv, sure: bool)
    requires ValidDb(db) && IndexSafeCte(db, cte, env, sure)
    requires ExecQuery(MeaningOf(db), cte.query, env).Ok? && (sure || ExecQuery(db, cte.query, env).Ok?)
    ensures ExecQuery(db, cte.query, env) == ExecQuery(MeaningOf(db), cte.query, env)
    decreases cte, 0
  {
    QueryRefines(db, cte.query, env, sure);
  }

  /** A scan that is not narrowed visits all rows. */
  lemma {:induction false} FullScan(t: Table, n: nat)
    requires n <= |t.rows|
    ensures ScanPrefix(t, None, n) == t.rows[..n]
    decreases n
  {
    if n > 0 {
      FullScan(t, n - 1);
    }
  }

  lemma {:induction false} SourceRefines(db: Db, source: TableSource, ctes: CteEnv, selection: Option<Expr>, sure: bool)
    requires ValidDb(db) && IndexSafeSource(db, source, ctes, sure)
    requires SourceRelation(MeaningOf(db), source, ctes, selection).Ok? && (sure || SourceRelation(db, source, ctes, selection).Ok?)
    requires source.Named? && source.name in db ==> CandidateRowIds(db[source.name], selection) == None
    ensures SourceRelation(db, source, ctes, selection) == SourceRelation(MeaningOf(db), source, ctes, selection)
    decreases source, 0
  {
    match source
    case Named(name, _) =>
      if name in db {
        FullScan(db[name], |db[name].rows|);
        FullScan(Meaning(db[name]), |db[name].rows|);
      }
    case Derived(query, _) => QueryRefines(db, query, ctes, sure);
  }

  lemma {:induction false} PairsRefine(db: Db, on: Option<Expr>, columns: seq<BoundColumn>, leftRow: Row, rightRows: seq<Row>, ctes: CteEnv, sure: bool)
    requires ValidDb(db) && IndexSafeOption(db, on, ctes, sure)
    requires Collect(PairVerdicts(MeaningOf(db), on, columns, leftRow, rightRows, ctes)).Ok? && (sure || Collect(PairVerdicts(db, on, columns, leftRow, rightRows, ctes)).Ok?)
    ensures PairVerdicts(db, on, columns, leftRow, rightRows, ctes) == PairVerdicts(MeaningOf(db), on, columns, leftRow, rightRows, ctes)
    decreases on, 0
  {
    var meant, got := PairVerdicts(MeaningOf(db), on, columns, leftRow, rightRows, ctes), PairVerdicts(db, on, columns, leftRow, rightRows, ctes);
    if on.Some? {
      forall j | 0 <= j < |rightRows|
        ensures IsTrue(EvalExpr(db, on.value, columns, leftRow + rightRows[j], None, ctes)) == meant[j]
      {
        assert meant[j].Ok? && (sure || got[j].Ok?);
        ExprRefines(db, on.value, columns, leftRow + rightRows[j], None, ctes, sure);
      }
    }
  }

  lemma {:induction false} VerdictsRefine(db: Db, on: Option<Expr>, left: Relation, right: Relation, ctes: CteEnv, sure: bool)
    requires ValidDb(db) && IndexSafeOption(db, on, ctes, sure)
    requires JoinVerdicts(MeaningOf(db), on, left, right, ctes).Ok? && (sure || JoinVerdicts(db, on, left, right, ctes).Ok?)
    ensures JoinVerdicts(db, on, left, right, ctes) == JoinVerdicts(MeaningOf(db), on, left, right, ctes)
    decreases on, 1
  {
    var hash := if on.Some? then HashJoinIndices(on.value, left.columns, right.columns) else None;
    if hash.None? {
      var columns := left.columns + right.columns;
      var meant, got := VerdictRows(MeaningOf(db), on, columns, left.rows, right.rows, ctes), VerdictRows(db, on, columns, left.rows, right.rows, ctes);
      forall i | 0 <= i < |left.rows| ensures Collect(PairVerdicts(db, on, columns, left.rows[i], right.rows, ctes)) == meant[i] {
        assert meant[i].Ok? && (sure || got[i].Ok?);
        PairsRefine(db, on, columns, left.rows[i], right.rows, ctes, sure);
      }
      assert VerdictRows(db, on, columns, left.rows, right.rows, ctes) == meant;
    }
  }

  lemma {:induction false} JoinRefines(db: Db, join: Join, acc: Relation, ctes: CteEnv, sure: bool)
    requires ValidDb(db) && IndexSafeJoin(db, join, ctes, sure)
    requires ExecJoin(MeaningOf(db), join, acc, ctes).Ok? && (sure || ExecJoin(db, join, acc, ctes).Ok?)
    ensures ExecJoin(db, join, acc, ctes) == ExecJoin(MeaningOf(db), join, acc, ctes)
    decreases join, 0
  {
    SourceRefines(db, join.source, ctes, None, sure);
    VerdictsRefine(db, join.on, acc, SourceRelation(db, join.source, ctes, None).value, ctes, sure);
  }

  lemma {:induction false} JoinsRefine(db: Db, joins: seq<Join>, acc: Relation, ctes: CteEnv, sure: bool)
    requires ValidDb(db) && forall i :: 0 <= i < |joins| ==> IndexSafeJoin(db, joins[i], ctes, sure)
    requires ExecJoins(MeaningOf(db), joins, acc, ctes).Ok? && (sure || ExecJoins(db, joins, acc, ctes).Ok?)
    ensures ExecJoins(db, joins, acc, ctes) == ExecJoins(MeaningOf(db), joins, acc, ctes)
    decreases joins, 0
  {
    if joins != [] {
      JoinRefines(db, joins[0], acc, ctes, sure);
      JoinsRefine(db, joins[1..], ExecJoin(MeaningOf(db), joins[0], acc, ctes).value, ctes, sure);
    }
  }

  lemma {:induction false} FilterRefines(db: Db, selection: Option<Expr>, relation: Relation, ctes: CteEnv, sure: bool)
    requires ValidDb(db) && IndexSafeOption(db, selection, ctes, sure)
    requires FilterRelation(MeaningOf(db), selection, relation, ctes).Ok? && (sure || FilterRelation(db, selection, relation, ctes).Ok?)
    ensures FilterRelation(db, selection, relation, ctes) == FilterRelation(MeaningOf(db), selection, relation, ctes)
    decreases selection, 0
  {
    if selection.Some? {
      RowsRefine(db, selection.value, relation.columns, relation.rows, ctes, sure);
    }
  }

  // ------------------------------------------------------- refinement: projection

  lemma {:induction false} ItemRefines(db: Db, item: SelectItem, columns: seq<BoundColumn>, row: Row, group: GroupRowsOption, ctes: CteEnv, sure: bool)
    requires ValidDb(db) && IndexSafeItem(db, item, ctes, sure)
    requires ItemCells(MeaningOf(db), item, columns, row, group, ctes).Ok? && (sure || ItemCells(db, item, columns, row, group, ctes).Ok?)
    ensures ItemCells(db, item, columns, row, group, ctes) == ItemCells(MeaningOf(db), item, columns, row, group, ctes)
    decreases item, 0
  {
    if item.Item? {
      ExprRefines(db, item.expr, columns, row, group, ctes, sure);
    }
  }

  lemma {:induction false} ProjectRowRefines(db: Db, projection: seq<SelectItem>, columns: seq<BoundColumn>, row: Row, group: GroupRowsOption, ctes: CteEnv, sure: bool)
    requires ValidDb(db) && forall i :: 0 <= i < |projection| ==> IndexSafeItem(db, projection[i], ctes, sure)
    requires ProjectRow(MeaningOf(db), projection, columns, row, group, ctes).Ok? && (sure || ProjectRow(db, projection, columns, row, group, ctes).Ok?)
    ensures ProjectRow(db, projection, columns, row, group, ctes) == ProjectRow(MeaningOf(db), projection, columns, row, group, ctes)
    decreases projection, 0
  {
    var meant, got := ItemCellsEach(MeaningOf(db), projection, columns, row, group, ctes), ItemCellsEach(db, projection, columns, row, group, ctes);
    forall k | 0 <= k < |projection| ensures ItemCells(db, projection[k], columns, row, group, ctes) == meant[k] {
      assert meant[k].Ok? && (sure || got[k].Ok?);
      ItemRefines(db, projection[k], columns, row, group, ctes, sure);
    }
    assert ItemCellsEach(db, projection, columns, row, group, ctes) == meant;
  }

  lemma {:induction false} ProjectRefines(db: Db, projection: seq<SelectItem>, source: Relation, ctes: CteEnv, sure: bool)
    requires ValidDb(db) && forall i :: 0 <= i < |projection| ==> IndexSafeItem(db, projection[i], ctes, sure)
    requires ProjectQuery(MeaningOf(db), projection, source, ctes).Ok? && (sure || ProjectQuery(db, projection, source, ctes).Ok?)
    ensures ProjectQuery(db, projection, source, ctes) == ProjectQuery(MeaningOf(db), projection, source, ctes)
    decreases projection, 1
  {
    var meant, got := ProjectEach(MeaningOf(db), projection, source.columns, source.rows, ctes), ProjectEach(db, projection, source.columns, source.rows, ctes);
    forall i | 0 <= i < |source.rows| ensures ProjectRow(db, projection, source.columns, source.rows[i], None, ctes) == meant[i] {
      assert meant[i].Ok? && (sure || got[i].Ok?);
      ProjectRowRefines(db, projection, source.columns, source.rows[i], None, ctes, sure);
    }
    assert ProjectEach(db, projection, source.columns, source.rows, ctes) == meant;
  }

  lemma {:induction false} GroupKeysRefine(db: Db, groupBy: seq<Expr>, source: Relation, ctes: CteEnv, sure: bool)
    requires ValidDb(db) && IndexSafeAll(db, groupBy, ctes, sure)
    requires GroupKeys(MeaningOf(db), groupBy, source, ctes).Ok? && (sure || GroupKeys(db, groupBy, source, ctes).Ok?)
    ensures GroupKeys(db, groupBy, source, ctes) == GroupKeys(MeaningOf(db), groupBy, source, ctes)
    decreases groupBy, 1
  {
    var meant, got := GroupValues(MeaningOf(db), groupBy, source, ctes), GroupValues(db, groupBy, source, ctes);
    forall i | 0 <= i < |source.rows|
      ensures Collect(EvalEach(db, groupBy, source.columns, source.rows[i], None, ctes)) == meant[i]
    {
      assert meant[i].Ok? && (sure || got[i].Ok?);
      EachRefines(db, groupBy, source.columns, source.rows[i], None, ctes, sure);
    }
    assert GroupValues(db, groupBy, source, ctes) == meant;
  }

  lemma {:induction false} HavingRefines(db: Db, having: Option<Expr>, columns: seq<BoundColumn>, row: Row, group: seq<Row>, ctes: CteEnv, sure: bool)
    requires ValidDb(db) && IndexSafeOption(db, having, ctes, sure)
    requires HavingHolds(MeaningOf(db), having, columns, row, group, ctes).Ok? && (sure || HavingHolds(db, having, columns, row, group, ctes).Ok?)
    ensures HavingHolds(db, having, columns, row, group, ctes) == HavingHolds(MeaningOf(db), having, columns, row, group, ctes)
    decreases having, 0
  {
    if having.Some? {
      ExprRefines(db, having.value, columns, row, Some(group), ctes, sure);
    }
  }

  lemma {:induction false} GroupOutputRefines(db: Db, q: Query, columns: seq<BoundColumn>, group: seq<Row>, ctes: CteEnv, sure: bool)
    requires ValidDb(db) && IndexSafeParts(db, q, ctes, sure)
    requires GroupOutput(MeaningOf(db), q, columns, group, ctes).Ok? && (sure || GroupOutput(db, q, columns, group, ctes).Ok?)
    ensures GroupOutput(db, q, columns, group, ctes) == GroupOutput(MeaningOf(db), q, columns, group, ctes)
    decreases q, 0
  {
    var representative := Representative(group, |columns|);
    HavingRefines(db, q.having, columns, representative, group, ctes, sure);
    if HavingHolds(db, q.having, columns, representative, group, ctes).value {
      ProjectRowRefines(db, q.projection, columns, representative, Some(group), ctes, sure);
    }
  }

  lemma {:induction false} GroupOutputsRefine(db: Db, q: Query, columns: seq<BoundColumn>, groups: seq<Group>, ctes: CteEnv, sure: bool)
    requires ValidDb(db) && IndexSafeParts(db, q, ctes, sure)
    requires Collect(GroupOutputs(MeaningOf(db), q, columns, groups, ctes)).Ok? && (sure || Collect(GroupOutputs(db, q, columns, groups, ctes)).Ok?)
    ensures GroupOutputs(db, q, columns, groups, ctes) == GroupOutputs(MeaningOf(db), q, columns, groups, ctes)
    decreases q, 1
  {
    var meant, got := GroupOutputs(MeaningOf(db), q, columns, groups, ctes), GroupOutputs(db, q, columns, groups, ctes);
    forall g | 0 <= g < |groups| ensures GroupOutput(db, q, columns, groups[g].rows, ctes) == meant[g] {
      assert meant[g].Ok? && (sure || got[g].Ok?);
      GroupOutputRefines(db, q, columns, groups[g].rows, ctes, sure);
    }
  }

  lemma {:induction false} AggregateRefines(db: Db, q: Query, source: Relation, ctes: CteEnv, sure: bool)
    requires ValidDb(db) && IndexSafeParts(db, q, ctes, sure)
    requires AggregateQuery(MeaningOf(db), q, source, ctes).Ok? && (sure || AggregateQuery(db, q, source, ctes).Ok?)
    ensures AggregateQuery(db, q, source, ctes) == AggregateQuery(MeaningOf(db), q, source, ctes)
    decreases q, 2
  {
    var keys := GroupKeys(MeaningOf(db), q.groupBy, source, ctes);
    assert GroupedOutput(MeaningOf(db), q, source, keys, ctes).Ok?;
    GroupKeysRefine(db, q.groupBy, source, ctes, sure);
    GroupOutputsRefine(db, q, source.columns, GroupsFor(keys.value, source.rows, q.groupBy), ctes, sure);
  }

  lemma {:induction false} ProjectedRefines(db: Db, q: Query, source: Relation, ctes: CteEnv, sure: bool)
    requires ValidDb(db) && IndexSafeParts(db, q, ctes, sure)
    requires Projected(MeaningOf(db), q, source, ctes).Ok? && (sure || Projected(db, q, source, ctes).Ok?)
    ensures Projected(db, q, source, ctes) == Projected(MeaningOf(db), q, source, ctes)
    decreases q, 3
  {
    if IsAggregateQuery(q) {
      AggregateRefines(db, q, source, ctes, sure);
    } else {
      ProjectRefines(db, q.projection, source, ctes, sure);
    }
  }

  lemma {:induction false} FinishRefines(db: Db, q: Query, filtered: Relation, ctes: CteEnv, sure: bool)
    requires ValidDb(db) && IndexSafeParts(db, q, ctes, sure)
    requires FinishQuery(MeaningOf(db), q, filtered, ctes).Ok? && (sure || FinishQuery(db, q, filtered, ctes).Ok?)
    ensures FinishQuery(db, q, filtered, ctes) == FinishQuery(MeaningOf(db), q, filtered, ctes)
    decreases q, 4
  {
    var before := OrderBeforeProjection(q, filtered.columns);
    SortSettled(db, q.orderBy, filtered, ctes, before);
    var sorted := SortRelation(db, q.orderBy, filtered, ctes, before);
    ProjectedRefines(db, q, sorted, ctes, sure);
    var projected := Projected(db, q, sorted, ctes).value;
    SortSettled(db, q.orderBy, Distinct(projected, q.distinct), ctes, q.orderBy != [] && !before);
  }

  // ---------------------------------------------------------------- refinement: ORDER BY

  lemma {:induction false} QuerySettled(db: Db, query: Query, ctes: CteEnv)
    requires ValidDb(db) && SettledQuery(db, query, ctes)
    ensures ExecQuery(db, query, ctes) == ExecQuery(MeaningOf(db), query, ctes)
    decreases query, 6
  {
    QueryRefines(db, query, ctes, true);
  }

  /** A settled key has the same value or the same failure on every row. */
  lemma {:induction false} ExprSettled(db: Db, e: Expr, columns: seq<BoundColumn>, row: Row, group: GroupRowsOption, ctes: CteEnv)
    requires ValidDb(db) && SettledExpr(db, e, ctes)
    ensures EvalExpr(db, e, columns, row, group, ctes) == EvalExpr(MeaningOf(db), e, columns, row, group, ctes)
    decreases e, 1
  {
    match e
    case Binary(left, _, right) =>
      ExprSettled(db, left, columns, row, group, ctes);
      ExprSettled(db, right, columns, row, group, ctes);
    case Unary(_, x) => ExprSettled(db, x, columns, row, group, ctes);
    case IsNull(x, _) => ExprSettled(db, x, columns, row, group, ctes);
    case LikeExpr(x, p, _) =>
      ExprSettled(db, x, columns, row, group, ctes);
      ExprSettled(db, p, columns, row, group, ctes);
    case _ => NestedSettled(db, e, columns, row, group, ctes);
  }

  lemma {:induction false} NestedSettled(db: Db, e: Expr, columns: seq<BoundColumn>, row: Row, group: GroupRowsOption, ctes: CteEnv)
    requires ValidDb(db) && SettledExpr(db, e, ctes)
    requires !e.Binary? && !e.Unary? && !e.IsNull? && !e.LikeExpr?
    ensures EvalExpr(db, e, columns, row, group, ctes) == EvalExpr(MeaningOf(db), e, columns, row, group, ctes)
    decreases e, 0
  {
    match e
    case InList(x, list, _) =>
      ExprSettled(db, x, columns, row, group, ctes);
      forall i | 0 <= i < |list|
        ensures EvalExpr(db, list[i], columns, row, group, ctes) == EvalExpr(MeaningOf(db), list[i], columns, row, group, ctes)
      {
        ExprSettled(db, list[i], columns, row, group, ctes);
      }
      assert EvalEach(db, list, columns, row, group, ctes) == EvalEach(MeaningOf(db), list, columns, row, group, ctes);
    case InSubquery(x, query, _) =>
      ExprSettled(db, x, columns, row, group, ctes);
      QuerySettled(db, query, ctes);
    case Exists(query, _) => QuerySettled(db, query, ctes);
    case ScalarSubquery(query) => QuerySettled(db, query, ctes);
    case Aggregate(_, operand, _) =>
      if group.Some? && operand.Some? {
        forall i | 0 <= i < |group.value|
          ensures EvalExpr(db, operand.value, columns, group.value[i], None, ctes)
               == EvalExpr(MeaningOf(db), operand.value, columns, group.value[i], None, ctes)
        {
          ExprSettled(db, operand.value, columns, group.value[i], None, ctes);
        }
        assert EvalRows(db, operand.value, columns, group.value, ctes) == EvalRows(MeaningOf(db), operand.value, columns, group.value, ctes);
      }
    case _ =>
  }

  lemma {:induction false} OrderSettled(db: Db, order: OrderBy, columns: seq<BoundColumn>, row: Row, ctes: CteEnv)
    requires ValidDb(db) && SettledOrder(db, order, ctes)
    ensures OrderValue(db, order, columns, row, ctes) == OrderValue(MeaningOf(db), order, columns, row, ctes)
    decreases order, 0
  {
    ExprSettled(db, order.expr, columns, row, None, ctes);
  }

  lemma {:induction false} SortSettled(db: Db, orders: seq<OrderBy>, relation: Relation, ctes: CteEnv, sort: bool)
    requires ValidDb(db) && forall i :: 0 <= i < |orders| ==> SettledOrder(db, orders[i], ctes)
    ensures SortRelation(db, orders, relation, ctes, sort) == SortRelation(MeaningOf(db), orders, relation, ctes, sort)
    decreases orders, 0
  {
    forall i | 0 <= i < |relation.rows|
      ensures OrderKeyOf(db, orders, relation.columns, relation.rows[i], ctes)
           == OrderKeyOf(MeaningOf(db), orders, relation.columns, relation.rows[i], ctes)
    {
      forall k | 0 <= k < |orders|
        ensures OrderValue(db, orders[k], relation.columns, relation.rows[i], ctes)
             == OrderValue(MeaningOf(db), orders[k], relation.columns, relation.rows[i], ctes)
      {
        OrderSettled(db, orders[k], relation.columns, relation.rows[i], ctes);
      }
    }
    assert OrderKeys(db, orders, relation.columns, relation.rows, ctes) == OrderKeys(MeaningOf(db), orders, relation.columns, relation.rows, ctes);
  }

  // ---------------------------------------------------------- refinement: queries

  predicate Probes(db: Db, q: Query, ctes: CteEnv) {
    && q.from.Some? && q.from.value.Named? && q.from.value.name !in ctes && q.from.value.name in db
    && CandidateRowIds(db[q.from.value.name], q.selection).Some?
  }

  lemma {:induction false} FromRefines(db: Db, q: Query, ctes: CteEnv, sure: bool)
    requires ValidDb(db) && IndexSafeParts(db, q, ctes, sure) && !Probes(db, q, ctes)
    requires FromRelation(MeaningOf(db), q.from, ctes, q.selection).Ok? && (sure || FromRelation(db, q.from, ctes, q.selection).Ok?)
    ensures FromRelation(db, q.from, ctes, q.selection) == FromRelation(MeaningOf(db), q.from, ctes, q.selection)
    decreases q, 2
  {
    if q.from.Some? {
      var source := q.from.value;
      assert SourceRelation(MeaningOf(db), source, ctes, q.selection).Ok?;
      if !(source.Named? && source.name in ctes) {
        SourceRefines(db, source, ctes, q.selection, sure);
      }
    }
  }

  /** Without a probe the sources agree table by table. */
  lemma {:induction false} UnprobedRowsRefine(db: Db, q: Query, ctes: CteEnv, sure: bool)
    requires ValidDb(db) && IndexSafeParts(db, q, ctes, sure) && !Probes(db, q, ctes)
    requires SourceRows(MeaningOf(db), q, ctes).Ok? && (sure || SourceRows(db, q, ctes).Ok?)
    ensures SourceRows(db, q, ctes) == SourceRows(MeaningOf(db), q, ctes)
    decreases q, 3
  {
    var joined := JoinedRows(MeaningOf(db), q, ctes).value;
    FromRefines(db, q, ctes, sure);
    JoinsRefine(db, q.joins, FromRelation(db, q.from, ctes, q.selection).value, ctes, sure);
    assert JoinedRows(db, q, ctes) == Ok(joined);
    FilterRefines(db, q.selection, joined, ctes, sure);
  }

  /** Execution from FROM to WHERE is the pipeline over what the scan of the first table visits. */
  lemma TableRowsPipeline(db: Db, q: Query, ctes: CteEnv)
    requires q.from.Some? && q.from.value.Named? && q.from.value.name !in ctes && q.from.value.name in db
    ensures var t := db[q.from.value.name];
            SourceRows(db, q, ctes) == Pipeline(db, q, TableColumns(t, VisibleName(q.from.value)), ScanRows(t, q.selection), ctes)
  {
    var t := db[q.from.value.name];
    var source := Relation(TableColumns(t, VisibleName(q.from.value)), ScanRows(t, q.selection));
    assert SourceRelation(db, q.from.value, ctes, q.selection) == Ok(source);
    assert FromRelation(db, q.from, ctes, q.selection) == Ok(source);
    assert JoinedRows(db, q, ctes) == ExecJoins(db, q.joins, source, ctes);
  }

  /** One row, joined with a right side on indexed and on full scans. */
  lemma {:induction false} OwnVerdictRefines(db: Db, join: Join, columns: seq<BoundColumn>, row: Row, right: Relation, ctes: CteEnv, sure: bool)
    requires ValidDb(db) && IndexSafeJoin(db, join, ctes, sure)
    requires OwnVerdict(db, join.on, columns, row, right, ctes).Ok? && OwnVerdict(MeaningOf(db), join.on, columns, row, right, ctes).Ok?
    ensures OwnVerdict(db, join.on, columns, row, right, ctes) == OwnVerdict(MeaningOf(db), join.on, columns, row, right, ctes)
    decreases join, 0
  {
    VerdictsRefine(db, join.on, Relation(columns, [row]), right, ctes, sure);
  }

  /** What a selection is TRUE on: rows that x keeps. */
  ghost predicate SelectsWithin(a: Db, selection: Expr, columns: seq<BoundColumn>, x: Row -> bool, w: nat, ctes: CteEnv) {
    forall row :: w <= |row| && PassesOn(a, selection, columns, ctes)(row) ==> x(row)
  }

  lemma {:induction false} SelectedRefines(db: Db, selection: Expr, columns: seq<BoundColumn>, some: seq<Row>, all: seq<Row>, ctes: CteEnv, x: Row -> bool, w: nat, sure: bool)
    requires ValidDb(db) && IndexSafeExpr(db, selection, ctes, sure)
    requires WideEnough(some, w) && WideEnough(all, w) && Keep(some, x) == Keep(all, x)
    requires SelectsWithin(db, selection, columns, x, w, ctes) && SelectsWithin(MeaningOf(db), selection, columns, x, w, ctes)
    requires FilterRelation(db, Some(selection), Relation(columns, some), ctes).Ok? && FilterRelation(MeaningOf(db), Some(selection), Relation(columns, all), ctes).Ok?
    ensures FilterRelation(db, Some(selection), Relation(columns, some), ctes) == FilterRelation(MeaningOf(db), Some(selection), Relation(columns, all), ctes)
    decreases selection, 2
  {
    var p, m := PassesOn(db, selection, columns, ctes), PassesOn(MeaningOf(db), selection, columns, ctes);
    FilterIsRowByRow(db, selection, Relation(columns, some), ctes);
    FilterIsRowByRow(MeaningOf(db), selection, Relation(columns, all), ctes);
    KeepWithin(some, p, x);
    KeepWithin(all, m, x);
    forall row | row in Keep(some, x) ensures p(row) == m(row) {
      ExprRefines(db, selection, columns, row, None, ctes, sure);
    }
    KeepAlike(Keep(some, x), p, m);
  }

  ghost predicate Narrows(db: Db, t: Table, visible: string, selection: Expr, x: Row -> bool, ctes: CteEnv) {
    && LooksAtOwn(x, |t.schema.columns|)
    && forall columns :: TableColumns(t, visible) <= columns ==>
         SelectsWithin(db, selection, columns, x, |t.schema.columns|, ctes)
         && SelectsWithin(MeaningOf(db), selection, columns, x, |t.schema.columns|, ctes)
  }

  /** One join, executed with indexes on some rows and on full scans on all, keeps the same rows. */
  lemma {:induction false} JoinNarrowedRefines(db: Db, join: Join, columns: seq<BoundColumn>, some: seq<Row>, all: seq<Row>, ctes: CteEnv, x: Row -> bool, w: nat, sure: bool)
    requires ValidDb(db) && IndexSafeJoin(db, join, ctes, sure)
    requires LooksAtOwn(x, w) && WideEnough(some, w) && WideEnough(all, w) && w <= |columns| && Keep(some, x) == Keep(all, x)
    requires ExecJoin(db, join, Relation(columns, some), ctes).Ok? && ExecJoin(MeaningOf(db), join, Relation(columns, all), ctes).Ok?
    ensures var a, b := ExecJoin(db, join, Relation(columns, some), ctes).value, ExecJoin(MeaningOf(db), join, Relation(columns, all), ctes).value;
            columns <= a.columns == b.columns && Keep(a.rows, x) == Keep(b.rows, x) && WideEnough(a.rows, w) && WideEnough(b.rows, w)
    decreases join, 1
  {
    SourceRefines(db, join.source, ctes, None, sure);
    var right := SourceRelation(db, join.source, ctes, None).value;
    JoinIsRowByRow(db, join, columns, some, right, ctes);
    JoinIsRowByRow(MeaningOf(db), join, columns, all, right, ctes);
    forall row | row in Keep(some, x)
      ensures OwnVerdict(db, join.on, columns, row, right, ctes) == OwnVerdict(MeaningOf(db), join.on, columns, row, right, ctes)
    {
      OwnVerdictRefines(db, join, columns, row, right, ctes, sure);
    }
    JoinKeepsSame(db, MeaningOf(db), join, columns, some, all, right, ctes, x, w);
  }

  lemma JoinedConditions(db: Db, q: Query, n: nat, acc: Relation, ctes: CteEnv)
    requires n < |q.joins|
    ensures var next := ExecJoin(db, q.joins[n], acc, ctes);
            ConditionsOver(db, q.joins[n..], q.selection, acc, ctes)
            == if next.Ok? then ConditionsOver(db, q.joins[n + 1..], q.selection, next.value, ctes) else Err
  {
    assert q.joins[n..][0] == q.joins[n] && q.joins[n..][1..] == q.joins[n + 1..];
  }

  /** The remaining joins and WHERE, executed with indexes over some rows and on full scans over all. */
  lemma {:induction false} NarrowedRefines(db: Db, q: Query, n: nat, t: Table, visible: string, columns: seq<BoundColumn>, some: seq<Row>, all: seq<Row>, ctes: CteEnv, x: Row -> bool, sure: bool)
    requires ValidDb(db) && IndexSafeParts(db, q, ctes, sure) && n <= |q.joins| && q.selection.Some?
    requires TableColumns(t, visible) <= columns && Narrows(db, t, visible, q.selection.value, x, ctes)
    requires WideEnough(some, |t.schema.columns|) && WideEnough(all, |t.schema.columns|) && Keep(some, x) == Keep(all, x)
    requires ConditionsOver(db, q.joins[n..], q.selection, Relation(columns, some), ctes).Ok?
    requires ConditionsOver(MeaningOf(db), q.joins[n..], q.selection, Relation(columns, all), ctes).Ok?
    ensures ConditionsOver(db, q.joins[n..], q.selection, Relation(columns, some), ctes)
         == ConditionsOver(MeaningOf(db), q.joins[n..], q.selection, Relation(columns, all), ctes)
    decreases q, 2, |q.joins| - n
  {
    var few, many := Relation(columns, some), Relation(columns, all);
    if n == |q.joins| {
      SelectedRefines(db, q.selection.value, columns, some, all, ctes, x, |t.schema.columns|, sure);
    } else {
      JoinedConditions(db, q, n, few, ctes);
      JoinedConditions(MeaningOf(db), q, n, many, ctes);
      JoinNarrowedRefines(db, q.joins[n], columns, some, all, ctes, x, |t.schema.columns|, sure);
      var a, b := ExecJoin(db, q.joins[n], few, ctes).value, ExecJoin(MeaningOf(db), q.joins[n], many, ctes).value;
      NarrowedRefines(db, q, n + 1, t, visible, a.columns, a.rows, b.rows, ctes, x, sure);
    }
  }

  lemma SelectableNarrows(db: Db, t: Table, visible: string, selection: Expr, i: nat, ctes: CteEnv)
    requires ValidTable(t) && i < |t.indexes| && SafeSelection(t, visible, Some(selection))
    requires LooksAtOwn(Selectable(t, t.indexes[i].definition.columns, CollectIndexPredicates(selection)), |t.schema.columns|)
    ensures Narrows(db, t, visible, selection, Selectable(t, t.indexes[i].definition.columns, CollectIndexPredicates(selection)), ctes)
  {
    var x, w := Selectable(t, t.indexes[i].definition.columns, CollectIndexPredicates(selection)), |t.schema.columns|;
    forall a: Db, columns, row | TableColumns(t, visible) <= columns && w <= |row| && PassesOn(a, selection, columns, ctes)(row)
      ensures x(row)
    {
      SelectedHolds(a, t, visible, selection, i, columns, row, ctes);
    }
  }

  /** Probing the first table does not change what comes out of the joins and WHERE, RIGHT joins included. */
  lemma {:induction false} ProbedPipeline(db: Db, q: Query, t: Table, visible: string, ctes: CteEnv, sure: bool)
    requires ValidDb(db) && IndexSafeParts(db, q, ctes, sure)
    requires ValidTable(t) && q.selection.Some? && SafeSelection(t, visible, q.selection) && CandidateRowIds(t, q.selection).Some?
    requires Pipeline(db, q, TableColumns(t, visible), ScanRows(t, q.selection), ctes).Ok?
    requires Pipeline(MeaningOf(db), q, TableColumns(t, visible), t.rows, ctes).Ok?
    ensures Pipeline(db, q, TableColumns(t, visible), ScanRows(t, q.selection), ctes)
         == Pipeline(MeaningOf(db), q, TableColumns(t, visible), t.rows, ctes)
    decreases q, 3
  {
    var i := ProbeMade(t, visible, q.selection.value);
    var x := Selectable(t, t.indexes[i].definition.columns, CollectIndexPredicates(q.selection.value));
    SelectableNarrows(db, t, visible, q.selection.value, i, ctes);
    assert q.joins[0..] == q.joins;
    NarrowedRefines(db, q, 0, t, visible, TableColumns(t, visible), ScanRows(t, q.selection), t.rows, ctes, x, sure);
  }

  lemma {:induction false} PipelineRefines(db: Db, q: Query, columns: seq<BoundColumn>, rows: seq<Row>, ctes: CteEnv, sure: bool)
    requires ValidDb(db) && IndexSafeParts(db, q, ctes, sure)
    requires Pipeline(MeaningOf(db), q, columns, rows, ctes).Ok? && (sure || Pipeline(db, q, columns, rows, ctes).Ok?)
    ensures Pipeline(db, q, columns, rows, ctes) == Pipeline(MeaningOf(db), q, columns, rows, ctes)
    decreases q, 2
  {
    JoinsRefine(db, q.joins, Relation(columns, rows), ctes, sure);
    FilterRefines(db, q.selection, ExecJoins(db, q.joins, Relation(columns, rows), ctes).value, ctes, sure);
  }

  /** When nothing fails on padded rows, the joins and WHERE succeed over the probed rows too. */
  lemma {:induction false} ProbedSucceeds(db: Db, q: Query, ctes: CteEnv)
    requires ValidDb(db) && IndexSafeParts(db, q, ctes, true) && Probes(db, q, ctes)
    requires SourceRows(MeaningOf(db), q, ctes).Ok?
    ensures SourceRows(db, q, ctes).Ok?
    decreases q, 3
  {
    var t, visible := db[q.from.value.name], VisibleName(q.from.value);
    var columns, w := TableColumns(t, visible), |t.schema.columns|;
    FullScan(Meaning(t), |t.rows|);
    TableRowsPipeline(MeaningOf(db), q, ctes);
    TableRowsPipeline(db, q, ctes);
    assert t.rows[..|t.rows|] == t.rows && TableColumns(Meaning(t), visible) == columns;
    ScanVisitsRows(t, CandidateRowIds(t, q.selection), |t.rows|);
    SomeSucceedIffPaddingDoes(MeaningOf(db), q.joins, q.selection, columns, ScanRows(t, q.selection), t.rows, ctes, w, HasRightJoin(q.joins));
    PipelineRefines(db, q, columns, ScanRows(t, q.selection), ctes, true);
  }

  /** With a probe the sources differ, and the joins and WHERE remove the difference. */
  lemma {:induction false} ProbedRowsRefine(db: Db, q: Query, ctes: CteEnv, sure: bool)
    requires ValidDb(db) && IndexSafeParts(db, q, ctes, sure) && Probes(db, q, ctes)
    requires SourceRows(MeaningOf(db), q, ctes).Ok? && (sure || SourceRows(db, q, ctes).Ok?)
    ensures SourceRows(db, q, ctes) == SourceRows(MeaningOf(db), q, ctes)
    decreases q, 4
  {
    var t, visible := db[q.from.value.name], VisibleName(q.from.value);
    if sure {
      ProbedSucceeds(db, q, ctes);
    }
    FullScan(Meaning(t), |t.rows|);
    TableRowsPipeline(MeaningOf(db), q, ctes);
    TableRowsPipeline(db, q, ctes);
    assert t.rows[..|t.rows|] == t.rows && TableColumns(Meaning(t), visible) == TableColumns(t, visible);
    ProbedPipeline(db, q, t, visible, ctes, sure);
  }

  /** Whenever a query succeeds on full scans and through indexes, both give the same columns, rows and order,
      at every level of nesting. With sure hypotheses, success on full scans is enough. */
  lemma {:induction false} QueryRefines(db: Db, q: Query, inherited: CteEnv, sure: bool)
    requires ValidDb(db) && IndexSafe(db, q, inherited, sure)
    requires ExecQuery(MeaningOf(db), q, inherited).Ok? && (sure || ExecQuery(db, q, inherited).Ok?)
    ensures ExecQuery(db, q, inherited) == ExecQuery(MeaningOf(db), q, inherited)
    decreases q, 5
  {
    CtesRefine(db, q.ctes, inherited, sure);
    var ctes := BindCtes(db, q.ctes, inherited).value;
    if Probes(db, q, ctes) {
      ProbedRowsRefine(db, q, ctes, sure);
    } else {
      UnprobedRowsRefine(db, q, ctes, sure);
    }
    FinishRefines(db, q, SourceRows(db, q, ctes).value, ctes, sure);
  }
}
