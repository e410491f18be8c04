/** Expression evaluation and query execution (eval_expr and execute_query in src/sql/executor.rs). */
module Evaluator {
  import opened Wrappers
  import opened Values
  import opened Syntax
  import opened Keys
  import opened Relations
  import opened Tables

  type Db = map<string, Table>

  type CteEnv = map<string, Relation>

  type GroupRowsOption = Option<seq<Row>>

  /** Every table reduced to its schema and rows: executing on it scans every table in full. */
  function MeaningOf(db: Db): Db {
    map name | name in db :: Meaning(db[name])
  }

  // ------------------------------------------------------ expressions

  function UnaryResult(op: UnaryOp, v: Value): Result<Value> {
    match op
    case Not => Ok(TruthValue(NotTruth(Truth(v))))
    case Negate =>
      (match v
       case Null => Ok(Null)
       case Integer(i) => Ok(Integer(-i))
       case Float(f) => Ok(Float(-f))
       case _ => Err)
    case Positive => if v.Null? || v.Integer? || v.Float? then Ok(v) else Err
  }

  /** numeric_binary, after the division-by-zero test of its caller. */
  function ArithmeticResult(a: Value, b: Value, op: Arithmetic): Result<Value> {
    if op == Over && IsZero(b) then Err
    else if a.Null? || b.Null? then Ok(Null)
    else
      match NumericResult(a, b, op)
      case Some(v) => Ok(v)
      case None => Err
  }

  /** AND and OR decide on their left operand alone when it is FALSE or TRUE; a failure on the right
      is then never seen. */
  function BinaryOf(op: BinaryOp, a: Result<Value>, b: Result<Value>): Result<Value> {
    if a.Err? then Err
    else if op.And? && Truth(a.value) == False then Ok(Boolean(false))
    else if op.Or? && Truth(a.value) == True then Ok(Boolean(true))
    else if b.Err? then Err
    else
      match op
      case And => Ok(TruthValue(AndTruth(Truth(a.value), Truth(b.value))))
      case Or => Ok(TruthValue(OrTruth(Truth(a.value), Truth(b.value))))
      case Compare(c) => Ok(TruthValue(CompareSql(a.value, b.value, c)))
      case Arith(arithmetic) => ArithmeticResult(a.value, b.value, arithmetic)
  }

  function UnaryOf(op: UnaryOp, v: Result<Value>): Result<Value> {
    if v.Err? then Err else UnaryResult(op, v.value)
  }

  function IsNullOf(v: Result<Value>, negated: bool): Result<Value> {
    if v.Err? then Err else Ok(Boolean(v.value.Null? != negated))
  }

  function Negated(truth: SqlTruth, negated: bool): Value {
    TruthValue(if negated then NotTruth(truth) else truth)
  }

  function LikeOf(v: Result<Value>, pattern: Result<Value>, negated: bool): Result<Value> {
    if v.Err? || pattern.Err? then Err
    else Ok(Negated(CompareSql(v.value, pattern.value, LikeOp), negated))
  }

  function InListOf(v: Result<Value>, values: Result<seq<Value>>, negated: bool): Result<Value> {
    if v.Err? || values.Err? then Err else Ok(TruthValue(InValues(v.value, values.value, negated)))
  }

  function InRelation(v: Value, relation: Relation): SqlTruth {
    if v.Null? then Unknown
    else if exists i :: 0 <= i < |relation.rows| && relation.rows[i] != [] && !relation.rows[i][0].Null?
                        && HashJoinKey(relation.rows[i][0]) == HashJoinKey(v) then True
    else if exists i :: 0 <= i < |relation.rows| && relation.rows[i] != [] && relation.rows[i][0].Null? then Unknown
    else False
  }

  function InSubqueryOf(v: Result<Value>, relation: Result<Relation>, negated: bool): Result<Value> {
    if v.Err? || relation.Err? || |relation.value.columns| != 1 then Err
    else Ok(Negated(InRelation(v.value, relation.value), negated))
  }

  function ExistsOf(relation: Result<Relation>, negated: bool): Result<Value> {
    if relation.Err? then Err else Ok(Boolean((relation.value.rows != []) != negated))
  }

  function ScalarOf(relation: Result<Relation>): Result<Value> {
    if relation.Err? || |relation.value.columns| != 1 || |relation.value.rows| > 1 then Err
    else if relation.value.rows == [] then Ok(Null)
    else Ok(Cell(relation.value.rows[0], 0))
  }

  function ColumnOf(columns: seq<BoundColumn>, row: Row, qualifier: Option<string>, name: string): Result<Value> {
    var at := ResolveColumn(columns, qualifier, name);
    if at.Ok? && at.value < |row| then Ok(row[at.value]) else Err
  }

  function AggregateOf(fn: AggregateFunction, distinct: bool, values: Result<seq<Value>>): Result<Value> {
    if values.Err? then Err else FinishAggregate(fn, distinct, values.value)
  }

  function EvalExpr(db: Db, e: Expr, columns: seq<BoundColumn>, row: Row, group: GroupRowsOption, ctes: CteEnv): Result<Value>
    decreases e, 0
  {
    match e
    case Literal(v) => Ok(v)
    case Parameter(_) => Err
    case Incoming(_) => Err
    case Column(qualifier, name) => ColumnOf(columns, row, qualifier, name)
    case Unary(op, x) => UnaryOf(op, EvalExpr(db, x, columns, row, group, ctes))
    case Binary(left, op, right) =>
      BinaryOf(op, EvalExpr(db, left, columns, row, group, ctes), EvalExpr(db, right, columns, row, group, ctes))
    case IsNull(x, negated) => IsNullOf(EvalExpr(db, x, columns, row, group, ctes), negated)
    case LikeExpr(x, p, negated) =>
      LikeOf(EvalExpr(db, x, columns, row, group, ctes), EvalExpr(db, p, columns, row, group, ctes), negated)
    case InList(x, list, negated) =>
      InListOf(EvalExpr(db, x, columns, row, group, ctes), Collect(EvalEach(db, list, columns, row, group, ctes)), negated)
    case InSubquery(x, query, negated) =>
      InSubqueryOf(EvalExpr(db, x, columns, row, group, ctes), ExecQuery(db, query, ctes), negated)
    case Exists(query, negated) => ExistsOf(ExecQuery(db, query, ctes), negated)
    case ScalarSubquery(query) => ScalarOf(ExecQuery(db, query, ctes))
    case Aggregate(fn, operand, distinct) =>
      if group.None? then Err
      else AggregateOf(fn, distinct, OperandValues(db, operand, columns, group.value, ctes))
  }

  /** Several expressions on one row. */
  function EvalEach(db: Db, es: seq<Expr>, columns: seq<BoundColumn>, row: Row, group: GroupRowsOption, ctes: CteEnv): (r: seq<Result<Value>>)
    ensures |r| == |es|
    decreases es, 0
  {
    seq(|es|, k requires 0 <= k < |es| => EvalExpr(db, es[k], columns, row, group, ctes))
  }

  /** One expression on several rows. */
  function EvalRows(db: Db, e: Expr, columns: seq<BoundColumn>, rows: seq<Row>, ctes: CteEnv): (r: seq<Result<Value>>)
    ensures |r| == |rows|
    decreases e, 1
  {
    seq(|rows|, i requires 0 <= i < |rows| => EvalExpr(db, e, columns, rows[i], None, ctes))
  }

  /** The operand of an aggregate on each row of the group; COUNT(*) counts ones. */
  function OperandValues(db: Db, operand: Option<Expr>, columns: seq<BoundColumn>, group: seq<Row>, ctes: CteEnv): Result<seq<Value>>
    decreases operand, 0
  {
    match operand
    case Some(e) => Collect(EvalRows(db, e, columns, group, ctes))
    case None => Ok(seq(|group|, _ => Integer(1)))
  }

  // ------------------------------------------------------------ queries

  function BindCtes(db: Db, ctes: seq<Cte>, env: CteEnv): Result<CteEnv>
    decreases ctes, 0
  {
    if ctes == [] then Ok(env)
    else
      var relation :- ExecQuery(db, ctes[0].query, env);
      var named :- NameCte(ctes[0].name, ctes[0].columns, relation);
      BindCtes(db, ctes[1..], env[ctes[0].name := named])
  }

  function NameCte(name: string, names: seq<string>, relation: Relation): (r: Result<Relation>)
    ensures r.Ok? ==> r.value.rows == relation.rows && |r.value.columns| == |relation.columns|
  {
    if names != [] && |names| != |relation.columns| then Err
    else
      var renamed := if names == [] then relation.columns else Rename(relation.columns, names);
      Ok(Relation(Requalify(renamed, name), relation.rows))
  }

  /** The columns a table shows under a visible name. */
  function TableColumns(t: Table, visible: string): (r: seq<BoundColumn>)
    ensures |r| == |t.schema.columns|
  {
    seq(|t.schema.columns|, i requires 0 <= i < |t.schema.columns| => BoundColumn(visible, t.schema.columns[i].name))
  }

  function VisibleName(source: TableSource): string {
    match source
    case Named(name, alias) => if alias.Some? then alias.value else name
    case Derived(_, visible) => visible
  }

  /** source_relation: a CTE hides a table of the same name; only a table scan uses the WHERE clause. */
  function SourceRelation(db: Db, source: TableSource, ctes: CteEnv, selection: Option<Expr>): Result<Relation>
    decreases source, 0
  {
    match source
    case Named(name, alias) =>
      var visible := VisibleName(source);
      if name in ctes then Ok(Relation(Requalify(ctes[name].columns, visible), ctes[name].rows))
      else if name in db then Ok(Relation(TableColumns(db[name], visible), ScanRows(db[name], selection)))
      else Err
    case Derived(query, visible) =>
      var relation :- ExecQuery(db, query, ctes);
      Ok(Relation(Requalify(relation.columns, visible), relation.rows))
  }

  function FromRelation(db: Db, from: Option<TableSource>, ctes: CteEnv, selection: Option<Expr>): Result<Relation>
    decreases from, 0
  {
    match from
    case Some(source) => SourceRelation(db, source, ctes, selection)
    case None => Ok(Relation([], [[]]))
  }

  function IsTrue(v: Result<Value>): Result<bool> {
    if v.Ok? then Ok(Truth(v.value) == True) else Err
  }

  /** The ON verdict of one left row against every right row. */
  function PairVerdicts(db: Db, on: Option<Expr>, columns: seq<BoundColumn>, leftRow: Row, rightRows: seq<Row>, ctes: CteEnv): (r: seq<Result<bool>>)
    ensures |r| == |rightRows|
    decreases on, 0
  {
    seq(|rightRows|, j requires 0 <= j < |rightRows| =>
      if on.None? then Ok(true) else IsTrue(EvalExpr(db, on.value, columns, leftRow + rightRows[j], None, ctes)))
  }

  function VerdictRows(db: Db, on: Option<Expr>, columns: seq<BoundColumn>, leftRows: seq<Row>, rightRows: seq<Row>, ctes: CteEnv): (r: seq<Result<seq<bool>>>)
    ensures |r| == |leftRows| && forall i :: 0 <= i < |r| && r[i].Ok? ==> |r[i].value| == |rightRows|
    decreases on, 1
  {
    seq(|leftRows|, i requires 0 <= i < |leftRows| =>
      Collect(PairVerdicts(db, on, columns, leftRows[i], rightRows, ctes)))
  }

  function JoinVerdicts(db: Db, on: Option<Expr>, left: Relation, right: Relation, ctes: CteEnv): (r: Result<seq<seq<bool>>>)
    ensures r.Ok? ==> Shaped(r.value, |left.rows|, |right.rows|)
    decreases on, 2
  {
    var hash := if on.Some? then HashJoinIndices(on.value, left.columns, right.columns) else None;
    if hash.Some? then
      Ok(ColumnEquality(left.rows, right.rows, hash.value.0, hash.value.1))
    else
      Collect(VerdictRows(db, on, left.columns + right.columns, left.rows, right.rows, ctes))
  }

  /** join_relations, through the hash join or the nested loop. */
  function JoinRelations(db: Db, left: Relation, right: Relation, join: Join, ctes: CteEnv): Result<Relation>
    decreases join, 0
  {
    var verdicts :- JoinVerdicts(db, join.on, left, right, ctes);
    Ok(Relation(left.columns + right.columns,
                JoinRows(left.rows, right.rows, verdicts, join.joinType, |left.columns|, |right.columns|)))
  }

  function ExecJoin(db: Db, join: Join, acc: Relation, ctes: CteEnv): Result<Relation>
    decreases join, 1
  {
    var right :- SourceRelation(db, join.source, ctes, None);
    JoinRelations(db, acc, right, join, ctes)
  }

  function ExecJoins(db: Db, joins: seq<Join>, acc: Relation, ctes: CteEnv): Result<Relation>
    decreases joins, 0
  {
    if joins == [] then Ok(acc)
    else
      var joined :- ExecJoin(db, joins[0], acc, ctes);
      ExecJoins(db, joins[1..], joined, ctes)
  }

  function KeepTrue(rows: seq<Row>, verdicts: seq<Value>): seq<Row>
    requires |verdicts| == |rows|
  {
    if rows == [] then []
    else
      var last := |rows| - 1;
      KeepTrue(rows[..last], verdicts[..last]) + if Truth(verdicts[last]) == True then [rows[last]] else []
  }

  function FilterRelation(db: Db, selection: Option<Expr>, relation: Relation, ctes: CteEnv): Result<Relation>
    decreases selection, 0
  {
    match selection
    case None => Ok(relation)
    case Some(e) =>
      var verdicts :- Collect(EvalRows(db, e, relation.columns, relation.rows, ctes));
      Ok(Relation(relation.columns, KeepTrue(relation.rows, verdicts)))
  }

  /** expression_resolves; the pattern of LIKE is not examined. */
  predicate ExpressionResolves(e: Expr, columns: seq<BoundColumn>) {
    match e
    case Column(qualifier, name) => ResolveColumn(columns, qualifier, name).Ok?
    case Literal(_) => true
    case Parameter(_) => true
    case Incoming(_) => true
    case Binary(left, _, right) => ExpressionResolves(left, columns) && ExpressionResolves(right, columns)
    case Unary(_, x) => ExpressionResolves(x, columns)
    case IsNull(x, _) => ExpressionResolves(x, columns)
    case LikeExpr(x, _, _) => ExpressionResolves(x, columns)
    case InList(x, list, _) =>
      ExpressionResolves(x, columns) && forall i :: 0 <= i < |list| ==> ExpressionResolves(list[i], columns)
    case _ => false
  }

  predicate IsAggregateQuery(q: Query) {
    || q.groupBy != []
    || (exists i :: 0 <= i < |q.projection| && q.projection[i].Item? && HasAggregate(q.projection[i].expr))
    || (q.having.Some? && HasAggregate(q.having.value))
  }

  predicate OrderBeforeProjection(q: Query, columns: seq<BoundColumn>) {
    && !IsAggregateQuery(q)
    && q.orderBy != []
    && forall i :: 0 <= i < |q.orderBy| ==> ExpressionResolves(q.orderBy[i].expr, columns)
  }

  /** eval_order_value: an aggregate is looked up as an output column. */
  function OrderValue(db: Db, order: OrderBy, columns: seq<BoundColumn>, row: Row, ctes: CteEnv): Result<Value>
    decreases order, 0
  {
    if order.expr.Aggregate? then ColumnOf(columns, row, None, ExpressionName(order.expr))
    else EvalExpr(db, order.expr, columns, row, None, ctes)
  }

  function OrderKeyOf(db: Db, orders: seq<OrderBy>, columns: seq<BoundColumn>, row: Row, ctes: CteEnv): OrderKey
    decreases orders, 0
  {
    seq(|orders|, k requires 0 <= k < |orders| => OrderValue(db, orders[k], columns, row, ctes))
  }

  function OrderKeys(db: Db, orders: seq<OrderBy>, columns: seq<BoundColumn>, rows: seq<Row>, ctes: CteEnv): (r: seq<OrderKey>)
    ensures |r| == |rows|
    decreases orders, 1
  {
    seq(|rows|, i requires 0 <= i < |rows| => OrderKeyOf(db, orders, columns, rows[i], ctes))
  }

  /** Sorts when asked to. */
  function SortRelation(db: Db, orders: seq<OrderBy>, relation: Relation, ctes: CteEnv, sort: bool): Relation
    decreases orders, 2
  {
    if !sort then relation
    else
      var keys := OrderKeys(db, orders, relation.columns, relation.rows, ctes);
      Relation(relation.columns, SortRows(keys, relation.rows, Descending(orders)))
  }

  function ItemCells(db: Db, item: SelectItem, columns: seq<BoundColumn>, row: Row, group: GroupRowsOption, ctes: CteEnv): Result<Row>
    decreases item, 0
  {
    match item
    case Wildcard(table) =>
      var positions := WildcardPositions(columns, table);
      Ok(seq(|positions|, k requires 0 <= k < |positions| => Cell(row, positions[k])))
    case Item(e, _) =>
      var v :- EvalExpr(db, e, columns, row, group, ctes);
      Ok([v])
  }

  function ItemCellsEach(db: Db, projection: seq<SelectItem>, columns: seq<BoundColumn>, row: Row, group: GroupRowsOption, ctes: CteEnv): (r: seq<Result<Row>>)
    ensures |r| == |projection|
    decreases projection, 0
  {
    seq(|projection|, k requires 0 <= k < |projection| => ItemCells(db, projection[k], columns, row, group, ctes))
  }

  function ProjectRow(db: Db, projection: seq<SelectItem>, columns: seq<BoundColumn>, row: Row, group: GroupRowsOption, ctes: CteEnv): Result<Row>
    decreases projection, 1
  {
    var cells :- Collect(ItemCellsEach(db, projection, columns, row, group, ctes));
    Ok(Flatten(cells))
  }

  function ProjectEach(db: Db, projection: seq<SelectItem>, columns: seq<BoundColumn>, rows: seq<Row>, ctes: CteEnv): (r: seq<Result<Row>>)
    ensures |r| == |rows|
    decreases projection, 2
  {
    seq(|rows|, i requires 0 <= i < |rows| => ProjectRow(db, projection, columns, rows[i], None, ctes))
  }

  function ProjectQuery(db: Db, projection: seq<SelectItem>, source: Relation, ctes: CteEnv): Result<Relation>
    decreases projection, 3
  {
    var columns :- ProjectionColumns(projection, source.columns);
    var rows :- Collect(ProjectEach(db, projection, source.columns, source.rows, ctes));
    Ok(Relation(columns, rows))
  }

  /** The GROUP BY key of each row. */
  function GroupValues(db: Db, groupBy: seq<Expr>, source: Relation, ctes: CteEnv): (r: seq<Result<Row>>)
    ensures |r| == |source.rows|
    decreases groupBy, 1
  {
    seq(|source.rows|, i requires 0 <= i < |source.rows| =>
      Collect(EvalEach(db, groupBy, source.columns, source.rows[i], None, ctes)))
  }

  function GroupKeys(db: Db, groupBy: seq<Expr>, source: Relation, ctes: CteEnv): (r: Result<seq<string>>)
    ensures r.Ok? ==> |r.value| == |source.rows|
    decreases groupBy, 2
  {
    var keys :- Collect(GroupValues(db, groupBy, source, ctes));
    Ok(seq(|keys|, i requires 0 <= i < |keys| => RowKey(keys[i])))
  }

  function Representative(group: seq<Row>, width: nat): Row {
    if group == [] then Nulls(width) else group[0]
  }

  /** The output of one group: no row when HAVING does not hold. */
  function GroupOutput(db: Db, q: Query, columns: seq<BoundColumn>, group: seq<Row>, ctes: CteEnv): Result<seq<Row>>
    decreases q, 0
  {
    var representative := Representative(group, |columns|);
    var holds :- HavingHolds(db, q.having, columns, representative, group, ctes);
    if !holds then Ok([])
    else
      var row :- ProjectRow(db, q.projection, columns, representative, Some(group), ctes);
      Ok([row])
  }

  function HavingHolds(db: Db, having: Option<Expr>, columns: seq<BoundColumn>, representative: Row, group: seq<Row>, ctes: CteEnv): Result<bool>
    decreases having, 0
  {
    if having.None? then Ok(true)
    else IsTrue(EvalExpr(db, having.value, columns, representative, Some(group), ctes))
  }

  function GroupOutputs(db: Db, q: Query, columns: seq<BoundColumn>, groups: seq<Group>, ctes: CteEnv): (r: seq<Result<seq<Row>>>)
    ensures |r| == |groups|
    decreases q, 1
  {
    seq(|groups|, g requires 0 <= g < |groups| => GroupOutput(db, q, columns, groups[g].rows, ctes))
  }

  /** A query without GROUP BY has one group, even over no rows. */
  function GroupsFor(keys: seq<string>, rows: seq<Row>, groupBy: seq<Expr>): seq<Group>
    requires |keys| == |rows|
  {
    var found := GroupRows(keys, rows);
    if found == [] && groupBy == [] then [Group("", [])] else found
  }

  function OutputOf(columns: Result<seq<BoundColumn>>, rows: Result<seq<seq<Row>>>): Result<Relation> {
    if columns.Err? || rows.Err? then Err else Ok(Relation(columns.value, Flatten(rows.value)))
  }

  function GroupedOutput(db: Db, q: Query, source: Relation, keys: Result<seq<string>>, ctes: CteEnv): Result<Relation>
    requires keys.Ok? ==> |keys.value| == |source.rows|
    decreases q, 2
  {
    if keys.Err? then Err
    else
      OutputOf(ProjectionColumns(q.projection, source.columns),
               Collect(GroupOutputs(db, q, source.columns, GroupsFor(keys.value, source.rows, q.groupBy), ctes)))
  }

  function AggregateQuery(db: Db, q: Query, source: Relation, ctes: CteEnv): Result<Relation>
    decreases q, 3
  {
    GroupedOutput(db, q, source, GroupKeys(db, q.groupBy, source, ctes), ctes)
  }

  function Truncate(relation: Relation, limit: Option<nat>): Relation {
    if limit.Some? && limit.value < |relation.rows|
    then Relation(relation.columns, relation.rows[..limit.value]) else relation
  }

  function Projected(db: Db, q: Query, source: Relation, ctes: CteEnv): Result<Relation>
    decreases q, 4
  {
    if IsAggregateQuery(q) then AggregateQuery(db, q, source, ctes)
    else ProjectQuery(db, q.projection, source, ctes)
  }

  function Distinct(relation: Relation, distinct: bool): Relation {
    if distinct then Relation(relation.columns, DistinctRows(relation.rows)) else relation
  }

  /** DISTINCT, a late ORDER BY and LIMIT. */
  function FinishProjected(db: Db, q: Query, projected: Result<Relation>, sort: bool, ctes: CteEnv): Result<Relation>
    decreases q, 0
  {
    if projected.Err? then Err
    else Ok(Truncate(SortRelation(db, q.orderBy, Distinct(projected.value, q.distinct), ctes, sort), q.limit))
  }

  /** execute_query after its source rows are known. */
  function FinishQuery(db: Db, q: Query, filtered: Relation, ctes: CteEnv): Result<Relation>
    decreases q, 5
  {
    var before := OrderBeforeProjection(q, filtered.columns);
    var sorted := SortRelation(db, q.orderBy, filtered, ctes, before);
    FinishProjected(db, q, Projected(db, q, sorted, ctes), q.orderBy != [] && !before, ctes)
  }

  /** FROM and the joins. */
  function JoinedRows(db: Db, q: Query, ctes: CteEnv): Result<Relation>
    decreases q, 4
  {
    var source :- FromRelation(db, q.from, ctes, q.selection);
    ExecJoins(db, q.joins, source, ctes)
  }

  /** The rows that reach projection: FROM, the joins and WHERE. */
  function SourceRows(db: Db, q: Query, ctes: CteEnv): Result<Relation>
    decreases q, 5
  {
    var joined :- JoinedRows(db, q, ctes);
    FilterRelation(db, q.selection, joined, ctes)
  }

  function ExecQuery(db: Db, q: Query, inherited: CteEnv): Result<Relation>
    decreases q, 6
  {
    var ctes :- BindCtes(db, q.ctes, inherited);
    var filtered :- SourceRows(db, q, ctes);
    FinishQuery(db, q, filtered, ctes)
  }
}
