/** Expression, query and statement trees (src/sql/types.rs and src/sql/parser.rs). */
module Syntax {
  import opened Wrappers
  import opened Values

  datatype BinaryOp = Arith(arithmetic: Arithmetic) | Compare(comparison: ComparisonOp) | And | Or

  datatype UnaryOp = Not | Negate | Positive

  datatype AggregateFunction = Count | Sum | Avg | Max | Min

  datatype Expr =
    | Column(qualifier: Option<string>, name: string)
    | Literal(value: Value)
    | Parameter(index: nat)
    | Incoming(column: string)
    | Binary(left: Expr, op: BinaryOp, right: Expr)
    | Unary(sign: UnaryOp, expr: Expr)
    | IsNull(expr: Expr, negated: bool)
    | LikeExpr(expr: Expr, pattern: Expr, negated: bool)
    | InList(expr: Expr, list: seq<Expr>, negated: bool)
    | InSubquery(expr: Expr, query: Query, negated: bool)
    | Exists(query: Query, negated: bool)
    | ScalarSubquery(query: Query)
    | Aggregate(fn: AggregateFunction, operand: Option<Expr>, distinct: bool)

  datatype SelectItem = Wildcard(table: Option<string>) | Item(expr: Expr, alias: Option<string>)

  datatype TableSource = Named(name: string, alias: Option<string>) | Derived(query: Query, visible: string)

  datatype JoinType = Inner | Left | Right | Cross

  datatype Join = Join(joinType: JoinType, source: TableSource, on: Option<Expr>)

  datatype OrderBy = OrderBy(expr: Expr, descending: bool)

  datatype Cte = Cte(name: string, columns: seq<string>, query: Query)

  datatype Query = Query(
    ctes: seq<Cte>,
    distinct: bool,
    projection: seq<SelectItem>,
    from: Option<TableSource>,
    joins: seq<Join>,
    selection: Option<Expr>,
    groupBy: seq<Expr>,
    having: Option<Expr>,
    orderBy: seq<OrderBy>,
    limit: Option<nat>)

  // ---------------------------------------------------------------- schemas

  datatype TableConstraint =
    | PrimaryKey(name: Option<string>, columns: seq<string>)
    | Unique(name: Option<string>, columns: seq<string>)
    | Check(name: Option<string>, expr: Expr)
    | ForeignKey(name: Option<string>, columns: seq<string>, foreignTable: string, referred: seq<string>)

  datatype IndexDef = IndexDef(name: string, columns: seq<string>, unique: bool, automatic: bool)

  datatype ColumnDef = ColumnDef(
    name: string,
    dataType: DataType,
    nullable: bool,
    primaryKey: bool,
    unique: bool,
    default: Option<Value>,
    checks: seq<Expr>)

  datatype TableSchema = TableSchema(
    name: string,
    columns: seq<ColumnDef>,
    constraints: seq<TableConstraint>,
    indexes: seq<IndexDef>)

  // -------------------------------------------------------------- statements

  datatype InsertSource = ValueRows(rows: seq<seq<Expr>>) | FromQuery(query: Query)

  datatype Assignment = Assignment(column: string, expr: Expr)

  datatype AlterOperation =
    | AddColumn(column: ColumnDef, constraints: seq<TableConstraint>, ifNotExists: bool)
    | DropColumn(name: string, ifExists: bool)
    | RenameColumn(oldName: string, newName: string)
    | ModifyColumn(oldName: string, column: ColumnDef, constraints: seq<TableConstraint>)
    | SetDefault(name: string, default: Option<Value>)
    | SetNullable(name: string, nullable: bool)
    | SetDataType(name: string, dataType: DataType)
    | AddConstraint(constraint: TableConstraint)
    | DropConstraint(name: string, ifExists: bool)
    | DropPrimaryKey

  datatype Statement =
    | CreateTable(table: string, columns: seq<ColumnDef>, constraints: seq<TableConstraint>, ifNotExists: bool)
    | DropTable(table: string, ifExists: bool)
    | CreateIndex(index: string, table: string, keyColumns: seq<string>, unique: bool, ifNotExists: bool)
    | DropIndex(index: string, table: string, ifExists: bool)
    | AlterTable(table: string, operations: seq<AlterOperation>)
    | Insert(table: string, target: Option<seq<string>>, source: InsertSource, onDuplicate: seq<Assignment>)
    | Select(query: Query)
    | Update(table: string, assignments: seq<Assignment>, selection: Option<Expr>)
    | Delete(table: string, selection: Option<Expr>)
    | Explain(statement: Statement)

  predicate IsWrite(s: Statement) {
    !s.Select? && !s.Explain?
  }

  predicate IsSchemaStatement(s: Statement) {
    s.CreateTable? || s.DropTable? || s.CreateIndex? || s.DropIndex? || s.AlterTable?
  }

  // -------------------------------------------------------- syntactic tests

  /** expr_has_aggregate; it does not look inside the pattern of LIKE or inside subqueries. */
  predicate HasAggregate(e: Expr) {
    match e
    case Aggregate(_, _, _) => true
    case Binary(left, _, right) => HasAggregate(left) || HasAggregate(right)
    case Unary(_, x) => HasAggregate(x)
    case IsNull(x, _) => HasAggregate(x)
    case LikeExpr(x, _, _) => HasAggregate(x)
    case InList(x, list, _) => HasAggregate(x) || exists i :: 0 <= i < |list| && HasAggregate(list[i])
    case _ => false
  }

  /** Literals combined by operators only. */
  predicate Ground(e: Expr) {
    match e
    case Literal(_) => true
    case Binary(left, _, right) => Ground(left) && Ground(right)
    case Unary(_, x) => Ground(x)
    case IsNull(x, _) => Ground(x)
    case LikeExpr(x, p, _) => Ground(x) && Ground(p)
    case _ => false
  }

  /** The visible name of a column computed by e when no alias is given (expression_name). */
  function ExpressionName(e: Expr): string {
    match e
    case Column(_, name) => name
    case Aggregate(fn, _, _) =>
      (match fn case Count => "count" case Sum => "sum" case Avg => "avg" case Max => "max" case Min => "min")
    case ScalarSubquery(_) => "subquery"
    case _ => "expression"
  }
}
