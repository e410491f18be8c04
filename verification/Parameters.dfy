/** Placeholders of prepared statements: numbering, counting and binding (the visitors in
    src/sql/parser.rs), and how they commute with the optimizer (src/sql/planner.rs). */
module Parameters {
  import opened Wrappers
  import opened Values
  import opened Syntax
  import opened Relations
  import opened Planner

  // ---------------------------------------------------- placeholders in the order of the visit

  function InExpr(e: Expr): seq<nat>
    decreases e, 0
  {
    match e
    case Parameter(i) => [i]
    case Binary(left, _, right) => InExpr(left) + InExpr(right)
    case Unary(_, x) => InExpr(x)
    case IsNull(x, _) => InExpr(x)
    case LikeExpr(x, p, _) => InExpr(x) + InExpr(p)
    case InList(x, list, _) => InExpr(x) + InAll(list)
    case InSubquery(x, query, _) => InExpr(x) + InQuery(query)
    case Exists(query, _) => InQuery(query)
    case ScalarSubquery(query) => InQuery(query)
    case Aggregate(_, operand, _) => InOption(operand)
    case _ => []
  }

  function InEach(es: seq<Expr>): (r: seq<seq<nat>>)
    ensures |r| == |es|
    decreases es, 0
  {
    seq(|es|, i requires 0 <= i < |es| => InExpr(es[i]))
  }

  function InAll(es: seq<Expr>): seq<nat>
    decreases es, 1
  {
    Flatten(InEach(es))
  }

  function InOption(e: Option<Expr>): seq<nat>
    decreases e, 0
  {
    if e.Some? then InExpr(e.value) else []
  }

  function InSource(s: TableSource): seq<nat>
    decreases s, 0
  {
    if s.Derived? then InQuery(s.query) else []
  }

  function InItem(item: SelectItem): seq<nat>
    decreases item, 0
  {
    if item.Item? then InExpr(item.expr) else []
  }

  function InJoin(join: Join): seq<nat>
    decreases join, 0
  {
    InSource(join.source) + InOption(join.on)
  }

  function InCtes(ctes: seq<Cte>): (r: seq<seq<nat>>)
    ensures |r| == |ctes|
    decreases ctes, 0
  {
    seq(|ctes|, i requires 0 <= i < |ctes| => InCte(ctes[i]))
  }

  function InCte(cte: Cte): seq<nat>
    decreases cte, 0
  {
    InQuery(cte.query)
  }

  function InItems(items: seq<SelectItem>): (r: seq<seq<nat>>)
    ensures |r| == |items|
    decreases items, 0
  {
    seq(|items|, i requires 0 <= i < |items| => InItem(items[i]))
  }

  function InJoins(joins: seq<Join>): (r: seq<seq<nat>>)
    ensures |r| == |joins|
    decreases joins, 1
  {
    seq(|joins|, i requires 0 <= i < |joins| => InJoin(joins[i]))
  }

  function InOrders(orders: seq<OrderBy>): (r: seq<seq<nat>>)
    ensures |r| == |orders|
    decreases orders, 1
  {
    seq(|orders|, i requires 0 <= i < |orders| => InOrder(orders[i]))
  }

  function InOrder(order: OrderBy): seq<nat>
    decreases order, 0
  {
    InExpr(order.expr)
  }

  /** visit_query: WITH, SELECT, FROM, joins, WHERE, GROUP BY, HAVING, ORDER BY. */
  function QueryParts(q: Query): (r: seq<seq<nat>>)
    ensures |r| == 8
    decreases q, 0
  {
    [Flatten(InCtes(q.ctes)), Flatten(InItems(q.projection)), if q.from.Some? then InSource(q.from.value) else [],
     Flatten(InJoins(q.joins)), InOption(q.selection), InAll(q.groupBy), InOption(q.having), Flatten(InOrders(q.orderBy))]
  }

  function InQuery(q: Query): seq<nat>
    decreases q, 1
  {
    Flatten(QueryParts(q))
  }

  // --------------------------------------------------------------- binding and numbering

  /** bind_parameters: a placeholder becomes the literal of its number. */
  function BindExpr(e: Expr, vs: seq<Value>): Expr
    decreases e, 0
  {
    match e
    case Parameter(i) => if i < |vs| then Literal(vs[i]) else e
    case Binary(left, op, right) => Binary(BindExpr(left, vs), op, BindExpr(right, vs))
    case Unary(op, x) => Unary(op, BindExpr(x, vs))
    case IsNull(x, negated) => IsNull(BindExpr(x, vs), negated)
    case LikeExpr(x, p, negated) => LikeExpr(BindExpr(x, vs), BindExpr(p, vs), negated)
    case InList(x, list, negated) => InList(BindExpr(x, vs), BindAll(list, vs), negated)
    case InSubquery(x, query, negated) => InSubquery(BindExpr(x, vs), BindQuery(query, vs), negated)
    case Exists(query, negated) => Exists(BindQuery(query, vs), negated)
    case ScalarSubquery(query) => ScalarSubquery(BindQuery(query, vs))
    case Aggregate(fn, operand, distinct) => Aggregate(fn, BindOption(operand, vs), distinct)
    case _ => e
  }

  function BindAll(es: seq<Expr>, vs: seq<Value>): (r: seq<Expr>)
    ensures |r| == |es|
    decreases es, 0
  {
    seq(|es|, i requires 0 <= i < |es| => BindExpr(es[i], vs))
  }

  function BindOption(e: Option<Expr>, vs: seq<Value>): Option<Expr>
    decreases e, 0
  {
    if e.Some? then Some(BindExpr(e.value, vs)) else None
  }

  function BindSource(s: TableSource, vs: seq<Value>): TableSource
    decreases s, 0
  {
    if s.Derived? then Derived(BindQuery(s.query, vs), s.visible) else s
  }

  function BindItem(item: SelectItem, vs: seq<Value>): SelectItem
    decreases item, 0
  {
    if item.Item? then Item(BindExpr(item.expr, vs), item.alias) else item
  }

  function BindJoin(join: Join, vs: seq<Value>): Join
    decreases join, 0
  {
    Join(join.joinType, BindSource(join.source, vs), BindOption(join.on, vs))
  }

  function BindCte(cte: Cte, vs: seq<Value>): Cte
    decreases cte, 0
  {
    Cte(cte.name, cte.columns, BindQuery(cte.query, vs))
  }

  function BindOrder(order: OrderBy, vs: seq<Value>): OrderBy
    decreases order, 0
  {
    OrderBy(BindExpr(order.expr, vs), order.descending)
  }

  function BindCtes(ctes: seq<Cte>, vs: seq<Value>): (r: seq<Cte>)
    ensures |r| == |ctes|
    decreases ctes, 1
  {
    seq(|ctes|, i requires 0 <= i < |ctes| => BindCte(ctes[i], vs))
  }

  function BindItems(items: seq<SelectItem>, vs: seq<Value>): (r: seq<SelectItem>)
    ensures |r| == |items|
    decreases items, 1
  {
    seq(|items|, i requires 0 <= i < |items| => BindItem(items[i], vs))
  }

  function BindJoins(joins: seq<Join>, vs: seq<Value>): (r: seq<Join>)
    ensures |r| == |joins|
    decreases joins, 1
  {
    seq(|joins|, i requires 0 <= i < |joins| => BindJoin(joins[i], vs))
  }

  function BindOrders(orders: seq<OrderBy>, vs: seq<Value>): (r: seq<OrderBy>)
    ensures |r| == |orders|
    decreases orders, 1
  {
    seq(|orders|, i requires 0 <= i < |orders| => BindOrder(orders[i], vs))
  }

  function BindQuery(q: Query, vs: seq<Value>): Query
    decreases q, 0
  {
    Query(
      BindCtes(q.ctes, vs),
      q.distinct,
      BindItems(q.projection, vs),
      if q.from.Some? then Some(BindSource(q.from.value, vs)) else None,
      BindJoins(q.joins, vs),
      BindOption(q.selection, vs),
      BindAll(q.groupBy, vs),
      BindOption(q.having, vs),
      BindOrders(q.orderBy, vs),
      q.limit)
  }

  // --------------------------------------------------------- folding commutes with binding

  lemma {:induction false} FoldBind(e: Expr, vs: seq<Value>)
    ensures FoldExpr(BindExpr(FoldExpr(e), vs)) == FoldExpr(BindExpr(e, vs))
    decreases e, 1
  {
    if e.Binary? || e.Unary? || e.IsNull? || e.LikeExpr? {
      FoldBindOperator(e, vs);
    } else {
      FoldBindNested(e, vs);
    }
  }

  lemma {:induction false} FoldBindOperator(e: Expr, vs: seq<Value>)
    requires e.Binary? || e.Unary? || e.IsNull? || e.LikeExpr?
    ensures FoldExpr(BindExpr(FoldExpr(e), vs)) == FoldExpr(BindExpr(e, vs))
    decreases e, 0
  {
    match e
    case Binary(left, op, right) => FoldBind(left, vs); FoldBind(right, vs);
    case Unary(op, x) => FoldBind(x, vs);
    case IsNull(x, _) => FoldBind(x, vs);
    case LikeExpr(x, p, _) => FoldBind(x, vs); FoldBind(p, vs);
  }

  lemma {:induction false} FoldBindNested(e: Expr, vs: seq<Value>)
    requires !e.Binary? && !e.Unary? && !e.IsNull? && !e.LikeExpr?
    ensures FoldExpr(BindExpr(FoldExpr(e), vs)) == FoldExpr(BindExpr(e, vs))
    decreases e, 0
  {
    match e
    case InList(x, list, _) => FoldBind(x, vs); FoldBindAll(list, vs);
    case InSubquery(x, q, _) => FoldBind(x, vs); OptimizeBind(q, vs);
    case Exists(q, _) => OptimizeBind(q, vs);
    case ScalarSubquery(q) => OptimizeBind(q, vs);
    case Aggregate(_, operand, _) => FoldBindOption(operand, vs);
    case _ =>
  }

  lemma {:induction false} FoldBindAll(es: seq<Expr>, vs: seq<Value>)
    ensures FoldAll(BindAll(FoldAll(es), vs)) == FoldAll(BindAll(es, vs))
    decreases es, 0
  {
    forall i | 0 <= i < |es| ensures FoldExpr(BindExpr(FoldExpr(es[i]), vs)) == FoldExpr(BindExpr(es[i], vs)) {
      FoldBind(es[i], vs);
    }
  }

  lemma {:induction false} FoldBindOption(e: Option<Expr>, vs: seq<Value>)
    ensures FoldOption(BindOption(FoldOption(e), vs)) == FoldOption(BindOption(e, vs))
    decreases e, 0
  {
    if e.Some? {
      FoldBind(e.value, vs);
    }
  }

  lemma {:induction false} SourceBind(s: TableSource, vs: seq<Value>)
    ensures OptimizeSource(BindSource(OptimizeSource(s), vs)) == OptimizeSource(BindSource(s, vs))
    decreases s, 0
  {
    if s.Derived? {
      OptimizeBind(s.query, vs);
    }
  }

  lemma {:induction false} ItemBind(item: SelectItem, vs: seq<Value>)
    ensures OptimizeItem(BindItem(OptimizeItem(item), vs)) == OptimizeItem(BindItem(item, vs))
    decreases item, 0
  {
    if item.Item? {
      FoldBind(item.expr, vs);
    }
  }

  lemma {:induction false} JoinBind(join: Join, vs: seq<Value>)
    ensures OptimizeJoin(BindJoin(OptimizeJoin(join), vs)) == OptimizeJoin(BindJoin(join, vs))
    decreases join, 0
  {
    SourceBind(join.source, vs);
    FoldBindOption(join.on, vs);
  }

  lemma {:induction false} CteBind(cte: Cte, vs: seq<Value>)
    ensures OptimizeCte(BindCte(OptimizeCte(cte), vs)) == OptimizeCte(BindCte(cte, vs))
    decreases cte, 0
  {
    OptimizeBind(cte.query, vs);
  }

  lemma {:induction false} OrderBind(order: OrderBy, vs: seq<Value>)
    ensures OptimizeOrderBy(BindOrder(OptimizeOrderBy(order), vs)) == OptimizeOrderBy(BindOrder(order, vs))
    decreases order, 0
  {
    FoldBind(order.expr, vs);
  }

  lemma {:induction false} CtesBind(ctes: seq<Cte>, vs: seq<Value>)
    ensures OptimizeCtes(BindCtes(OptimizeCtes(ctes), vs)) == OptimizeCtes(BindCtes(ctes, vs))
    decreases ctes, 1
  {
    forall i | 0 <= i < |ctes| ensures OptimizeCte(BindCte(OptimizeCte(ctes[i]), vs)) == OptimizeCte(BindCte(ctes[i], vs)) {
      CteBind(ctes[i], vs);
    }
  }

  lemma {:induction false} ItemsBind(items: seq<SelectItem>, vs: seq<Value>)
    ensures OptimizeItems(BindItems(OptimizeItems(items), vs)) == OptimizeItems(BindItems(items, vs))
    decreases items, 1
  {
    forall i | 0 <= i < |items| ensures OptimizeItem(BindItem(OptimizeItem(items[i]), vs)) == OptimizeItem(BindItem(items[i], vs)) {
      ItemBind(items[i], vs);
    }
  }

  lemma {:induction false} JoinsBind(joins: seq<Join>, vs: seq<Value>)
    ensures OptimizeJoins(BindJoins(OptimizeJoins(joins), vs)) == OptimizeJoins(BindJoins(joins, vs))
    decreases joins, 1
  {
    forall i | 0 <= i < |joins| ensures OptimizeJoin(BindJoin(OptimizeJoin(joins[i]), vs)) == OptimizeJoin(BindJoin(joins[i], vs)) {
      JoinBind(joins[i], vs);
    }
  }

  lemma {:induction false} OrdersBind(orders: seq<OrderBy>, vs: seq<Value>)
    ensures OptimizeOrder(BindOrders(OptimizeOrder(orders), vs)) == OptimizeOrder(BindOrders(orders, vs))
    decreases orders, 1
  {
    forall i | 0 <= i < |orders| ensures OptimizeOrderBy(BindOrder(OptimizeOrderBy(orders[i]), vs)) == OptimizeOrderBy(BindOrder(orders[i], vs)) {
      OrderBind(orders[i], vs);
    }
  }

  /** optimize(bind(optimize(q), v)) == optimize(bind(q, v)) for every query and all values. */
  lemma {:induction false} OptimizeBind(q: Query, vs: seq<Value>)
    ensures OptimizeQuery(BindQuery(OptimizeQuery(q), vs)) == OptimizeQuery(BindQuery(q, vs))
    decreases q, 0
  {
    CtesBind(q.ctes, vs);
    ItemsBind(q.projection, vs);
    if q.from.Some? {
      SourceBind(q.from.value, vs);
    }
    JoinsBind(q.joins, vs);
    FoldBindOption(q.selection, vs);
    FoldBindAll(q.groupBy, vs);
    FoldBindOption(q.having, vs);
    OrdersBind(q.orderBy, vs);
  }

  // -------------------------------------------------------------- optimizing is idempotent

  lemma {:induction false} FoldIdempotent(e: Expr)
    ensures FoldExpr(FoldExpr(e)) == FoldExpr(e)
    decreases e, 1
  {
    match e
    case Binary(left, op, right) => FoldIdempotent(left); FoldIdempotent(right);
    case Unary(op, x) => FoldIdempotent(x);
    case IsNull(x, _) => FoldIdempotent(x);
    case LikeExpr(x, p, _) => FoldIdempotent(x); FoldIdempotent(p);
    case InList(x, list, _) => FoldIdempotent(x); FoldAllIdempotent(list);
    case InSubquery(x, q, _) => FoldIdempotent(x); OptimizeIdempotent(q);
    case Exists(q, _) => OptimizeIdempotent(q);
    case ScalarSubquery(q) => OptimizeIdempotent(q);
    case Aggregate(_, operand, _) => FoldOptionIdempotent(operand);
    case _ =>
  }

  lemma {:induction false} FoldAllIdempotent(es: seq<Expr>)
    ensures FoldAll(FoldAll(es)) == FoldAll(es)
    decreases es, 0
  {
    forall i | 0 <= i < |es| ensures FoldExpr(FoldExpr(es[i])) == FoldExpr(es[i]) {
      FoldIdempotent(es[i]);
    }
  }

  lemma {:induction false} FoldOptionIdempotent(e: Option<Expr>)
    ensures FoldOption(FoldOption(e)) == FoldOption(e)
    decreases e, 0
  {
    if e.Some? {
      FoldIdempotent(e.value);
    }
  }

  lemma {:induction false} SourceIdempotent(s: TableSource)
    ensures OptimizeSource(OptimizeSource(s)) == OptimizeSource(s)
    decreases s, 0
  {
    if s.Derived? {
      OptimizeIdempotent(s.query);
    }
  }

  lemma {:induction false} CteIdempotent(cte: Cte)
    ensures OptimizeCte(OptimizeCte(cte)) == OptimizeCte(cte)
    decreases cte, 0
  {
    OptimizeIdempotent(cte.query);
  }

  lemma {:induction false} CtesIdempotent(ctes: seq<Cte>)
    ensures OptimizeCtes(OptimizeCtes(ctes)) == OptimizeCtes(ctes)
    decreases ctes, 1
  {
    forall i | 0 <= i < |ctes| ensures OptimizeCte(OptimizeCte(ctes[i])) == OptimizeCte(ctes[i]) {
      CteIdempotent(ctes[i]);
    }
  }

  lemma {:induction false} ItemIdempotent(item: SelectItem)
    ensures OptimizeItem(OptimizeItem(item)) == OptimizeItem(item)
    decreases item, 0
  {
    if item.Item? {
      FoldIdempotent(item.expr);
    }
  }

  lemma {:induction false} ItemsIdempotent(items: seq<SelectItem>)
    ensures OptimizeItems(OptimizeItems(items)) == OptimizeItems(items)
    decreases items, 1
  {
    forall i | 0 <= i < |items| ensures OptimizeItem(OptimizeItem(items[i])) == OptimizeItem(items[i]) {
      ItemIdempotent(items[i]);
    }
  }

  lemma {:induction false} JoinIdempotent(join: Join)
    ensures OptimizeJoin(OptimizeJoin(join)) == OptimizeJoin(join)
    decreases join, 0
  {
    SourceIdempotent(join.source);
    FoldOptionIdempotent(join.on);
  }

  lemma {:induction false} JoinsIdempotent(joins: seq<Join>)
    ensures OptimizeJoins(OptimizeJoins(joins)) == OptimizeJoins(joins)
    decreases joins, 1
  {
    forall i | 0 <= i < |joins| ensures OptimizeJoin(OptimizeJoin(joins[i])) == OptimizeJoin(joins[i]) {
      JoinIdempotent(joins[i]);
    }
  }

  lemma {:induction false} OrderIdempotent(order: OrderBy)
    ensures OptimizeOrderBy(OptimizeOrderBy(order)) == OptimizeOrderBy(order)
    decreases order, 0
  {
    FoldIdempotent(order.expr);
  }

  lemma {:induction false} OrdersIdempotent(orders: seq<OrderBy>)
    ensures OptimizeOrder(OptimizeOrder(orders)) == OptimizeOrder(orders)
    decreases orders, 1
  {
    forall i | 0 <= i < |orders| ensures OptimizeOrderBy(OptimizeOrderBy(orders[i])) == OptimizeOrderBy(orders[i]) {
      OrderIdempotent(orders[i]);
    }
  }

  /** Optimizing an optimized query changes nothing. */
  lemma {:induction false} OptimizeIdempotent(q: Query)
    ensures OptimizeQuery(OptimizeQuery(q)) == OptimizeQuery(q)
    decreases q, 0
  {
    CtesIdempotent(q.ctes);
    ItemsIdempotent(q.projection);
    if q.from.Some? {
      SourceIdempotent(q.from.value);
    }
    JoinsIdempotent(q.joins);
    FoldOptionIdempotent(q.selection);
    FoldAllIdempotent(q.groupBy);
    FoldOptionIdempotent(q.having);
    OrdersIdempotent(q.orderBy);
  }

  // ------------------------------------------------------ optimizing keeps the placeholders

  lemma {:induction false} FoldKeeps(e: Expr)
    ensures InExpr(FoldExpr(e)) == InExpr(e)
    decreases e, 1
  {
    match e
    case Binary(left, op, right) => FoldKeeps(left); FoldKeeps(right);
    case Unary(op, x) => FoldKeeps(x);
    case IsNull(x, _) => FoldKeeps(x);
    case LikeExpr(x, p, _) => FoldKeeps(x); FoldKeeps(p);
    case InList(x, list, _) => FoldKeeps(x); FoldAllKeeps(list);
    case InSubquery(x, q, _) => FoldKeeps(x); OptimizeKeeps(q);
    case Exists(q, _) => OptimizeKeeps(q);
    case ScalarSubquery(q) => OptimizeKeeps(q);
    case Aggregate(_, operand, _) => FoldOptionKeeps(operand);
    case _ =>
  }

  lemma {:induction false} FoldAllKeeps(es: seq<Expr>)
    ensures InAll(FoldAll(es)) == InAll(es)
    decreases es, 0
  {
    forall i | 0 <= i < |es| ensures InExpr(FoldExpr(es[i])) == InExpr(es[i]) {
      FoldKeeps(es[i]);
    }
    assert InEach(FoldAll(es)) == InEach(es);
  }

  lemma {:induction false} FoldOptionKeeps(e: Option<Expr>)
    ensures InOption(FoldOption(e)) == InOption(e)
    decreases e, 0
  {
    if e.Some? {
      FoldKeeps(e.value);
    }
  }

  lemma {:induction false} SourceKeeps(s: TableSource)
    ensures InSource(OptimizeSource(s)) == InSource(s)
    decreases s, 0
  {
    if s.Derived? {
      OptimizeKeeps(s.query);
    }
  }

  lemma {:induction false} CteKeeps(cte: Cte)
    ensures InCte(OptimizeCte(cte)) == InCte(cte)
    decreases cte, 0
  {
    OptimizeKeeps(cte.query);
  }

  lemma {:induction false} CtesKeep(ctes: seq<Cte>)
    ensures InCtes(OptimizeCtes(ctes)) == InCtes(ctes)
    decreases ctes, 1
  {
    forall i | 0 <= i < |ctes| ensures InCte(OptimizeCte(ctes[i])) == InCte(ctes[i]) {
      CteKeeps(ctes[i]);
    }
  }

  lemma {:induction false} ItemKeeps(item: SelectItem)
    ensures InItem(OptimizeItem(item)) == InItem(item)
    decreases item, 0
  {
    if item.Item? {
      FoldKeeps(item.expr);
    }
  }

  lemma {:induction false} ItemsKeep(items: seq<SelectItem>)
    ensures InItems(OptimizeItems(items)) == InItems(items)
    decreases items, 1
  {
    forall i | 0 <= i < |items| ensures InItem(OptimizeItem(items[i])) == InItem(items[i]) {
      ItemKeeps(items[i]);
    }
  }

  lemma {:induction false} JoinKeeps(join: Join)
    ensures InJoin(OptimizeJoin(join)) == InJoin(join)
    decreases join, 0
  {
    SourceKeeps(join.source);
    FoldOptionKeeps(join.on);
  }

  lemma {:induction false} JoinsKeep(joins: seq<Join>)
    ensures InJoins(OptimizeJoins(joins)) == InJoins(joins)
    decreases joins, 1
  {
    forall i | 0 <= i < |joins| ensures InJoin(OptimizeJoin(joins[i])) == InJoin(joins[i]) {
      JoinKeeps(joins[i]);
    }
  }

  lemma {:induction false} OrderKeeps(order: OrderBy)
    ensures InOrder(OptimizeOrderBy(order)) == InOrder(order)
    decreases order, 0
  {
    FoldKeeps(order.expr);
  }

  lemma {:induction false} OrdersKeep(orders: seq<OrderBy>)
    ensures InOrders(OptimizeOrder(orders)) == InOrders(orders)
    decreases orders, 1
  {
    forall i | 0 <= i < |orders| ensures InOrder(OptimizeOrderBy(orders[i])) == InOrder(orders[i]) {
      OrderKeeps(orders[i]);
    }
  }

  /** Folding neither drops nor moves a placeholder. */
  lemma {:induction false} OptimizeKeeps(q: Query)
    ensures InQuery(OptimizeQuery(q)) == InQuery(q)
    decreases q, 0
  {
    CtesKeep(q.ctes);
    ItemsKeep(q.projection);
    if q.from.Some? {
      SourceKeeps(q.from.value);
    }
    JoinsKeep(q.joins);
    FoldOptionKeeps(q.selection);
    FoldAllKeeps(q.groupBy);
    FoldOptionKeeps(q.having);
    OrdersKeep(q.orderBy);
    assert QueryParts(OptimizeQuery(q)) == QueryParts(q);
  }

  // ------------------------------------------------------------ binding leaves no placeholder

  /** There is a value for every placeholder. */
  ghost predicate Covered(parameters: seq<nat>, vs: seq<Value>) {
    forall i :: 0 <= i < |parameters| ==> parameters[i] < |vs|
  }

  lemma CoveredBoth(a: seq<nat>, b: seq<nat>, vs: seq<Value>)
    requires Covered(a + b, vs)
    ensures Covered(a, vs) && Covered(b, vs)
  {
    assert forall i :: 0 <= i < |a| ==> (a + b)[i] == a[i];
    assert forall i :: 0 <= i < |b| ==> (a + b)[|a| + i] == b[i];
  }

  lemma {:induction false} CoveredPart(parts: seq<seq<nat>>, k: nat, vs: seq<Value>)
    requires k < |parts| && Covered(Flatten(parts), vs)
    ensures Covered(parts[k], vs)
    decreases k
  {
    CoveredBoth(parts[0], Flatten(parts[1..]), vs);
    if k > 0 {
      CoveredPart(parts[1..], k - 1, vs);
    }
  }

  lemma {:induction false} FlattenEmpty(parts: seq<seq<nat>>)
    requires forall i :: 0 <= i < |parts| ==> parts[i] == []
    ensures Flatten(parts) == []
    decreases parts
  {
    if parts != [] {
      FlattenEmpty(parts[1..]);
    }
  }

  lemma {:induction false} BoundExpr(e: Expr, vs: seq<Value>)
    requires Covered(InExpr(e), vs)
    ensures InExpr(BindExpr(e, vs)) == []
    decreases e, 1
  {
    match e
    case Binary(left, op, right) => CoveredBoth(InExpr(left), InExpr(right), vs); BoundExpr(left, vs); BoundExpr(right, vs);
    case LikeExpr(x, p, _) => CoveredBoth(InExpr(x), InExpr(p), vs); BoundExpr(x, vs); BoundExpr(p, vs);
    case InList(x, list, _) => CoveredBoth(InExpr(x), InAll(list), vs); BoundExpr(x, vs); BoundAll(list, vs);
    case InSubquery(x, q, _) => CoveredBoth(InExpr(x), InQuery(q), vs); BoundExpr(x, vs); BoundQuery(q, vs);
    case Unary(op, x) => BoundExpr(x, vs);
    case IsNull(x, _) => BoundExpr(x, vs);
    case Exists(q, _) => BoundQuery(q, vs);
    case ScalarSubquery(q) => BoundQuery(q, vs);
    case Aggregate(_, operand, _) => BoundOption(operand, vs);
    case Parameter(i) => assert InExpr(e)[0] == i;
    case _ =>
  }

  lemma {:induction false} BoundAll(es: seq<Expr>, vs: seq<Value>)
    requires Covered(InAll(es), vs)
    ensures InAll(BindAll(es, vs)) == []
    decreases es, 0
  {
    forall i | 0 <= i < |es| ensures InExpr(BindExpr(es[i], vs)) == [] {
      CoveredPart(InEach(es), i, vs);
      assert InEach(es)[i] == InExpr(es[i]);
      BoundExpr(es[i], vs);
    }
    FlattenEmpty(InEach(BindAll(es, vs)));
  }

  lemma {:induction false} BoundOption(e: Option<Expr>, vs: seq<Value>)
    requires Covered(InOption(e), vs)
    ensures InOption(BindOption(e, vs)) == []
    decreases e, 0
  {
    if e.Some? {
      BoundExpr(e.value, vs);
    }
  }

  lemma {:induction false} BoundSource(s: TableSource, vs: seq<Value>)
    requires Covered(InSource(s), vs)
    ensures InSource(BindSource(s, vs)) == []
    decreases s, 0
  {
    if s.Derived? {
      BoundQuery(s.query, vs);
    }
  }

  lemma {:induction false} BoundCte(cte: Cte, vs: seq<Value>)
    requires Covered(InCte(cte), vs)
    ensures InCte(BindCte(cte, vs)) == []
    decreases cte, 0
  {
    BoundQuery(cte.query, vs);
  }

  lemma {:induction false} BoundCtes(ctes: seq<Cte>, vs: seq<Value>)
    requires Covered(Flatten(InCtes(ctes)), vs)
    ensures Flatten(InCtes(BindCtes(ctes, vs))) == []
    decreases ctes, 1
  {
    forall i | 0 <= i < |ctes| ensures InCte(BindCte(ctes[i], vs)) == [] {
      CoveredPart(InCtes(ctes), i, vs);
      assert InCtes(ctes)[i] == InCte(ctes[i]);
      BoundCte(ctes[i], vs);
    }
    FlattenEmpty(InCtes(BindCtes(ctes, vs)));
  }

  lemma {:induction false} BoundItem(item: SelectItem, vs: seq<Value>)
    requires Covered(InItem(item), vs)
    ensures InItem(BindItem(item, vs)) == []
    decreases item, 0
  {
    if item.Item? {
      BoundExpr(item.expr, vs);
    }
  }

  lemma {:induction false} BoundItems(items: seq<SelectItem>, vs: seq<Value>)
    requires Covered(Flatten(InItems(items)), vs)
    ensures Flatten(InItems(BindItems(items, vs))) == []
    decreases items, 1
  {
    forall i | 0 <= i < |items| ensures InItem(BindItem(items[i], vs)) == [] {
      CoveredPart(InItems(items), i, vs);
      assert InItems(items)[i] == InItem(items[i]);
      BoundItem(items[i], vs);
    }
    FlattenEmpty(InItems(BindItems(items, vs)));
  }

  lemma {:induction false} BoundJoin(join: Join, vs: seq<Value>)
    requires Covered(InJoin(join), vs)
    ensures InJoin(BindJoin(join, vs)) == []
    decreases join, 0
  {
    CoveredBoth(InSource(join.source), InOption(join.on), vs);
    BoundSource(join.source, vs);
    BoundOption(join.on, vs);
  }

  lemma {:induction false} BoundJoins(joins: seq<Join>, vs: seq<Value>)
    requires Covered(Flatten(InJoins(joins)), vs)
    ensures Flatten(InJoins(BindJoins(joins, vs))) == []
    decreases joins, 1
  {
    forall i | 0 <= i < |joins| ensures InJoin(BindJoin(joins[i], vs)) == [] {
      CoveredPart(InJoins(joins), i, vs);
      assert InJoins(joins)[i] == InJoin(joins[i]);
      BoundJoin(joins[i], vs);
    }
    FlattenEmpty(InJoins(BindJoins(joins, vs)));
  }

  lemma {:induction false} BoundOrder(order: OrderBy, vs: seq<Value>)
    requires Covered(InOrder(order), vs)
    ensures InOrder(BindOrder(order, vs)) == []
    decreases order, 0
  {
    BoundExpr(order.expr, vs);
  }

  lemma {:induction false} BoundOrders(orders: seq<OrderBy>, vs: seq<Value>)
    requires Covered(Flatten(InOrders(orders)), vs)
    ensures Flatten(InOrders(BindOrders(orders, vs))) == []
    decreases orders, 1
  {
    forall i | 0 <= i < |orders| ensures InOrder(BindOrder(orders[i], vs)) == [] {
      CoveredPart(InOrders(orders), i, vs);
      assert InOrders(orders)[i] == InOrder(orders[i]);
      BoundOrder(orders[i], vs);
    }
    FlattenEmpty(InOrders(BindOrders(orders, vs)));
  }

  lemma PartsCovered(q: Query, vs: seq<Value>)
    requires Covered(InQuery(q), vs)
    ensures forall k :: 0 <= k < 8 ==> Covered(QueryParts(q)[k], vs)
  {
    forall k | 0 <= k < 8 ensures Covered(QueryParts(q)[k], vs) {
      CoveredPart(QueryParts(q), k, vs);
    }
  }

  /** Once there is a value for every placeholder, binding leaves none. */
  lemma {:induction false} BoundQuery(q: Query, vs: seq<Value>)
    requires Covered(InQuery(q), vs)
    ensures InQuery(BindQuery(q, vs)) == []
    decreases q, 0
  {
    var parts := QueryParts(q);
    PartsCovered(q, vs);
    assert Covered(parts[0], vs) && Covered(parts[1], vs) && Covered(parts[2], vs) && Covered(parts[3], vs);
    assert Covered(parts[4], vs) && Covered(parts[5], vs) && Covered(parts[6], vs) && Covered(parts[7], vs);
    BoundCtes(q.ctes, vs);
    BoundItems(q.projection, vs);
    if q.from.Some? {
      BoundSource(q.from.value, vs);
    }
    BoundJoins(q.joins, vs);
    BoundOption(q.selection, vs);
    BoundAll(q.groupBy, vs);
    BoundOption(q.having, vs);
    BoundOrders(q.orderBy, vs);
    FlattenEmpty(QueryParts(BindQuery(q, vs)));
  }

  // ----------------------------------------------------------- numbering the placeholders

  /** assign_parameters: the counter goes up by one at each placeholder of the visit. */
  function AssignExpr(e: Expr, next: nat): (Expr, nat)
    decreases e, 0
  {
    match e
    case Parameter(_) => (Parameter(next), next + 1)
    case Binary(left, op, right) =>
      var l := AssignExpr(left, next);
      var r := AssignExpr(right, l.1);
      (Binary(l.0, op, r.0), r.1)
    case Unary(op, x) =>
      var v := AssignExpr(x, next);
      (Unary(op, v.0), v.1)
    case IsNull(x, negated) =>
      var v := AssignExpr(x, next);
      (IsNull(v.0, negated), v.1)
    case LikeExpr(x, p, negated) =>
      var v := AssignExpr(x, next);
      var pattern := AssignExpr(p, v.1);
      (LikeExpr(v.0, pattern.0, negated), pattern.1)
    case InList(x, list, negated) =>
      var v := AssignExpr(x, next);
      var vs := AssignAll(list, v.1);
      (InList(v.0, vs.0, negated), vs.1)
    case InSubquery(x, query, negated) =>
      var v := AssignExpr(x, next);
      var q := AssignQuery(query, v.1);
      (InSubquery(v.0, q.0, negated), q.1)
    case Exists(query, negated) =>
      var q := AssignQuery(query, next);
      (Exists(q.0, negated), q.1)
    case ScalarSubquery(query) =>
      var q := AssignQuery(query, next);
      (ScalarSubquery(q.0), q.1)
    case Aggregate(fn, operand, distinct) =>
      var v := AssignOption(operand, next);
      (Aggregate(fn, v.0, distinct), v.1)
    case _ => (e, next)
  }

  function AssignAll(es: seq<Expr>, next: nat): (seq<Expr>, nat)
    decreases es, 0
  {
    if es == [] then ([], next)
    else
      var init := AssignAll(es[..|es| - 1], next);
      var last := AssignExpr(es[|es| - 1], init.1);
      (init.0 + [last.0], last.1)
  }

  function AssignOption(e: Option<Expr>, next: nat): (Option<Expr>, nat)
    decreases e, 0
  {
    if e.None? then (None, next)
    else
      var v := AssignExpr(e.value, next);
      (Some(v.0), v.1)
  }

  function AssignSource(s: TableSource, next: nat): (TableSource, nat)
    decreases s, 0
  {
    if s.Named? then (s, next)
    else
      var q := AssignQuery(s.query, next);
      (Derived(q.0, s.visible), q.1)
  }

  function AssignFrom(s: Option<TableSource>, next: nat): (Option<TableSource>, nat)
    decreases s, 0
  {
    if s.None? then (None, next)
    else
      var source := AssignSource(s.value, next);
      (Some(source.0), source.1)
  }

  function AssignCte(cte: Cte, next: nat): (Cte, nat)
    decreases cte, 0
  {
    var q := AssignQuery(cte.query, next);
    (Cte(cte.name, cte.columns, q.0), q.1)
  }

  function AssignItem(item: SelectItem, next: nat): (SelectItem, nat)
    decreases item, 0
  {
    if item.Wildcard? then (item, next)
    else
      var v := AssignExpr(item.expr, next);
      (Item(v.0, item.alias), v.1)
  }

  function AssignJoin(join: Join, next: nat): (Join, nat)
    decreases join, 0
  {
    var source := AssignSource(join.source, next);
    var on := AssignOption(join.on, source.1);
    (Join(join.joinType, source.0, on.0), on.1)
  }

  function AssignOrder(order: OrderBy, next: nat): (OrderBy, nat)
    decreases order, 0
  {
    var v := AssignExpr(order.expr, next);
    (OrderBy(v.0, order.descending), v.1)
  }

  function AssignCtes(ctes: seq<Cte>, next: nat): (seq<Cte>, nat)
    decreases ctes, 1
  {
    if ctes == [] then ([], next)
    else
      var init := AssignCtes(ctes[..|ctes| - 1], next);
      var last := AssignCte(ctes[|ctes| - 1], init.1);
      (init.0 + [last.0], last.1)
  }

  function AssignItems(items: seq<SelectItem>, next: nat): (seq<SelectItem>, nat)
    decreases items, 1
  {
    if items == [] then ([], next)
    else
      var init := AssignItems(items[..|items| - 1], next);
      var last := AssignItem(items[|items| - 1], init.1);
      (init.0 + [last.0], last.1)
  }

  function AssignJoins(joins: seq<Join>, next: nat): (seq<Join>, nat)
    decreases joins, 1
  {
    if joins == [] then ([], next)
    else
      var init := AssignJoins(joins[..|joins| - 1], next);
      var last := AssignJoin(joins[|joins| - 1], init.1);
      (init.0 + [last.0], last.1)
  }

  function AssignOrders(orders: seq<OrderBy>, next: nat): (seq<OrderBy>, nat)
    decreases orders, 1
  {
    if orders == [] then ([], next)
    else
      var init := AssignOrders(orders[..|orders| - 1], next);
      var last := AssignOrder(orders[|orders| - 1], init.1);
      (init.0 + [last.0], last.1)
  }

  function AssignQuery(q: Query, next: nat): (Query, nat)
    decreases q, 0
  {
    var ctes := AssignCtes(q.ctes, next);
    var items := AssignItems(q.projection, ctes.1);
    var from := AssignFrom(q.from, items.1);
    var joins := AssignJoins(q.joins, from.1);
    var selection := AssignOption(q.selection, joins.1);
    var groupBy := AssignAll(q.groupBy, selection.1);
    var having := AssignOption(q.having, groupBy.1);
    var orderBy := AssignOrders(q.orderBy, having.1);
    (Query(ctes.0, q.distinct, items.0, from.0, joins.0, selection.0, groupBy.0, having.0, orderBy.0, q.limit), orderBy.1)
  }

  /** n, n + 1 and so on, k numbers in all. */
  function Range(n: nat, k: nat): (r: seq<nat>)
    ensures |r| == k
  {
    seq(k, i requires 0 <= i < k => n + i)
  }

  /** These placeholders are numbered from n on, each number once and in order, and the counter ends behind
      the last of them. */
  ghost predicate Numbered(before: seq<nat>, n: nat, after: seq<nat>, end: nat) {
    after == Range(n, |before|) && end == n + |before|
  }

  lemma NumberedBoth(a: seq<nat>, b: seq<nat>, n: nat, x: seq<nat>, m: nat, y: seq<nat>, end: nat)
    requires Numbered(a, n, x, m) && Numbered(b, m, y, end)
    ensures Numbered(a + b, n, x + y, end)
  {
  }

  lemma {:induction false} NumberExpr(e: Expr, n: nat)
    ensures Numbered(InExpr(e), n, InExpr(AssignExpr(e, n).0), AssignExpr(e, n).1)
    decreases e, 1
  {
    if e.Binary? || e.LikeExpr? || e.InList? || e.InSubquery? {
      NumberPair(e, n);
    } else {
      match e
      case Unary(op, x) => NumberExpr(x, n);
      case IsNull(x, _) => NumberExpr(x, n);
      case Exists(q, _) => NumberQuery(q, n);
      case ScalarSubquery(q) => NumberQuery(q, n);
      case Aggregate(_, operand, _) => NumberOption(operand, n);
      case _ =>
    }
  }

  lemma {:induction false} NumberPair(e: Expr, n: nat)
    requires e.Binary? || e.LikeExpr? || e.InList? || e.InSubquery?
    ensures Numbered(InExpr(e), n, InExpr(AssignExpr(e, n).0), AssignExpr(e, n).1)
    decreases e, 0
  {
    var x := if e.Binary? then e.left else e.expr;
    NumberExpr(x, n);
    var first := AssignExpr(x, n);
    match e
    case Binary(_, _, right) =>
      NumberExpr(right, first.1);
      NumberedBoth(InExpr(x), InExpr(right), n, InExpr(first.0), first.1, InExpr(AssignExpr(right, first.1).0), AssignExpr(right, first.1).1);
    case LikeExpr(_, p, _) =>
      NumberExpr(p, first.1);
      NumberedBoth(InExpr(x), InExpr(p), n, InExpr(first.0), first.1, InExpr(AssignExpr(p, first.1).0), AssignExpr(p, first.1).1);
    case InList(_, list, _) =>
      NumberAll(list, first.1);
      NumberedBoth(InExpr(x), InAll(list), n, InExpr(first.0), first.1, InAll(AssignAll(list, first.1).0), AssignAll(list, first.1).1);
    case InSubquery(_, q, _) =>
      NumberQuery(q, first.1);
      NumberedBoth(InExpr(x), InQuery(q), n, InExpr(first.0), first.1, InQuery(AssignQuery(q, first.1).0), AssignQuery(q, first.1).1);
  }

  lemma {:induction false} NumberAll(es: seq<Expr>, n: nat)
    ensures Numbered(InAll(es), n, InAll(AssignAll(es, n).0), AssignAll(es, n).1)
    decreases es, 0
  {
    if es != [] {
      var init, last := es[..|es| - 1], es[|es| - 1];
      NumberAll(init, n);
      var a := AssignAll(init, n);
      NumberExpr(last, a.1);
      var b := AssignExpr(last, a.1);
      assert InEach(es) == InEach(init) + [InExpr(last)] && InEach(a.0 + [b.0]) == InEach(a.0) + [InExpr(b.0)];
      FlattenAppend(InEach(init), InExpr(last));
      FlattenAppend(InEach(a.0), InExpr(b.0));
      NumberedBoth(InAll(init), InExpr(last), n, InAll(a.0), a.1, InExpr(b.0), b.1);
    }
  }

  lemma {:induction false} NumberOption(e: Option<Expr>, n: nat)
    ensures Numbered(InOption(e), n, InOption(AssignOption(e, n).0), AssignOption(e, n).1)
    decreases e, 0
  {
    if e.Some? {
      NumberExpr(e.value, n);
    }
  }

  lemma {:induction false} NumberSource(s: TableSource, n: nat)
    ensures Numbered(InSource(s), n, InSource(AssignSource(s, n).0), AssignSource(s, n).1)
    decreases s, 0
  {
    if s.Derived? {
      NumberQuery(s.query, n);
    }
  }

  lemma {:induction false} NumberCte(cte: Cte, n: nat)
    ensures Numbered(InCte(cte), n, InCte(AssignCte(cte, n).0), AssignCte(cte, n).1)
    decreases cte, 0
  {
    NumberQuery(cte.query, n);
  }

  lemma {:induction false} NumberItem(item: SelectItem, n: nat)
    ensures Numbered(InItem(item), n, InItem(AssignItem(item, n).0), AssignItem(item, n).1)
    decreases item, 0
  {
    if item.Item? {
      NumberExpr(item.expr, n);
    }
  }

  lemma {:induction false} NumberJoin(join: Join, n: nat)
    ensures Numbered(InJoin(join), n, InJoin(AssignJoin(join, n).0), AssignJoin(join, n).1)
    decreases join, 0
  {
    NumberSource(join.source, n);
    var source := AssignSource(join.source, n);
    NumberOption(join.on, source.1);
    var on := AssignOption(join.on, source.1);
    NumberedBoth(InSource(join.source), InOption(join.on), n, InSource(source.0), source.1, InOption(on.0), on.1);
  }

  lemma {:induction false} NumberOrder(order: OrderBy, n: nat)
    ensures Numbered(InOrder(order), n, InOrder(AssignOrder(order, n).0), AssignOrder(order, n).1)
    decreases order, 0
  {
    NumberExpr(order.expr, n);
  }

  lemma {:induction false} NumberCtes(ctes: seq<Cte>, n: nat)
    ensures Numbered(Flatten(InCtes(ctes)), n, Flatten(InCtes(AssignCtes(ctes, n).0)), AssignCtes(ctes, n).1)
    decreases ctes, 1
  {
    if ctes != [] {
      var init, last := ctes[..|ctes| - 1], ctes[|ctes| - 1];
      NumberCtes(init, n);
      var a := AssignCtes(init, n);
      NumberCte(last, a.1);
      var b := AssignCte(last, a.1);
      assert InCtes(ctes) == InCtes(init) + [InCte(last)] && InCtes(a.0 + [b.0]) == InCtes(a.0) + [InCte(b.0)];
      FlattenAppend(InCtes(init), InCte(last));
      FlattenAppend(InCtes(a.0), InCte(b.0));
      NumberedBoth(Flatten(InCtes(init)), InCte(last), n, Flatten(InCtes(a.0)), a.1, InCte(b.0), b.1);
    }
  }

  lemma {:induction false} NumberItems(items: seq<SelectItem>, n: nat)
    ensures Numbered(Flatten(InItems(items)), n, Flatten(InItems(AssignItems(items, n).0)), AssignItems(items, n).1)
    decreases items, 1
  {
    if items != [] {
      var init, last := items[..|items| - 1], items[|items| - 1];
      NumberItems(init, n);
      var a := AssignItems(init, n);
      NumberItem(last, a.1);
      var b := AssignItem(last, a.1);
      assert InItems(items) == InItems(init) + [InItem(last)] && InItems(a.0 + [b.0]) == InItems(a.0) + [InItem(b.0)];
      FlattenAppend(InItems(init), InItem(last));
      FlattenAppend(InItems(a.0), InItem(b.0));
      NumberedBoth(Flatten(InItems(init)), InItem(last), n, Flatten(InItems(a.0)), a.1, InItem(b.0), b.1);
    }
  }

  lemma {:induction false} NumberJoins(joins: seq<Join>, n: nat)
    ensures Numbered(Flatten(InJoins(joins)), n, Flatten(InJoins(AssignJoins(joins, n).0)), AssignJoins(joins, n).1)
    decreases joins, 1
  {
    if joins != [] {
      var init, last := joins[..|joins| - 1], joins[|joins| - 1];
      NumberJoins(init, n);
      var a := AssignJoins(init, n);
      NumberJoin(last, a.1);
      var b := AssignJoin(last, a.1);
      assert InJoins(joins) == InJoins(init) + [InJoin(last)] && InJoins(a.0 + [b.0]) == InJoins(a.0) + [InJoin(b.0)];
      FlattenAppend(InJoins(init), InJoin(last));
      FlattenAppend(InJoins(a.0), InJoin(b.0));
      NumberedBoth(Flatten(InJoins(init)), InJoin(last), n, Flatten(InJoins(a.0)), a.1, InJoin(b.0), b.1);
    }
  }

  lemma {:induction false} NumberOrders(orders: seq<OrderBy>, n: nat)
    ensures Numbered(Flatten(InOrders(orders)), n, Flatten(InOrders(AssignOrders(orders, n).0)), AssignOrders(orders, n).1)
    decreases orders, 1
  {
    if orders != [] {
      var init, last := orders[..|orders| - 1], orders[|orders| - 1];
      NumberOrders(init, n);
      var a := AssignOrders(init, n);
      NumberOrder(last, a.1);
      var b := AssignOrder(last, a.1);
      assert InOrders(orders) == InOrders(init) + [InOrder(last)] && InOrders(a.0 + [b.0]) == InOrders(a.0) + [InOrder(b.0)];
      FlattenAppend(InOrders(init), InOrder(last));
      FlattenAppend(InOrders(a.0), InOrder(b.0));
      NumberedBoth(Flatten(InOrders(init)), InOrder(last), n, Flatten(InOrders(a.0)), a.1, InOrder(b.0), b.1);
    }
  }

  function InFrom(s: Option<TableSource>): seq<nat> {
    if s.Some? then InSource(s.value) else []
  }

  lemma {:induction false} NumberFrom(s: Option<TableSource>, n: nat)
    ensures Numbered(InFrom(s), n, InFrom(AssignFrom(s, n).0), AssignFrom(s, n).1)
    decreases s, 0
  {
    if s.Some? {
      NumberSource(s.value, n);
    }
  }

  /** Parts that are numbered one after the other are numbered as a whole. */
  lemma {:induction false} NumberedParts(parts: seq<seq<nat>>, numbered: seq<seq<nat>>, ends: seq<nat>)
    requires |numbered| == |parts| && |ends| == |parts| + 1
    requires forall k :: 0 <= k < |parts| ==> Numbered(parts[k], ends[k], numbered[k], ends[k + 1])
    ensures Numbered(Flatten(parts), ends[0], Flatten(numbered), ends[|parts|])
    decreases parts
  {
    if parts != [] {
      assert forall k :: 0 <= k < |parts| - 1 ==> Numbered(parts[1..][k], ends[1..][k], numbered[1..][k], ends[1..][k + 1]);
      NumberedParts(parts[1..], numbered[1..], ends[1..]);
      NumberedBoth(parts[0], Flatten(parts[1..]), ends[0], numbered[0], ends[1], Flatten(numbered[1..]), ends[|parts|]);
    }
  }

  /** assign_parameters numbers the placeholders of a query from n on, exactly once each. */
  lemma {:induction false} NumberQuery(q: Query, n: nat)
    ensures Numbered(InQuery(q), n, InQuery(AssignQuery(q, n).0), AssignQuery(q, n).1)
    decreases q, 0
  {
    var ctes := AssignCtes(q.ctes, n);
    var items := AssignItems(q.projection, ctes.1);
    var from := AssignFrom(q.from, items.1);
    var joins := AssignJoins(q.joins, from.1);
    var selection := AssignOption(q.selection, joins.1);
    var groupBy := AssignAll(q.groupBy, selection.1);
    var having := AssignOption(q.having, groupBy.1);
    var orderBy := AssignOrders(q.orderBy, having.1);
    NumberCtes(q.ctes, n);
    NumberItems(q.projection, ctes.1);
    NumberFrom(q.from, items.1);
    NumberJoins(q.joins, from.1);
    NumberOption(q.selection, joins.1);
    NumberAll(q.groupBy, selection.1);
    NumberOption(q.having, groupBy.1);
    NumberOrders(q.orderBy, having.1);
    NumberedParts(QueryParts(q), QueryParts(AssignQuery(q, n).0),
                  [n, ctes.1, items.1, from.1, joins.1, selection.1, groupBy.1, having.1, orderBy.1]);
  }
}
