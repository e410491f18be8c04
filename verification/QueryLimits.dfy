/** Queries whose indexed execution differs from full scans, where the hypotheses about probes do not hold
    (src/sql/executor.rs). */
module QueryLimits {
  import opened Wrappers
  import opened Ascii
  import opened Values
  import opened Syntax
  import opened Relations
  import opened Tables
  import opened Evaluator
  import opened JoinSplit
  import opened ProbedJoins
  import opened Limits

  // ------------------------------------------------------------------------- two constants

  /** SELECT x AS a, y AS b */
  function Constants(x: int, a: string, y: int, b: string): Query {
    Query([], false, [Item(Literal(Integer(x)), Some(a)), Item(Literal(Integer(y)), Some(b))], None, [], None, [], None, [], None)
  }

  /** A query that only projects. */
  predicate OnlyProjects(q: Query) {
    !IsAggregateQuery(q) && !q.distinct && q.orderBy == [] && q.limit == None
  }

  lemma ProjectedOnly(db: Db, q: Query, source: Relation, ctes: CteEnv)
    requires OnlyProjects(q)
    ensures FinishQuery(db, q, source, ctes) == ProjectQuery(db, q.projection, source, ctes)
  {
    assert !OrderBeforeProjection(q, source.columns);
    assert SortRelation(db, q.orderBy, source, ctes, false) == source;
    var projected := Projected(db, q, source, ctes);
    assert projected == ProjectQuery(db, q.projection, source, ctes);
    if projected.Ok? {
      assert SortRelation(db, q.orderBy, Distinct(projected.value, false), ctes, false) == projected.value;
    }
  }

  lemma FlattenPair(a: Row, b: Row)
    ensures Flatten([a, b]) == a + b
  {
    var none: seq<Row> := [];
    assert [a, b][1..] == [b] && [b][1..] == none && Flatten(none) == [];
    assert Flatten([b]) == b + [] && b + [] == b;
  }

  lemma ConstantCells(db: Db, x: int, a: string, y: int, b: string, ctes: CteEnv)
    ensures ProjectRow(db, Constants(x, a, y, b).projection, [], [], None, ctes) == Ok([Integer(x), Integer(y)])
  {
    var items := Constants(x, a, y, b).projection;
    assert ItemCells(db, items[0], [], [], None, ctes) == Ok([Integer(x)]);
    assert ItemCells(db, items[1], [], [], None, ctes) == Ok([Integer(y)]);
    var cells := ItemCellsEach(db, items, [], [], None, ctes);
    assert Collect(cells).Ok? && Collect(cells).value == [[Integer(x)], [Integer(y)]];
    FlattenPair([Integer(x)], [Integer(y)]);
    assert [Integer(x)] + [Integer(y)] == [Integer(x), Integer(y)];
  }

  lemma ConstantsGive(db: Db, x: int, a: string, y: int, b: string, ctes: CteEnv)
    ensures ExecQuery(db, Constants(x, a, y, b), ctes)
         == Ok(Relation([BoundColumn("", a), BoundColumn("", b)], [[Integer(x), Integer(y)]]))
  {
    var q := Constants(x, a, y, b);
    var source := Relation([], [[]]);
    assert ExecJoins(db, [], source, ctes) == Ok(source) && FilterRelation(db, None, source, ctes) == Ok(source);
    assert JoinedRows(db, q, ctes) == Ok(source);
    assert SourceRows(db, q, ctes) == Ok(source);
    ConstantCells(db, x, a, y, b, ctes);
    var rows := ProjectEach(db, q.projection, [], [[]], ctes);
    assert Collect(rows).Ok? && Collect(rows).value == [[Integer(x), Integer(y)]];
    ConstantColumns(q.projection, x, a, y, b);
    ProjectedOnly(db, q, source, ctes);
  }

  lemma ConstantColumns(items: seq<SelectItem>, x: int, a: string, y: int, b: string)
    requires items == Constants(x, a, y, b).projection
    ensures ProjectionColumns(items, []) == Ok([BoundColumn("", a), BoundColumn("", b)])
  {
    assert items[1..][1..] == [] && ProjectionColumns([], []) == Ok([]);
    assert items[1..][0] == items[1] && ItemColumns(items[1], []) == Ok([BoundColumn("", b)]);
    assert [BoundColumn("", b)] + [] == [BoundColumn("", b)];
    assert ProjectionColumns(items[1..], []) == Ok([BoundColumn("", b)]);
    assert ItemColumns(items[0], []) == Ok([BoundColumn("", a)]);
    assert [BoundColumn("", a)] + [BoundColumn("", b)] == [BoundColumn("", a), BoundColumn("", b)];
  }

  /** A derived table of two constants. */
  function TwoConstants(x: int, a: string, y: int, b: string): TableSource {
    Derived(Constants(x, a, y, b), "u")
  }

  lemma TwoConstantsGive(db: Db, x: int, a: string, y: int, b: string, ctes: CteEnv)
    ensures SourceRelation(db, TwoConstants(x, a, y, b), ctes, None)
         == Ok(Relation([BoundColumn("u", a), BoundColumn("u", b)], [[Integer(x), Integer(y)]]))
  {
    ConstantsGive(db, x, a, y, b, ctes);
    assert Requalify([BoundColumn("", a), BoundColumn("", b)], "u") == [BoundColumn("u", a), BoundColumn("u", b)];
  }

  // --------------------------------------------------------------------------- RIGHT JOIN

  const ON_KEY := Binary(Column(Some("t"), "id"), Compare(Eq), Column(Some("u"), "k"))

  const T_IS_FIVE := Binary(Column(Some("t"), "id"), Compare(Eq), Literal(Integer(5)))

  const U_DIVIDES := Binary(Binary(Literal(Integer(1)), Arith(Over), Column(Some("u"), "x")), Compare(Gt), Literal(Integer(0)))

  const T_AND_U := Binary(T_IS_FIVE, And, U_DIVIDES)

  const JOINED: seq<BoundColumn> := [BoundColumn("t", "id"), BoundColumn("u", "k"), BoundColumn("u", "x")]

  /** SELECT 1 FROM t RIGHT JOIN (SELECT 1 AS k, 0 AS x) u ON t.id = u.k WHERE t.id = 5 AND 1 / u.x > 0 */
  function RightJoined(): Query {
    Query([], false, [Item(Literal(Integer(1)), None)], Some(Named("t", None)),
          [Join(Right, TwoConstants(1, "k", 0, "x"), Some(ON_KEY))], Some(T_AND_U), [], None, [], None)
  }

  lemma JoinedColumns()
    ensures ResolveColumn(JOINED, Some("t"), "id") == Ok(0)
    ensures ResolveColumn(JOINED, Some("u"), "k") == Ok(1)
    ensures ResolveColumn(JOINED, Some("u"), "x") == Ok(2)
  {
    assert Lower("t") == "t" && Lower("u") == "u" && Lower("id") == "id" && Lower("k") == "k" && Lower("x") == "x";
    UniqueColumn(JOINED, Some("t"), "id", 0);
    UniqueColumn(JOINED, Some("u"), "k", 1);
    UniqueColumn(JOINED, Some("u"), "x", 2);
  }

  // ------------------------------------------------- evaluating step by step

  lemma ColumnIs(db: Db, e: Expr, columns: seq<BoundColumn>, row: Row, at: nat, ctes: CteEnv)
    requires e.Column? && ResolveColumn(columns, e.qualifier, e.name) == Ok(at) && at < |row|
    ensures EvalExpr(db, e, columns, row, None, ctes) == Ok(row[at])
  {
  }

  lemma ComparedIs(db: Db, e: Expr, columns: seq<BoundColumn>, row: Row, x: Value, ctes: CteEnv)
    requires e.Binary? && e.op.Compare? && e.right.Literal?
    requires EvalExpr(db, e.left, columns, row, None, ctes) == Ok(x)
    ensures EvalExpr(db, e, columns, row, None, ctes) == Ok(TruthValue(CompareSql(x, e.right.value, e.op.comparison)))
  {
    assert EvalExpr(db, e.right, columns, row, None, ctes) == Ok(e.right.value);
  }

  /** A failing operand on the left, or on the right of AND behind anything but FALSE. */
  lemma FailureSpreads(db: Db, e: Expr, columns: seq<BoundColumn>, row: Row, ctes: CteEnv)
    requires e.Binary?
    ensures EvalExpr(db, e.left, columns, row, None, ctes) == Err ==> EvalExpr(db, e, columns, row, None, ctes) == Err
    ensures e.op == And && EvalExpr(db, e.right, columns, row, None, ctes) == Err && EvalExpr(db, e.left, columns, row, None, ctes) == Ok(Null) ==> EvalExpr(db, e, columns, row, None, ctes) == Err
    ensures e.op == And && EvalExpr(db, e.left, columns, row, None, ctes) == Ok(Boolean(false)) ==> EvalExpr(db, e, columns, row, None, ctes) == Ok(Boolean(false))
  {
  }

  lemma DivisionByZeroFails(db: Db, e: Expr, columns: seq<BoundColumn>, row: Row, ctes: CteEnv)
    requires e.Binary? && e.op == Arith(Over) && EvalExpr(db, e.right, columns, row, None, ctes) == Ok(Integer(0))
    ensures EvalExpr(db, e, columns, row, None, ctes) == Err
  {
    assert BinaryOf(Arith(Over), EvalExpr(db, e.left, columns, row, None, ctes), Ok(Integer(0))) == Err;
  }

  /** The full scan stops at FALSE. */
  lemma MatchedIsFalse(db: Db, e: Expr, columns: seq<BoundColumn>, row: Row, ctes: CteEnv)
    requires e == T_AND_U && columns == JOINED && row == [Integer(1), Integer(1), Integer(0)]
    ensures EvalExpr(db, e, columns, row, None, ctes) == Ok(Boolean(false))
  {
    JoinedColumns();
    ColumnIs(db, e.left.left, columns, row, 0, ctes);
    ComparedIs(db, e.left, columns, row, row[0], ctes);
    FailureSpreads(db, e, columns, row, ctes);
  }

  /** On the padded row the first condition is UNKNOWN, and the second fails. */
  lemma PaddedFails(db: Db, e: Expr, columns: seq<BoundColumn>, row: Row, ctes: CteEnv)
    requires e == T_AND_U && columns == JOINED && row == [Null, Integer(1), Integer(0)]
    ensures EvalExpr(db, e, columns, row, None, ctes) == Err
  {
    JoinedColumns();
    ColumnIs(db, e.left.left, columns, row, 0, ctes);
    ComparedIs(db, e.left, columns, row, row[0], ctes);
    ColumnIs(db, e.right.left.right, columns, row, 2, ctes);
    DivisionByZeroFails(db, e.right.left, columns, row, ctes);
    FailureSpreads(db, e.right, columns, row, ctes);
    FailureSpreads(db, e, columns, row, ctes);
  }

  const U_COLUMNS: seq<BoundColumn> := [BoundColumn("u", "k"), BoundColumn("u", "x")]

  lemma KeysJoin(on: Expr, columns: seq<BoundColumn>, others: seq<BoundColumn>)
    requires on == ON_KEY && columns == [BoundColumn("t", "id")] && others == U_COLUMNS
    ensures HashJoinIndices(on, columns, others) == Some((0, 0))
  {
    assert Lower("t") == "t" && Lower("u") == "u" && Lower("id") == "id" && Lower("k") == "k" && Lower("x") == "x";
    UniqueColumn(columns, Some("t"), "id", 0);
    UniqueColumn(others, Some("u"), "k", 0);
  }

  /** A join of a hashed column pair with a source that is known. */
  lemma HashedJoinIs(db: Db, join: Join, left: Relation, right: Relation, rows: seq<Row>, ctes: CteEnv)
    requires join.on.Some? && HashJoinIndices(join.on.value, left.columns, right.columns) == Some((0, 0))
    requires SourceRelation(db, join.source, ctes, None) == Ok(right)
    requires rows == JoinRows(left.rows, right.rows, ColumnEquality(left.rows, right.rows, 0, 0), join.joinType, |left.columns|, |right.columns|)
    ensures ExecJoins(db, [join], left, ctes) == Ok(Relation(left.columns + right.columns, rows))
  {
    var joined := Ok(Relation(left.columns + right.columns, rows));
    assert JoinVerdicts(db, join.on, left, right, ctes) == Ok(ColumnEquality(left.rows, right.rows, 0, 0));
    assert JoinRelations(db, left, right, join, ctes) == joined;
    assert ExecJoin(db, join, left, ctes) == joined;
    assert [join][1..] == [] && ExecJoins(db, [], joined.value, ctes) == joined;
  }

  /** The join over the one row of t, and over no row. */
  lemma RightJoins(db: Db, rows: seq<Row>, row: Row, ctes: CteEnv)
    requires rows == [[Integer(1)]] || rows == []
    requires row == [if rows == [] then Null else Integer(1), Integer(1), Integer(0)]
    ensures ExecJoins(db, RightJoined().joins, Relation([BoundColumn("t", "id")], rows), ctes) == Ok(Relation(JOINED, [row]))
  {
    var left, right := Relation([BoundColumn("t", "id")], rows), Relation(U_COLUMNS, [[Integer(1), Integer(0)]]);
    TwoConstantsGive(db, 1, "k", 0, "x", ctes);
    KeysJoin(ON_KEY, left.columns, right.columns);
    OneRightRow(rows, right.rows, ColumnEquality(rows, right.rows, 0, 0), row);
    HashedJoinIs(db, RightJoined().joins[0], left, right, [row], ctes);
    assert left.columns + right.columns == JOINED;
  }

  lemma OneRightRow(rows: seq<Row>, right: seq<Row>, verdicts: seq<seq<bool>>, row: Row)
    requires rows == [[Integer(1)]] || rows == []
    requires row == [if rows == [] then Null else Integer(1), Integer(1), Integer(0)]
    requires right == [[Integer(1), Integer(0)]] && verdicts == ColumnEquality(rows, right, 0, 0)
    ensures JoinRows(rows, right, verdicts, Right, 1, 2) == [row]
  {
    assert right[..0] == [] && Nulls(1) == [Null];
    assert RightOutput(right, verdicts, 1, 0) == [];
    if rows != [] {
      assert verdicts[0][0] && RightMatched(verdicts, 0);
      assert verdicts[0][..0] == [] && JoinedWith(rows[0], [], []) == [];
      assert rows[0] + right[0] == row;
      assert JoinedWith(rows[0], right, verdicts[0]) == [] + [rows[0] + right[0]];
      var parts := LeftParts(rows, right, verdicts, Right, 2);
      assert parts[1..] == [] && Flatten(parts) == parts[0] + [];
      assert RightOutput(right, verdicts, 1, 1) == [] + [];
    } else {
      assert !RightMatched(verdicts, 0) && [Null] + right[0] == row;
      assert LeftParts(rows, right, verdicts, Right, 2) == [];
      assert RightOutput(right, verdicts, 1, 1) == [] + [[Null] + right[0]];
    }
  }

  /** t, through its index and without. */
  function Stored(): Db {
    map["t" := OneRowTable()]
  }

  lemma FullScanOfOne(t: Table, selection: Option<Expr>)
    requires t == Meaning(OneRowTable())
    ensures ScanRows(t, selection) == [[Integer(1)]]
  {
    assert ScanPrefix(t, None, 0) == [] && ScanPrefix(t, None, 1) == [] + [t.rows[0]];
  }

  /** When the only probe is for 5, nothing is scanned. */
  lemma ProbeOfFive(selection: Expr, qualifier: Option<string>)
    requires CollectIndexPredicates(selection) == [IndexPredicate(qualifier, "id", Eq, Integer(5))]
    ensures ScanRows(OneRowTable(), Some(selection)) == []
  {
    var t := OneRowTable();
    ProbeForFive(t, qualifier);
    assert CandidateRowIds(t, Some(selection)) == Some({});
    assert !IsCandidate(t, Some({}), 0) && ScanPrefix(t, Some({}), 0) == [];
  }

  /** A query from t joined with something: its rows are those of the joins and WHERE over the scan of t. */
  lemma RowsFromT(db: Db, q: Query, ctes: CteEnv)
    requires "t" in db && "t" !in ctes && q.from == Some(Named("t", None)) && db["t"].schema == OneRowTable().schema
    ensures SourceRows(db, q, ctes)
         == ConditionsOver(db, q.joins, q.selection, Relation([BoundColumn("t", "id")], ScanRows(db["t"], q.selection)), ctes)
  {
    var source := Relation([BoundColumn("t", "id")], ScanRows(db["t"], q.selection));
    assert TableColumns(db["t"], "t") == [BoundColumn("t", "id")];
    assert SourceRelation(db, Named("t", None), ctes, q.selection) == Ok(source);
    assert FromRelation(db, q.from, ctes, q.selection) == Ok(source);
    assert JoinedRows(db, q, ctes) == ExecJoins(db, q.joins, source, ctes);
  }

  lemma FilteredOne(db: Db, e: Expr, columns: seq<BoundColumn>, row: Row, ctes: CteEnv)
    ensures var v := EvalExpr(db, e, columns, row, None, ctes);
            FilterRelation(db, Some(e), Relation(columns, [row]), ctes)
            == if v.Err? then Err else Ok(Relation(columns, if Truth(v.value) == True then [row] else []))
  {
    FilterIsRowByRow(db, e, Relation(columns, [row]), ctes);
    assert [row][0] == row && row in [row];
    KeepUniform([row], PassesOn(db, e, columns, ctes), PassesOn(db, e, columns, ctes)(row));
  }

  /** The joins leave one row, which WHERE keeps or not, or cannot decide. */
  lemma OneRowDecided(db: Db, q: Query, rows: seq<Row>, columns: seq<BoundColumn>, row: Row, v: Result<Value>, ctes: CteEnv)
    requires "t" in db && "t" !in ctes && q.from == Some(Named("t", None)) && db["t"].schema == OneRowTable().schema
    requires q.selection.Some? && ScanRows(db["t"], q.selection) == rows
    requires ExecJoins(db, q.joins, Relation([BoundColumn("t", "id")], rows), ctes) == Ok(Relation(columns, [row]))
    requires EvalExpr(db, q.selection.value, columns, row, None, ctes) == v
    ensures SourceRows(db, q, ctes) == if v.Err? then Err else Ok(Relation(columns, if Truth(v.value) == True then [row] else []))
  {
    RowsFromT(db, q, ctes);
    FilteredOne(db, q.selection.value, columns, row, ctes);
  }

  lemma RightJoinMatches(db: Db, q: Query) returns (rows: seq<Row>, columns: seq<BoundColumn>, row: Row)
    requires "t" in db && db["t"] == Meaning(OneRowTable()) && q == RightJoined()
    ensures columns == JOINED && ScanRows(db["t"], q.selection) == rows
    ensures ExecJoins(db, q.joins, Relation([BoundColumn("t", "id")], rows), map[]) == Ok(Relation(columns, [row]))
    ensures EvalExpr(db, q.selection.value, columns, row, None, map[]) == Ok(Boolean(false))
  {
    rows, columns, row := [[Integer(1)]], JOINED, [Integer(1), Integer(1), Integer(0)];
    FullScanOfOne(db["t"], q.selection);
    RightJoins(db, rows, row, map[]);
    MatchedIsFalse(db, q.selection.value, columns, row, map[]);
  }

  lemma OneRowDropped(db: Db, q: Query, rows: seq<Row>, columns: seq<BoundColumn>, row: Row)
    requires "t" in db && db["t"] == Meaning(OneRowTable()) && q.from == Some(Named("t", None)) && q.selection.Some?
    requires ScanRows(db["t"], q.selection) == rows
    requires ExecJoins(db, q.joins, Relation([BoundColumn("t", "id")], rows), map[]) == Ok(Relation(columns, [row]))
    requires EvalExpr(db, q.selection.value, columns, row, None, map[]) == Ok(Boolean(false))
    ensures SourceRows(db, q, map[]) == Ok(Relation(columns, []))
  {
    OneRowDecided(db, q, rows, columns, row, Ok(Boolean(false)), map[]);
  }

  lemma RightJoinFullScan(db: Db, q: Query)
    requires "t" in db && db["t"] == Meaning(OneRowTable()) && q == RightJoined()
    ensures SourceRows(db, q, map[]) == Ok(Relation(JOINED, []))
  {
    var rows, columns, row := RightJoinMatches(db, q);
    OneRowDropped(db, q, rows, columns, row);
  }

  lemma RightJoinProbed(db: Db, q: Query, columns: seq<BoundColumn>, row: Row)
    requires "t" in db && db["t"] == OneRowTable() && q == RightJoined()
    requires columns == JOINED && row == [Null, Integer(1), Integer(0)]
    ensures SourceRows(db, q, map[]) == Err
  {
    assert CollectIndexPredicates(T_IS_FIVE) == [IndexPredicate(Some("t"), "id", Eq, Integer(5))] && CollectIndexPredicates(U_DIVIDES) == [];
    assert [IndexPredicate(Some("t"), "id", Eq, Integer(5))] + [] == [IndexPredicate(Some("t"), "id", Eq, Integer(5))];
    ProbeOfFive(T_AND_U, Some("t"));
    RightJoins(db, [], row, map[]);
    PaddedFails(db, q.selection.value, columns, row, map[]);
    OneRowDecided(db, q, [], columns, row, Err, map[]);
  }

  lemma NoRowsProjected(db: Db, q: Query, columns: seq<BoundColumn>)
    requires OnlyProjects(q) && ProjectionColumns(q.projection, columns).Ok?
    ensures FinishQuery(db, q, Relation(columns, []), map[]) == Ok(Relation(ProjectionColumns(q.projection, columns).value, []))
  {
    ProjectedOnly(db, q, Relation(columns, []), map[]);
    assert ProjectEach(db, q.projection, columns, [], map[]) == [];
  }

  lemma OneColumn(columns: seq<BoundColumn>)
    ensures ProjectionColumns([Item(Literal(Integer(1)), None)], columns) == Ok([BoundColumn("", ExpressionName(Literal(Integer(1))))])
  {
    var items := [Item(Literal(Integer(1)), None)];
    assert items[1..] == [] && ProjectionColumns([], columns) == Ok([]);
    assert ItemColumns(items[0], columns) == Ok([BoundColumn("", ExpressionName(Literal(Integer(1))))]);
    assert [BoundColumn("", ExpressionName(Literal(Integer(1))))] + [] == [BoundColumn("", ExpressionName(Literal(Integer(1))))];
  }

  /** A RIGHT join pads the partner of a row that the probe skipped, and WHERE then fails on it: the query
      succeeds on full scans and fails through the index. */
  lemma RightJoinCanFail(db: Db)
    requires db == Stored()
    ensures ExecQuery(MeaningOf(db), RightJoined(), map[]).Ok? && ExecQuery(MeaningOf(db), RightJoined(), map[]).value.rows == []
    ensures ExecQuery(db, RightJoined(), map[]) == Err
  {
    RightJoinFullScan(MeaningOf(db), RightJoined());
    RightJoinProbed(db, RightJoined(), JOINED, [Null, Integer(1), Integer(0)]);
    OneColumn(JOINED);
    NoRowsProjected(MeaningOf(db), RightJoined(), JOINED);
    assert BindCtes(db, [], map[]) == Ok(map[]) && BindCtes(MeaningOf(db), [], map[]) == Ok(map[]);
  }

  // ------------------------------------------------------------------------ qualifiers

  /** SELECT 1 FROM t CROSS JOIN (SELECT 5 AS id, 0 AS x) u WHERE u.id = 5 */
  function AboutTheOther(): Query {
    Query([], false, [Item(Literal(Integer(1)), None)], Some(Named("t", None)),
          [Join(Cross, TwoConstants(5, "id", 0, "x"), None)], Some(ABOUT_U), [], None, [], None)
  }

  const CROSSED: seq<BoundColumn> := [BoundColumn("t", "id"), BoundColumn("u", "id"), BoundColumn("u", "x")]

  lemma CrossJoinIs(db: Db, join: Join, left: Relation, right: Relation, ctes: CteEnv)
    requires join.on == None && join.joinType == Cross && SourceRelation(db, join.source, ctes, None) == Ok(right)
    requires |right.rows| == 1 && |left.rows| <= 1
    ensures ExecJoins(db, [join], left, ctes)
         == Ok(Relation(left.columns + right.columns, if left.rows == [] then [] else [left.rows[0] + right.rows[0]]))
  {
    var verdicts := VerdictRows(db, None, left.columns + right.columns, left.rows, right.rows, ctes);
    if left.rows == [] {
      assert Collect(verdicts) == Ok([]);
    } else {
      var pairs := PairVerdicts(db, None, left.columns + right.columns, left.rows[0], right.rows, ctes);
      assert Collect(pairs).Ok? && Collect(pairs).value == [true];
      assert Collect(verdicts).Ok? && Collect(verdicts).value == [[true]];
    }
    var joined := JoinRows(left.rows, right.rows, Collect(verdicts).value, Cross, |left.columns|, |right.columns|);
    CrossRows(left.rows, right.rows, Collect(verdicts).value, |left.columns|, |right.columns|);
    assert JoinVerdicts(db, None, left, right, ctes) == Collect(verdicts);
    assert JoinRelations(db, left, right, join, ctes) == Ok(Relation(left.columns + right.columns, joined));
    assert ExecJoin(db, join, left, ctes) == Ok(Relation(left.columns + right.columns, joined));
    assert [join][1..] == [];
  }

  lemma CrossRows(left: seq<Row>, right: seq<Row>, verdicts: seq<seq<bool>>, leftWidth: nat, width: nat)
    requires |left| <= 1 && |right| == 1 && verdicts == if left == [] then [] else [[true]]
    ensures JoinRows(left, right, verdicts, Cross, leftWidth, width) == if left == [] then [] else [left[0] + right[0]]
  {
    var parts := LeftParts(left, right, verdicts, Cross, width);
    if left == [] {
      assert parts == [];
    } else {
      assert right[..0] == [] && verdicts[0][..0] == [] && JoinedWith(left[0], [], []) == [];
      assert JoinedWith(left[0], right, verdicts[0]) == [] + [left[0] + right[0]];
      assert parts[1..] == [] && Flatten(parts) == parts[0] + [];
    }
  }

  lemma AboutUIsTrue(db: Db, e: Expr, columns: seq<BoundColumn>, row: Row, ctes: CteEnv)
    requires e == ABOUT_U && columns == CROSSED && row == [Integer(1), Integer(5), Integer(0)]
    ensures EvalExpr(db, e, columns, row, None, ctes) == Ok(Boolean(true))
  {
    assert Lower("id") == "id" && Lower("t") == "t" && Lower("u") == "u" && Lower("x") == "x";
    UniqueColumn(columns, Some("u"), "id", 1);
    ColumnIs(db, e.left, columns, row, 1, ctes);
    ComparedIs(db, e, columns, row, row[1], ctes);
  }

  lemma CrossedRows(db: Db, join: Join, rows: seq<Row>, row: Row)
    requires join == AboutTheOther().joins[0] && (rows == [[Integer(1)]] || rows == []) && row == [Integer(1), Integer(5), Integer(0)]
    ensures ExecJoins(db, [join], Relation([BoundColumn("t", "id")], rows), map[]) == Ok(Relation(CROSSED, if rows == [] then [] else [row]))
  {
    var left, right := Relation([BoundColumn("t", "id")], rows), Relation([BoundColumn("u", "id"), BoundColumn("u", "x")], [[Integer(5), Integer(0)]]);
    TwoConstantsGive(db, 5, "id", 0, "x", map[]);
    CrossedWith(db, join, left, right, row);
  }

  lemma CrossedWith(db: Db, join: Join, left: Relation, right: Relation, row: Row)
    requires join.on == None && join.joinType == Cross && SourceRelation(db, join.source, map[], None) == Ok(right)
    requires left.columns + right.columns == CROSSED && |left.rows| <= 1 && |right.rows| == 1
    requires left.rows != [] ==> left.rows[0] + right.rows[0] == row
    ensures ExecJoins(db, [join], left, map[]) == Ok(Relation(CROSSED, if left.rows == [] then [] else [row]))
  {
    CrossJoinIs(db, join, left, right, map[]);
  }

  /** WHERE is TRUE on all joined rows. */
  lemma AllKept(db: Db, q: Query, rows: seq<Row>, columns: seq<BoundColumn>, joined: seq<Row>)
    requires "t" in db && db["t"].schema == OneRowTable().schema && q.from == Some(Named("t", None)) && q.selection.Some?
    requires ScanRows(db["t"], q.selection) == rows
    requires ExecJoins(db, q.joins, Relation([BoundColumn("t", "id")], rows), map[]) == Ok(Relation(columns, joined))
    requires forall i :: 0 <= i < |joined| ==> EvalExpr(db, q.selection.value, columns, joined[i], None, map[]) == Ok(Boolean(true))
    ensures SourceRows(db, q, map[]) == Ok(Relation(columns, joined))
  {
    RowsFromT(db, q, map[]);
    FilterKeepsAll(db, q.selection.value, columns, joined);
  }

  lemma FilterKeepsAll(db: Db, e: Expr, columns: seq<BoundColumn>, rows: seq<Row>)
    requires forall i :: 0 <= i < |rows| ==> EvalExpr(db, e, columns, rows[i], None, map[]) == Ok(Boolean(true))
    ensures FilterRelation(db, Some(e), Relation(columns, rows), map[]) == Ok(Relation(columns, rows))
  {
    var passes := PassesOn(db, e, columns, map[]);
    forall row | row in rows ensures EvalExpr(db, e, columns, row, None, map[]).Ok? && passes(row) {
      var i :| 0 <= i < |rows| && rows[i] == row;
      assert EvalExpr(db, e, columns, rows[i], None, map[]) == Ok(Boolean(true));
    }
    FilterIsRowByRow(db, e, Relation(columns, rows), map[]);
    KeepUniform(rows, passes, true);
  }

  lemma OnesProjected(db: Db, q: Query, columns: seq<BoundColumn>, rows: seq<Row>)
    requires OnlyProjects(q) && q.projection == [Item(Literal(Integer(1)), None)]
    ensures FinishQuery(db, q, Relation(columns, rows), map[]).Ok?
    ensures |FinishQuery(db, q, Relation(columns, rows), map[]).value.rows| == |rows|
  {
    ProjectedOnly(db, q, Relation(columns, rows), map[]);
    OneColumn(columns);
    var each := ProjectEach(db, q.projection, columns, rows, map[]);
    forall i | 0 <= i < |rows| ensures each[i].Ok? {
      var cells := ItemCellsEach(db, q.projection, columns, rows[i], None, map[]);
      assert cells[0] == ItemCells(db, q.projection[0], columns, rows[i], None, map[]);
      assert cells[0].Ok? && Collect(cells).Ok?;
    }
  }

  lemma NamedQuery(db: Db, q: Query, columns: seq<BoundColumn>, rows: seq<Row>)
    requires q.ctes == [] && SourceRows(db, q, map[]) == Ok(Relation(columns, rows))
    ensures ExecQuery(db, q, map[]) == FinishQuery(db, q, Relation(columns, rows), map[])
  {
    assert BindCtes(db, [], map[]) == Ok(map[]);
  }

  lemma FullScanKeepsRow(db: Db, q: Query, rows: seq<Row>, row: Row)
    requires "t" in db && db["t"] == Meaning(OneRowTable()) && q == AboutTheOther()
    requires rows == [[Integer(1)]] && row == [Integer(1), Integer(5), Integer(0)]
    ensures SourceRows(db, q, map[]) == Ok(Relation(CROSSED, [row]))
  {
    FullScanOfOne(db["t"], q.selection);
    CrossedRows(db, q.joins[0], rows, row);
    AboutUIsTrue(db, q.selection.value, CROSSED, row, map[]);
    AllKept(db, q, rows, CROSSED, [row]);
  }

  lemma ProbeLosesRow(db: Db, q: Query, row: Row)
    requires "t" in db && db["t"] == OneRowTable() && q == AboutTheOther() && row == [Integer(1), Integer(5), Integer(0)]
    ensures SourceRows(db, q, map[]) == Ok(Relation(CROSSED, []))
  {
    assert CollectIndexPredicates(ABOUT_U) == [IndexPredicate(Some("u"), "id", Eq, Integer(5))];
    ProbeOfFive(ABOUT_U, Some("u"));
    CrossedRows(db, q.joins[0], [], row);
    AllKept(db, q, [], CROSSED, []);
  }

  /** A comparison on the other table's column empties the scan of this one, and the query loses its row. */
  lemma RowIsLost(db: Db, q: Query)
    requires "t" in db && db["t"] == OneRowTable() && q == AboutTheOther()
    ensures ExecQuery(MeaningOf(db), q, map[]).Ok? && |ExecQuery(MeaningOf(db), q, map[]).value.rows| == 1
    ensures ExecQuery(db, q, map[]).Ok? && |ExecQuery(db, q, map[]).value.rows| == 0
  {
    var row := [Integer(1), Integer(5), Integer(0)];
    FullScanKeepsRow(MeaningOf(db), q, [[Integer(1)]], row);
    ProbeLosesRow(db, q, row);
    NamedQuery(MeaningOf(db), q, CROSSED, [row]);
    OnesProjected(MeaningOf(db), q, CROSSED, [row]);
    NamedQuery(db, q, CROSSED, []);
    OnesProjected(db, q, CROSSED, []);
  }

  // -------------------------------------------------------------------------- ORDER BY

  /** SELECT 1 FROM t WHERE 1 / (id - 1) > 0 AND id = 5 */
  function FailingSubquery(): Query {
    Query([], false, [Item(Literal(Integer(1)), None)], Some(Named("t", None)), [], Some(FOLDED), [], None, [], None)
  }

  lemma SubqueryFails(db: Db, q: Query)
    requires "t" in db && db["t"] == Meaning(OneRowTable()) && q == FailingSubquery()
    ensures ExecQuery(db, q, map[]) == Err
  {
    var source := Relation([BoundColumn("t", "id")], [[Integer(1)]]);
    FullScanOfOne(db["t"], q.selection);
    FailsOnOne(db, source.columns, map[]);
    FailureSpreads(db, q.selection.value, source.columns, [Integer(1)], map[]);
    OneRowDecided(db, q, [[Integer(1)]], source.columns, [Integer(1)], Err, map[]);
    assert BindCtes(db, [], map[]) == Ok(map[]);
  }

  lemma SubqueryIsEmpty(db: Db, q: Query)
    requires "t" in db && db["t"] == OneRowTable() && q == FailingSubquery()
    ensures ExecQuery(db, q, map[]).Ok? && |ExecQuery(db, q, map[]).value.rows| == 0
  {
    var columns := [BoundColumn("t", "id")];
    assert CollectIndexPredicates(FAILS) == [] && CollectIndexPredicates(ID_IS_FIVE) == [IndexPredicate(None, "id", Eq, Integer(5))];
    assert [] + [IndexPredicate(None, "id", Eq, Integer(5))] == [IndexPredicate(None, "id", Eq, Integer(5))];
    ProbeOfFive(FOLDED, None);
    assert ExecJoins(db, [], Relation(columns, []), map[]) == Ok(Relation(columns, []));
    AllKept(db, q, [], columns, []);
    NamedQuery(db, q, columns, []);
    OnesProjected(db, q, columns, []);
  }

  const X_ONLY: seq<BoundColumn> := [BoundColumn("", "x")]

  /** EXISTS (subquery) OR x > 1 */
  function SortKey(subquery: Query): Expr {
    Binary(Exists(subquery, false), Or, Binary(Column(None, "x"), Compare(Gt), Literal(Integer(1))))
  }

  lemma KeyFails(db: Db, e: Expr, subquery: Query, row: Row)
    requires e == SortKey(subquery) && ExecQuery(db, subquery, map[]) == Err
    ensures EvalExpr(db, e, X_ONLY, row, None, map[]) == Err
  {
    assert EvalExpr(db, e.left, X_ONLY, row, None, map[]) == Err;
    FailureSpreads(db, e, X_ONLY, row, map[]);
  }

  lemma KeySucceeds(db: Db, e: Expr, subquery: Query, row: Row, i: int)
    requires e == SortKey(subquery) && ExecQuery(db, subquery, map[]).Ok? && ExecQuery(db, subquery, map[]).value.rows == []
    requires row == [Integer(i)]
    ensures EvalExpr(db, e, X_ONLY, row, None, map[]) == Ok(Boolean(i > 1))
  {
    assert EvalExpr(db, e.left, X_ONLY, row, None, map[]) == Ok(Boolean(false));
    UniqueColumn(X_ONLY, None, "x", 0);
    ColumnIs(db, e.right.left, X_ONLY, row, 0, map[]);
    ComparedIs(db, e.right, X_ONLY, row, row[0], map[]);
    FalseOr(db, e, X_ONLY, row, i > 1);
  }

  lemma FalseOr(db: Db, e: Expr, columns: seq<BoundColumn>, row: Row, b: bool)
    requires e.Binary? && e.op == Or && EvalExpr(db, e.left, columns, row, None, map[]) == Ok(Boolean(false))
    requires EvalExpr(db, e.right, columns, row, None, map[]) == Ok(Boolean(b))
    ensures EvalExpr(db, e, columns, row, None, map[]) == Ok(Boolean(b))
  {
  }

  lemma SortedPair(keys: seq<OrderKey>, rows: seq<Row>)
    requires |keys| == |rows| == 2
    ensures CompareOrderKeys(keys[0], keys[1], [false]) == Greater ==> SortRows(keys, rows, [false]) == [rows[1], rows[0]]
    ensures CompareOrderKeys(keys[0], keys[1], [false]) != Greater ==> SortRows(keys, rows, [false]) == rows
  {
    var a, b := Keyed(keys[0], rows[0]), Keyed(keys[1], rows[1]);
    var items := seq(|rows|, i requires 0 <= i < |rows| => Keyed(keys[i], rows[i]));
    assert items == [a, b] && [a, b][..1] == [a] && [a][..0] == [];
    assert SortKeyed([a], [false]) == InsertSorted([], a, [false]);
    assert SortKeyed([a, b], [false]) == InsertSorted([a], b, [false]);
    assert InsertSorted([], b, [false]) == [b];
    if CompareOrderKeys(a.key, b.key, [false]) == Greater {
      assert InsertSorted([a], b, [false]) == [b] + [a];
    }
  }

  lemma OneKey(db: Db, orders: seq<OrderBy>, columns: seq<BoundColumn>, row: Row, v: Result<Value>)
    requires |orders| == 1 && !orders[0].expr.Aggregate? && EvalExpr(db, orders[0].expr, columns, row, None, map[]) == v
    ensures OrderKeyOf(db, orders, columns, row, map[]) == [v]
  {
    var key := OrderKeyOf(db, orders, columns, row, map[]);
    assert |key| == 1 && key[0] == OrderValue(db, orders[0], columns, row, map[]);
  }

  lemma OneOrderValue(x: OrderKey, y: OrderKey, a: Result<Value>, b: Result<Value>)
    requires x == [a] && y == [b]
    ensures CompareOrderKeys(x, y, [false]) == if a.Err? || b.Err? then Equal else CompareOrderValues(a.value, b.value, false)
  {
    assert x[1..] == [] && y[1..] == [];
  }

  lemma PairSorted(db: Db, orders: seq<OrderBy>, relation: Relation, a: Result<Value>, b: Result<Value>)
    requires |orders| == 1 && !orders[0].expr.Aggregate? && !orders[0].descending && |relation.rows| == 2
    requires EvalExpr(db, orders[0].expr, relation.columns, relation.rows[0], None, map[]) == a
    requires EvalExpr(db, orders[0].expr, relation.columns, relation.rows[1], None, map[]) == b
    ensures SortRelation(db, orders, relation, map[], true).rows
         == if a.Ok? && b.Ok? && CompareOrderValues(a.value, b.value, false) == Greater then [relation.rows[1], relation.rows[0]] else relation.rows
  {
    var keys := OrderKeys(db, orders, relation.columns, relation.rows, map[]);
    OneKey(db, orders, relation.columns, relation.rows[0], a);
    OneKey(db, orders, relation.columns, relation.rows[1], b);
    assert keys[0] == [a] && keys[1] == [b];
    assert Descending(orders) == [false];
    OneOrderValue(keys[0], keys[1], a, b);
    SortedPair(keys, relation.rows);
  }

  /** Sorting takes a failed key for equal to any other. When the subquery of the key fails in one execution
      and is empty in the other, the same rows come out in different orders, and neither sort fails. */
  lemma SortingSwallowsFailure(a: Db, b: Db, subquery: Query, relation: Relation, orders: seq<OrderBy>)
    requires ExecQuery(a, subquery, map[]) == Err
    requires ExecQuery(b, subquery, map[]).Ok? && ExecQuery(b, subquery, map[]).value.rows == []
    requires relation == Relation(X_ONLY, [[Integer(3)], [Integer(0)]]) && orders == [OrderBy(SortKey(subquery), false)]
    ensures SortRelation(a, orders, relation, map[], true).rows == [relation.rows[0], relation.rows[1]]
    ensures SortRelation(b, orders, relation, map[], true).rows == [relation.rows[1], relation.rows[0]]
  {
    var key, rows := orders[0].expr, relation.rows;
    KeyFails(a, key, subquery, rows[0]);
    KeyFails(a, key, subquery, rows[1]);
    PairSorted(a, orders, relation, Err, Err);
    KeySucceeds(b, key, subquery, rows[0], 3);
    KeySucceeds(b, key, subquery, rows[1], 0);
    PairSorted(b, orders, relation, Ok(Boolean(true)), Ok(Boolean(false)));
  }

  /** There is such a subquery: it fails on the full scan of t, and is empty through the index. */
  lemma SubqueryDiffers(db: Db, subquery: Query)
    requires "t" in db && db["t"] == OneRowTable() && subquery == FailingSubquery()
    ensures ExecQuery(MeaningOf(db), subquery, map[]) == Err
    ensures ExecQuery(db, subquery, map[]).Ok? && |ExecQuery(db, subquery, map[]).value.rows| == 0
  {
    SubqueryFails(MeaningOf(db), subquery);
    SubqueryIsEmpty(db, subquery);
  }
}
