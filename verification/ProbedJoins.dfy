/** Joining and filtering the candidates of an index probe instead of all rows: what comes out is the same,
    and when it can fail although the full scan does not. */
module ProbedJoins {
  import opened Wrappers
  import opened Values
  import opened Syntax
  import opened Relations
  import opened Tables
  import opened Evaluator
  import opened IndexScan
  import opened JoinSplit

  // --------------------------------------------------------- rows that can be selected at all

  /** The first cells of a joined row, those of the probed table, satisfy the comparisons of the probe. */
  function Selectable(t: Table, key: seq<string>, predicates: seq<IndexPredicate>): Row -> bool {
    (row: Row) => |t.schema.columns| <= |row| && AllHold(t.schema.columns, key, predicates, row[..|t.schema.columns|])
  }

  lemma SelectableLooksAtOwn(t: Table, key: seq<string>, predicates: seq<IndexPredicate>)
    requires Score(ProbeFor(key, predicates)) > 0
    ensures LooksAtOwn(Selectable(t, key, predicates), |t.schema.columns|)
  {
    var x, w := Selectable(t, key, predicates), |t.schema.columns|;
    NullsHoldNothing(t.schema.columns, key, predicates);
    forall row, out | w <= |row| && row <= out ensures x(out) == x(row) {
      assert out[..w] == row[..w];
    }
  }

  lemma KeepNext(rows: seq<Row>, last: Row, x: Row -> bool)
    ensures Keep(rows + [last], x) == Keep(rows, x) + if x(last) then [last] else []
  {
    assert (rows + [last])[..|rows|] == rows;
  }

  lemma KeepVisited(scanned: seq<Row>, rows: seq<Row>, row: Row, x: Row -> bool, visited: bool)
    requires Keep(scanned, x) == Keep(rows, x) && (x(row) ==> visited)
    ensures Keep(if visited then scanned + [row] else scanned, x) == Keep(rows + [row], x)
  {
    KeepNext(rows, row, x);
    KeepNext(scanned, row, x);
    assert Keep(rows, x) + [] == Keep(rows, x);
  }

  /** The visited ones of the first n rows. */
  function Visited(rows: seq<Row>, visit: nat -> bool, n: nat): seq<Row>
    requires n <= |rows|
  {
    if n == 0 then [] else Visited(rows, visit, n - 1) + if visit(n - 1) then [rows[n - 1]] else []
  }

  lemma VisitedNext(rows: seq<Row>, visit: nat -> bool, n: nat)
    requires n < |rows|
    ensures Visited(rows, visit, n + 1) == if visit(n) then Visited(rows, visit, n) + [rows[n]] else Visited(rows, visit, n)
  {
    assert Visited(rows, visit, n) + [] == Visited(rows, visit, n);
  }

  lemma {:induction false} VisitedKeeps(rows: seq<Row>, visit: nat -> bool, all: nat -> bool, x: Row -> bool, n: nat)
    requires n <= |rows| && forall p: nat :: p < n ==> all(p) && (x(rows[p]) ==> visit(p))
    ensures Keep(Visited(rows, visit, n), x) == Keep(Visited(rows, all, n), x)
    decreases n
  {
    if n > 0 {
      VisitedKeeps(rows, visit, all, x, n - 1);
      KeepVisited(Visited(rows, visit, n - 1), Visited(rows, all, n - 1), rows[n - 1], x, visit(n - 1));
      VisitedNext(rows, visit, n - 1);
      VisitedNext(rows, all, n - 1);
    }
  }

  lemma {:induction false} ScanIsVisited(t: Table, candidates: Option<set<nat>>, visit: nat -> bool, n: nat)
    requires n <= |t.rows| && forall p: nat :: visit(p) == IsCandidate(t, candidates, p)
    ensures ScanPrefix(t, candidates, n) == Visited(t.rows, visit, n)
    decreases n
  {
    if n > 0 {
      ScanIsVisited(t, candidates, visit, n - 1);
    }
  }

  lemma {:induction false} AllVisited(rows: seq<Row>, all: nat -> bool, n: nat)
    requires n <= |rows| && forall p: nat :: all(p)
    ensures Visited(rows, all, n) == rows[..n]
    decreases n
  {
    if n > 0 {
      AllVisited(rows, all, n - 1);
      assert rows[..n] == rows[..n - 1] + [rows[n - 1]];
    }
  }

  lemma ScanKeeps(t: Table, candidates: Option<set<nat>>, x: Row -> bool)
    requires forall p :: 0 <= p < |t.rows| && x(t.rows[p]) ==> IsCandidate(t, candidates, p)
    ensures Keep(ScanPrefix(t, candidates, |t.rows|), x) == Keep(t.rows, x)
  {
    var visit, all := (p: nat) => IsCandidate(t, candidates, p), (p: nat) => true;
    VisitedKeeps(t.rows, visit, all, x, |t.rows|);
    ScanIsVisited(t, candidates, visit, |t.rows|);
    AllVisited(t.rows, all, |t.rows|);
    assert t.rows[..|t.rows|] == t.rows;
  }

  lemma {:induction false} ScanVisitsRows(t: Table, candidates: Option<set<nat>>, n: nat)
    requires n <= |t.rows|
    ensures forall row :: row in ScanPrefix(t, candidates, n) ==> row in t.rows
    decreases n
  {
    if n > 0 {
      ScanVisitsRows(t, candidates, n - 1);
    }
  }

  /** The probe that was made, and what it means for the rows: the scan keeps all that can be selected. */
  lemma ProbeMade(t: Table, visible: string, selection: Expr) returns (i: nat)
    requires ValidTable(t) && SafeSelection(t, visible, Some(selection)) && CandidateRowIds(t, Some(selection)).Some?
    ensures i < |t.indexes|
    ensures var x := Selectable(t, t.indexes[i].definition.columns, CollectIndexPredicates(selection));
            LooksAtOwn(x, |t.schema.columns|) && Keep(ScanRows(t, Some(selection)), x) == Keep(t.rows, x)
    ensures forall row :: row in ScanRows(t, Some(selection)) ==> row in t.rows
  {
    var predicates := CollectIndexPredicates(selection);
    i := BestIsAProbe(t.indexes, predicates);
    var key := t.indexes[i].definition.columns;
    var x := Selectable(t, key, predicates);
    SelectableLooksAtOwn(t, key, predicates);
    forall p | 0 <= p < |t.rows| && x(t.rows[p]) ensures IsCandidate(t, CandidateRowIds(t, Some(selection)), p) {
      assert t.rows[p][..|t.schema.columns|] == t.rows[p];
      HoldingIsCandidate(t, visible, selection, i, p);
    }
    ScanKeeps(t, CandidateRowIds(t, Some(selection)), x);
    ScanVisitsRows(t, CandidateRowIds(t, Some(selection)), |t.rows|);
  }

  // ---------------------------------------------------------------- rows that padding adds

  /** The conditions evaluated on rows that are NULL on the left, from here through the remaining joins to
      WHERE: none of them fails. */
  ghost predicate PaddingSucceeds(db: Db, joins: seq<Join>, selection: Option<Expr>, acc: Relation, w: nat, ctes: CteEnv)
    decreases |joins|
  {
    if joins == [] then
      selection.Some? ==> forall row :: row in acc.rows && Padded(row, w) ==> EvalExpr(db, selection.value, acc.columns, row, None, ctes).Ok?
    else
      var right := SourceRelation(db, joins[0].source, ctes, None);
      right.Ok? ==>
        && (forall row :: row in acc.rows && Padded(row, w) ==> OwnVerdict(db, joins[0].on, acc.columns, row, right.value, ctes).Ok?)
        && var next := JoinRelations(db, acc, right.value, joins[0], ctes);
           next.Ok? ==> PaddingSucceeds(db, joins[1..], selection, next.value, w, ctes)
  }

  predicate HasRightJoin(joins: seq<Join>) {
    exists i :: 0 <= i < |joins| && joins[i].joinType == Right
  }

  /** Each of the rows is among the others or, when there is a RIGHT join, NULL on the left. */
  ghost predicate AmongOrPadded(some: seq<Row>, all: seq<Row>, w: nat, padding: bool) {
    forall row :: row in some ==> row in all || (padding && Padded(row, w))
  }

  lemma JoinStaysAmong(db: Db, join: Join, columns: seq<BoundColumn>, some: seq<Row>, all: seq<Row>, right: Relation, ctes: CteEnv, w: nat, padding: bool)
    requires w <= |columns| && AmongOrPadded(some, all, w, padding) && (join.joinType == Right ==> padding)
    requires JoinRelations(db, Relation(columns, some), right, join, ctes).Ok? && JoinRelations(db, Relation(columns, all), right, join, ctes).Ok?
    ensures AmongOrPadded(JoinRelations(db, Relation(columns, some), right, join, ctes).value.rows,
                          JoinRelations(db, Relation(columns, all), right, join, ctes).value.rows, w, padding)
  {
    var verdict := VerdictOf(db, join.on, columns, right, ctes);
    var part := PartOf(right.rows, verdict, join.joinType, |right.columns|);
    var fewer := JoinVerdicts(db, join.on, Relation(columns, some), right, ctes).value;
    JoinIsRowByRow(db, join, columns, some, right, ctes);
    JoinIsRowByRow(db, join, columns, all, right, ctes);
    PartsExtend(right.rows, verdict, join.joinType, |right.columns|);
    PartsStayAmong(some, all, part, w, padding);
    forall out | out in Tail(join, right, fewer, |columns|) ensures Padded(out, w) {
      RightOutputIsPadded(right.rows, fewer, |columns|, |right.rows|, w, out);
    }
  }

  lemma PartsStayAmong(some: seq<Row>, all: seq<Row>, part: Row -> seq<Row>, w: nat, padding: bool)
    requires AmongOrPadded(some, all, w, padding) && Extends(part)
    ensures AmongOrPadded(PartsOf(some, part), PartsOf(all, part), w, padding)
  {
    forall out | out in PartsOf(some, part) ensures out in PartsOf(all, part) || (padding && Padded(out, w)) {
      PartsHold(some, part, out);
      PartsHold(all, part, out);
      var row :| row in some && out in part(row);
      if row !in all {
        assert row <= out && out[..w] == row[..w];
      }
    }
  }

  /** The joins and WHERE over given rows of the first source. */
  function Pipeline(db: Db, q: Query, columns: seq<BoundColumn>, rows: seq<Row>, ctes: CteEnv): Result<Relation> {
    ConditionsOver(db, q.joins, q.selection, Relation(columns, rows), ctes)
  }

  function ConditionsOver(db: Db, joins: seq<Join>, selection: Option<Expr>, acc: Relation, ctes: CteEnv): Result<Relation> {
    var joined :- ExecJoins(db, joins, acc, ctes);
    FilterRelation(db, selection, joined, ctes)
  }

  lemma ConditionsNext(db: Db, joins: seq<Join>, selection: Option<Expr>, acc: Relation, ctes: CteEnv)
    requires joins != []
    ensures var right := SourceRelation(db, joins[0].source, ctes, None);
            var next := if right.Ok? then JoinRelations(db, acc, right.value, joins[0], ctes) else Err;
            ConditionsOver(db, joins, selection, acc, ctes) == if next.Ok? then ConditionsOver(db, joins[1..], selection, next.value, ctes) else Err
  {
    assert ExecJoin(db, joins[0], acc, ctes).Ok? ==> SourceRelation(db, joins[0].source, ctes, None).Ok?;
  }

  /** When the joins and WHERE succeed on all rows of the first source, they succeed on some of them exactly
      when nothing fails on the rows that RIGHT joins pad; without a RIGHT join they always do. */
  lemma {:induction false} SomeSucceedIffPaddingDoes(db: Db, joins: seq<Join>, selection: Option<Expr>, columns: seq<BoundColumn>, some: seq<Row>, all: seq<Row>, ctes: CteEnv, w: nat, padding: bool)
    requires w <= |columns| && AmongOrPadded(some, all, w, padding) && (HasRightJoin(joins) ==> padding)
    requires ConditionsOver(db, joins, selection, Relation(columns, all), ctes).Ok?
    ensures padding ==> (ConditionsOver(db, joins, selection, Relation(columns, some), ctes).Ok?
                         <==> PaddingSucceeds(db, joins, selection, Relation(columns, some), w, ctes))
    ensures !padding ==> ConditionsOver(db, joins, selection, Relation(columns, some), ctes).Ok?
    decreases |joins|
  {
    var few, many := Relation(columns, some), Relation(columns, all);
    if joins == [] {
      if selection.Some? {
        FilterIsRowByRow(db, selection.value, few, ctes);
        FilterIsRowByRow(db, selection.value, many, ctes);
      }
    } else {
      ConditionsNext(db, joins, selection, few, ctes);
      ConditionsNext(db, joins, selection, many, ctes);
      var right := SourceRelation(db, joins[0].source, ctes, None).value;
      JoinIsRowByRow(db, joins[0], columns, some, right, ctes);
      JoinIsRowByRow(db, joins[0], columns, all, right, ctes);
      assert joins[0].joinType == Right ==> HasRightJoin(joins);
      if JoinRelations(db, few, right, joins[0], ctes).Ok? {
        JoinStaysAmong(db, joins[0], columns, some, all, right, ctes, w, padding);
        RestHasRightJoin(joins);
        SomeSucceedIffPaddingDoes(db, joins[1..], selection, columns + right.columns, JoinRelations(db, few, right, joins[0], ctes).value.rows,
                                  JoinRelations(db, many, right, joins[0], ctes).value.rows, ctes, w, padding);
      }
    }
  }

  lemma RestHasRightJoin(joins: seq<Join>)
    requires joins != []
    ensures HasRightJoin(joins[1..]) ==> HasRightJoin(joins)
  {
    if HasRightJoin(joins[1..]) {
      var i :| 0 <= i < |joins[1..]| && joins[1..][i].joinType == Right;
      assert joins[i + 1].joinType == Right;
    }
  }
}
