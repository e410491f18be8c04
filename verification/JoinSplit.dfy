/** Every join treats each row of its left side on its own, and a RIGHT join adds rows that are NULL on the
    left. So what a join makes of some left rows can be told from what it makes of more of them. */
module JoinSplit {
  import opened Wrappers
  import opened Values
  import opened Syntax
  import opened Relations
  import opened Evaluator

  // --------------------------------------------------------------------- parts and kept rows

  /** The outputs of the rows, in their order. */
  function PartsOf(rows: seq<Row>, part: Row -> seq<Row>): seq<Row> {
    if rows == [] then [] else PartsOf(rows[..|rows| - 1], part) + part(rows[|rows| - 1])
  }

  function Keep(rows: seq<Row>, x: Row -> bool): (r: seq<Row>)
    ensures forall row :: row in r <==> row in rows && x(row)
  {
    if rows == [] then []
    else
      var init, last := rows[..|rows| - 1], rows[|rows| - 1];
      assert rows == init + [last];
      Keep(init, x) + if x(last) then [last] else []
  }

  lemma {:induction false} KeepAppend(a: seq<Row>, b: seq<Row>, x: Row -> bool)
    ensures Keep(a + b, x) == Keep(a, x) + Keep(b, x)
    decreases b
  {
    if b == [] {
      assert a + b == a;
    } else {
      KeepAppend(a, b[..|b| - 1], x);
      assert (a + b)[..|a + b| - 1] == a + b[..|b| - 1];
    }
  }

  lemma {:induction false} KeepUniform(rows: seq<Row>, x: Row -> bool, keep: bool)
    requires forall row :: row in rows ==> x(row) == keep
    ensures Keep(rows, x) == if keep then rows else []
    decreases rows
  {
    if rows != [] {
      var init, last := rows[..|rows| - 1], rows[|rows| - 1];
      assert rows == init + [last];
      KeepUniform(init, x, keep);
    }
  }

  /** When an output is kept exactly if its row is, keeping commutes with taking parts. */
  lemma {:induction false} KeepOfParts(rows: seq<Row>, part: Row -> seq<Row>, x: Row -> bool)
    requires forall row, out :: row in rows && out in part(row) ==> x(out) == x(row)
    ensures Keep(PartsOf(rows, part), x) == PartsOf(Keep(rows, x), part)
    decreases rows
  {
    if rows != [] {
      var init, last := rows[..|rows| - 1], rows[|rows| - 1];
      assert rows == init + [last];
      KeepOfParts(init, part, x);
      KeepAppend(PartsOf(init, part), part(last), x);
      KeepUniform(part(last), x, x(last));
      KeptNext(Keep(init, x), last, part);
      assert PartsOf(Keep(init, x), part) + [] == PartsOf(Keep(init, x), part);
      assert Keep(init, x) + [] == Keep(init, x);
    }
  }

  lemma KeptNext(kept: seq<Row>, last: Row, part: Row -> seq<Row>)
    ensures PartsOf(kept + [last], part) == PartsOf(kept, part) + part(last)
  {
    assert (kept + [last])[..|kept|] == kept;
  }

  lemma {:induction false} PartsAgree(rows: seq<Row>, p: Row -> seq<Row>, q: Row -> seq<Row>)
    requires forall row :: row in rows ==> p(row) == q(row)
    ensures PartsOf(rows, p) == PartsOf(rows, q)
    decreases rows
  {
    if rows != [] {
      var init, last := rows[..|rows| - 1], rows[|rows| - 1];
      assert rows == init + [last];
      PartsAgree(init, p, q);
    }
  }

  lemma {:induction false} PartsHold(rows: seq<Row>, part: Row -> seq<Row>, out: Row)
    ensures out in PartsOf(rows, part) <==> exists row :: row in rows && out in part(row)
    decreases rows
  {
    if rows != [] {
      var init, last := rows[..|rows| - 1], rows[|rows| - 1];
      assert rows == init + [last];
      PartsHold(init, part, out);
    }
  }

  // ----------------------------------------------------------------------- one left row

  /** What one left row contributes, given its verdict on each right row. */
  function PartOf(right: seq<Row>, verdict: Row -> seq<bool>, joinType: JoinType, width: nat): Row -> seq<Row> {
    (row: Row) => if |verdict(row)| == |right| then LeftRowOutput(row, right, verdict(row), joinType, width) else []
  }

  lemma {:induction false} JoinedWithExtends(leftRow: Row, right: seq<Row>, verdict: seq<bool>, out: Row)
    requires |verdict| == |right| && out in JoinedWith(leftRow, right, verdict)
    ensures leftRow <= out
    decreases right
  {
    if out !in JoinedWith(leftRow, right[..|right| - 1], verdict[..|right| - 1]) {
      assert out == leftRow + right[|right| - 1];
    } else {
      JoinedWithExtends(leftRow, right[..|right| - 1], verdict[..|right| - 1], out);
    }
  }

  lemma PartExtends(row: Row, right: seq<Row>, verdict: Row -> seq<bool>, joinType: JoinType, width: nat, out: Row)
    requires out in PartOf(right, verdict, joinType, width)(row)
    ensures row <= out
  {
    if out in JoinedWith(row, right, verdict(row)) {
      JoinedWithExtends(row, right, verdict(row), out);
    } else {
      assert out == row + Nulls(width);
    }
  }

  lemma {:induction false} LeftOutputIsParts(left: seq<Row>, right: seq<Row>, verdicts: seq<seq<bool>>, joinType: JoinType, width: nat, verdict: Row -> seq<bool>)
    requires Shaped(verdicts, |left|, |right|) && forall i :: 0 <= i < |left| ==> verdicts[i] == verdict(left[i])
    ensures LeftOutput(left, right, verdicts, joinType, width) == PartsOf(left, PartOf(right, verdict, joinType, width))
    decreases left
  {
    var parts := LeftParts(left, right, verdicts, joinType, width);
    if left != [] {
      var last := |left| - 1;
      LeftOutputIsParts(left[..last], right, verdicts[..last], joinType, width, verdict);
      assert parts == LeftParts(left[..last], right, verdicts[..last], joinType, width) + [parts[last]];
      FlattenAppend(parts[..last], parts[last]);
    }
  }

  /** The left part of a row that a RIGHT join padded; w is the width of the first source. */
  predicate Padded(row: Row, w: nat) {
    w <= |row| && row[..w] == Nulls(w)
  }

  lemma {:induction false} RightOutputIsPadded(right: seq<Row>, verdicts: seq<seq<bool>>, leftWidth: nat, n: nat, w: nat, out: Row)
    requires n <= |right| && w <= leftWidth && out in RightOutput(right, verdicts, leftWidth, n)
    ensures Padded(out, w)
    decreases n
  {
    if out in RightOutput(right, verdicts, leftWidth, n - 1) {
      RightOutputIsPadded(right, verdicts, leftWidth, n - 1, w, out);
    } else {
      assert out == Nulls(leftWidth) + right[n - 1];
      assert out[..w] == Nulls(w);
    }
  }

  /** The rows that a join adds behind the parts of its left rows. */
  function Tail(join: Join, right: Relation, verdicts: seq<seq<bool>>, leftWidth: nat): seq<Row> {
    if join.joinType == Right then RightOutput(right.rows, verdicts, leftWidth, |right.rows|) else []
  }

  // ----------------------------------------------------------------- verdicts row by row

  /** The verdict of one left row on its own. */
  function OwnVerdict(db: Db, on: Option<Expr>, columns: seq<BoundColumn>, row: Row, right: Relation, ctes: CteEnv): Result<seq<bool>> {
    var verdicts := JoinVerdicts(db, on, Relation(columns, [row]), right, ctes);
    if verdicts.Ok? then Ok(verdicts.value[0]) else Err
  }

  function VerdictOf(db: Db, on: Option<Expr>, columns: seq<BoundColumn>, right: Relation, ctes: CteEnv): Row -> seq<bool> {
    (row: Row) => var own := OwnVerdict(db, on, columns, row, right, ctes); if own.Ok? then own.value else []
  }

  lemma OwnVerdictIs(db: Db, on: Option<Expr>, columns: seq<BoundColumn>, row: Row, right: Relation, ctes: CteEnv)
    requires on.Some? ==> HashJoinIndices(on.value, columns, right.columns).None?
    ensures OwnVerdict(db, on, columns, row, right, ctes)
         == Collect(PairVerdicts(db, on, columns + right.columns, row, right.rows, ctes))
  {
    var one := VerdictRows(db, on, columns + right.columns, [row], right.rows, ctes);
    assert one[0] == Collect(PairVerdicts(db, on, columns + right.columns, row, right.rows, ctes));
    assert Collect(one).Ok? <==> one[0].Ok?;
  }

  /** The verdicts of a join exist exactly when those of each left row do, and they are those. */
  lemma VerdictsRowByRow(db: Db, on: Option<Expr>, columns: seq<BoundColumn>, rows: seq<Row>, right: Relation, ctes: CteEnv)
    ensures var verdicts := JoinVerdicts(db, on, Relation(columns, rows), right, ctes);
            (verdicts.Ok? <==> forall row :: row in rows ==> OwnVerdict(db, on, columns, row, right, ctes).Ok?)
            && (verdicts.Ok? ==> forall i :: 0 <= i < |rows| ==> verdicts.value[i] == VerdictOf(db, on, columns, right, ctes)(rows[i]))
  {
    var hash := if on.Some? then HashJoinIndices(on.value, columns, right.columns) else None;
    if hash.Some? {
      forall i | 0 <= i < |rows|
        ensures ColumnEquality(rows, right.rows, hash.value.0, hash.value.1)[i]
             == ColumnEquality([rows[i]], right.rows, hash.value.0, hash.value.1)[0]
      {
      }
    } else {
      var each := VerdictRows(db, on, columns + right.columns, rows, right.rows, ctes);
      forall i | 0 <= i < |rows| ensures each[i] == OwnVerdict(db, on, columns, rows[i], right, ctes) {
        OwnVerdictIs(db, on, columns, rows[i], right, ctes);
      }
    }
  }

  /** The output of any join: the parts of its left rows in left order, and for a RIGHT join rows padded on
      the left behind them. It exists exactly when each left row has a verdict. */
  lemma JoinIsRowByRow(db: Db, join: Join, columns: seq<BoundColumn>, rows: seq<Row>, right: Relation, ctes: CteEnv)
    ensures var joined := JoinRelations(db, Relation(columns, rows), right, join, ctes);
            (joined.Ok? <==> forall row :: row in rows ==> OwnVerdict(db, join.on, columns, row, right, ctes).Ok?)
            && (joined.Ok? ==>
                  var verdicts := JoinVerdicts(db, join.on, Relation(columns, rows), right, ctes).value;
                  && joined.value.columns == columns + right.columns
                  && joined.value.rows
                     == PartsOf(rows, PartOf(right.rows, VerdictOf(db, join.on, columns, right, ctes), join.joinType, |right.columns|))
                        + Tail(join, right, verdicts, |columns|))
  {
    VerdictsRowByRow(db, join.on, columns, rows, right, ctes);
    var verdicts := JoinVerdicts(db, join.on, Relation(columns, rows), right, ctes);
    if verdicts.Ok? {
      LeftOutputIsParts(rows, right.rows, verdicts.value, join.joinType, |right.columns|, VerdictOf(db, join.on, columns, right, ctes));
    }
  }

  // ------------------------------------------------- joining some left rows and all of them

  /** x looks only at the first w cells, and they are not all NULL. */
  ghost predicate LooksAtOwn(x: Row -> bool, w: nat) {
    && (forall row, out :: w <= |row| && row <= out ==> x(out) == x(row))
    && (forall row :: Padded(row, w) ==> !x(row))
  }

  ghost predicate WideEnough(rows: seq<Row>, w: nat) {
    forall row :: row in rows ==> w <= |row|
  }

  /** Every output begins with its row. */
  ghost predicate Extends(part: Row -> seq<Row>) {
    forall row, out {:trigger out in part(row)} :: out in part(row) ==> row <= out
  }

  lemma PartsExtend(right: seq<Row>, verdict: Row -> seq<bool>, joinType: JoinType, width: nat)
    ensures Extends(PartOf(right, verdict, joinType, width))
  {
    forall row, out | out in PartOf(right, verdict, joinType, width)(row) ensures row <= out {
      PartExtends(row, right, verdict, joinType, width, out);
    }
  }

  lemma KeepOfLeft(rows: seq<Row>, part: Row -> seq<Row>, x: Row -> bool, w: nat)
    requires LooksAtOwn(x, w) && WideEnough(rows, w) && Extends(part)
    ensures Keep(PartsOf(rows, part), x) == PartsOf(Keep(rows, x), part) && WideEnough(PartsOf(rows, part), w)
  {
    forall out | out in PartsOf(rows, part) ensures w <= |out| {
      PartsHold(rows, part, out);
    }
    KeepOfParts(rows, part, x);
  }

  lemma TailIsLost(join: Join, right: Relation, verdicts: seq<seq<bool>>, leftWidth: nat, x: Row -> bool, w: nat)
    requires LooksAtOwn(x, w) && w <= leftWidth
    ensures Keep(Tail(join, right, verdicts, leftWidth), x) == []
    ensures forall out :: out in Tail(join, right, verdicts, leftWidth) ==> Padded(out, w)
  {
    var tail := Tail(join, right, verdicts, leftWidth);
    forall out | out in tail ensures Padded(out, w) {
      RightOutputIsPadded(right.rows, verdicts, leftWidth, |right.rows|, w, out);
    }
    KeepUniform(tail, x, false);
  }

  lemma KeepOfBoth(a: seq<Row>, b: seq<Row>, x: Row -> bool, w: nat)
    requires Keep(b, x) == [] && WideEnough(a, w) && WideEnough(b, w)
    ensures Keep(a + b, x) == Keep(a, x) && WideEnough(a + b, w)
  {
    KeepAppend(a, b, x);
    assert Keep(a, x) + [] == Keep(a, x);
  }

  lemma KeepOfJoin(rows: seq<Row>, right: Relation, verdict: Row -> seq<bool>, join: Join, verdicts: seq<seq<bool>>, leftWidth: nat, x: Row -> bool, w: nat)
    requires LooksAtOwn(x, w) && WideEnough(rows, w) && w <= leftWidth
    ensures var part := PartOf(right.rows, verdict, join.joinType, |right.columns|);
            var joined := PartsOf(rows, part) + Tail(join, right, verdicts, leftWidth);
            Keep(joined, x) == PartsOf(Keep(rows, x), part) && WideEnough(joined, w)
  {
    var part, tail := PartOf(right.rows, verdict, join.joinType, |right.columns|), Tail(join, right, verdicts, leftWidth);
    PartsExtend(right.rows, verdict, join.joinType, |right.columns|);
    KeepOfLeft(rows, part, x, w);
    TailIsLost(join, right, verdicts, leftWidth, x, w);
    KeepOfBoth(PartsOf(rows, part), tail, x, w);
  }

  /** Two executions of one join whose left sides keep the same rows, and whose verdicts agree on those, have
      outputs that keep the same rows. */
  lemma JoinKeepsSame(a: Db, b: Db, join: Join, columns: seq<BoundColumn>, some: seq<Row>, all: seq<Row>, right: Relation, ctes: CteEnv, x: Row -> bool, w: nat)
    requires LooksAtOwn(x, w) && WideEnough(some, w) && WideEnough(all, w) && w <= |columns|
    requires Keep(some, x) == Keep(all, x)
    requires JoinRelations(a, Relation(columns, some), right, join, ctes).Ok? && JoinRelations(b, Relation(columns, all), right, join, ctes).Ok?
    requires forall row :: row in Keep(some, x) ==>
               OwnVerdict(a, join.on, columns, row, right, ctes) == OwnVerdict(b, join.on, columns, row, right, ctes)
    ensures var ra, rb := JoinRelations(a, Relation(columns, some), right, join, ctes).value, JoinRelations(b, Relation(columns, all), right, join, ctes).value;
            ra.columns == rb.columns == columns + right.columns
            && Keep(ra.rows, x) == Keep(rb.rows, x) && WideEnough(ra.rows, w) && WideEnough(rb.rows, w)
  {
    var fa, fb := VerdictOf(a, join.on, columns, right, ctes), VerdictOf(b, join.on, columns, right, ctes);
    JoinIsRowByRow(a, join, columns, some, right, ctes);
    JoinIsRowByRow(b, join, columns, all, right, ctes);
    KeepOfJoin(some, right, fa, join, JoinVerdicts(a, join.on, Relation(columns, some), right, ctes).value, |columns|, x, w);
    KeepOfJoin(all, right, fb, join, JoinVerdicts(b, join.on, Relation(columns, all), right, ctes).value, |columns|, x, w);
    PartsAgree(Keep(some, x), PartOf(right.rows, fa, join.joinType, |right.columns|), PartOf(right.rows, fb, join.joinType, |right.columns|));
  }

  // -------------------------------------------------------------------------------- WHERE

  function PassesOn(db: Db, e: Expr, columns: seq<BoundColumn>, ctes: CteEnv): Row -> bool {
    (row: Row) => IsTrue(EvalExpr(db, e, columns, row, None, ctes)) == Ok(true)
  }

  lemma {:induction false} KeepTrueIsKeep(rows: seq<Row>, verdicts: seq<Value>, passes: Row -> bool)
    requires |verdicts| == |rows| && forall i :: 0 <= i < |rows| ==> (Truth(verdicts[i]) == True <==> passes(rows[i]))
    ensures KeepTrue(rows, verdicts) == Keep(rows, passes)
    decreases rows
  {
    if rows != [] {
      KeepTrueIsKeep(rows[..|rows| - 1], verdicts[..|rows| - 1], passes);
    }
  }

  /** WHERE exists exactly when it can be evaluated on each row, and keeps those on which it is TRUE. */
  lemma FilterIsRowByRow(db: Db, e: Expr, relation: Relation, ctes: CteEnv)
    ensures var filtered := FilterRelation(db, Some(e), relation, ctes);
            (filtered.Ok? <==> forall row :: row in relation.rows ==> EvalExpr(db, e, relation.columns, row, None, ctes).Ok?)
            && (filtered.Ok? ==> filtered.value == Relation(relation.columns, Keep(relation.rows, PassesOn(db, e, relation.columns, ctes))))
  {
    var verdicts := EvalRows(db, e, relation.columns, relation.rows, ctes);
    assert forall i :: 0 <= i < |verdicts| ==> verdicts[i] == EvalExpr(db, e, relation.columns, relation.rows[i], None, ctes);
    if Collect(verdicts).Ok? {
      KeepTrueIsKeep(relation.rows, Collect(verdicts).value, PassesOn(db, e, relation.columns, ctes));
      forall row | row in relation.rows ensures EvalExpr(db, e, relation.columns, row, None, ctes).Ok? {
        var i :| 0 <= i < |relation.rows| && relation.rows[i] == row;
        assert verdicts[i].Ok?;
      }
    } else {
      var i :| 0 <= i < |verdicts| && verdicts[i].Err?;
      assert relation.rows[i] in relation.rows;
    }
  }

  /** A filter that implies another one sees only what the other one keeps. */
  lemma {:induction false} KeepWithin(rows: seq<Row>, passes: Row -> bool, x: Row -> bool)
    requires forall row :: row in rows && passes(row) ==> x(row)
    ensures Keep(rows, passes) == Keep(Keep(rows, x), passes)
    decreases rows
  {
    if rows != [] {
      var init, last := rows[..|rows| - 1], rows[|rows| - 1];
      assert rows == init + [last];
      KeepWithin(init, passes, x);
      var kept := if x(last) then [last] else [];
      KeepAppend(Keep(init, x), kept, passes);
      KeepUniform(kept, passes, passes(last));
      assert Keep(rows, passes) == Keep(init, passes) + if passes(last) then [last] else [];
    }
  }

  lemma {:induction false} KeepAlike(rows: seq<Row>, p: Row -> bool, q: Row -> bool)
    requires forall row :: row in rows ==> p(row) == q(row)
    ensures Keep(rows, p) == Keep(rows, q)
    decreases rows
  {
    if rows != [] {
      var init, last := rows[..|rows| - 1], rows[|rows| - 1];
      assert rows == init + [last];
      KeepAlike(init, p, q);
    }
  }
}
