/** The hash join and the nested-loop join (join_relations and hash_join in src/sql/executor.rs). */
module HashJoin {
  import opened Wrappers
  import opened Values
  import opened Syntax
  import opened Keys
  import opened Relations
  import opened Evaluator

  // --------------------------------------------------------------------- join keys

  /** Values that SQL calls equal have equal keys; different values may share a key. */
  ghost predicate Respects<K(!new)>(key: Value -> K) {
    forall a, b :: CompareSql(a, b, Eq) == True ==> key(a) == key(b)
  }

  lemma {:induction false} EqualTexts(a: string, b: string)
    requires CompareText(a, b) == Equal
    ensures a == b
    decreases a
  {
    if a != "" {
      EqualTexts(a[1..], b[1..]);
    }
  }

  /** hash_join_key gives an integer and a float of equal value one key. */
  lemma HashJoinKeyRespects()
    ensures Respects(HashJoinKey)
  {
    forall a, b | CompareSql(a, b, Eq) == True ensures HashJoinKey(a) == HashJoinKey(b) {
      if a.Text? && b.Text? {
        EqualTexts(a.s, b.s);
      }
    }
  }

  // ------------------------------------------------------------------ the hash table

  /** The positions among the first n right rows that are filed under k: NULL is filed nowhere. */
  function PositionsWith<K(==)>(rightRows: seq<Row>, r: nat, key: Value -> K, k: K, n: nat): seq<nat>
    requires n <= |rightRows|
  {
    if n == 0 then []
    else
      PositionsWith(rightRows, r, key, k, n - 1)
      + if !Cell(rightRows[n - 1], r).Null? && key(Cell(rightRows[n - 1], r)) == k then [n - 1] else []
  }

  lemma {:induction false} PositionsInRange<K>(rightRows: seq<Row>, r: nat, key: Value -> K, k: K, n: nat)
    requires n <= |rightRows|
    ensures forall i :: 0 <= i < |PositionsWith(rightRows, r, key, k, n)| ==> PositionsWith(rightRows, r, key, k, n)[i] < n
    decreases n
  {
    if n > 0 {
      PositionsInRange(rightRows, r, key, k, n - 1);
    }
  }

  ghost predicate FilesRows<K(!new)>(table: map<K, seq<nat>>, rightRows: seq<Row>, r: nat, key: Value -> K, n: nat)
    requires n <= |rightRows|
  {
    forall k {:trigger PositionsWith(rightRows, r, key, k, n)} :: (if k in table then table[k] else []) == PositionsWith(rightRows, r, key, k, n)
  }

  function FileUnder<K(==)>(table: map<K, seq<nat>>, k: K, j: nat): map<K, seq<nat>> {
    table[k := (if k in table then table[k] else []) + [j]]
  }

  lemma FileRow<K(!new)>(table: map<K, seq<nat>>, rightRows: seq<Row>, r: nat, key: Value -> K, j: nat)
    requires j < |rightRows| && FilesRows(table, rightRows, r, key, j)
    ensures FilesRows(if Cell(rightRows[j], r).Null? then table else FileUnder(table, key(Cell(rightRows[j], r)), j), rightRows, r, key, j + 1)
  {
    var cell := Cell(rightRows[j], r);
    var next := if cell.Null? then table else FileUnder(table, key(cell), j);
    forall k ensures (if k in next then next[k] else []) == PositionsWith(rightRows, r, key, k, j + 1) {
      assert (if k in table then table[k] else []) == PositionsWith(rightRows, r, key, k, j);
    }
  }

  method BuildTable<K(!new, ==)>(rightRows: seq<Row>, r: nat, key: Value -> K) returns (table: map<K, seq<nat>>)
    ensures FilesRows(table, rightRows, r, key, |rightRows|)
  {
    table := map[];
    var j := 0;
    while j < |rightRows|
      invariant j <= |rightRows| && FilesRows(table, rightRows, r, key, j)
    {
      FileRow(table, rightRows, r, key, j);
      if !Cell(rightRows[j], r).Null? {
        table := FileUnder(table, key(Cell(rightRows[j], r)), j);
      }
      j := j + 1;
    }
  }

  // --------------------------------------------------------------------- one left row

  /** The right rows at these positions whose verdict is positive. */
  function Picked(leftRow: Row, rightRows: seq<Row>, positions: seq<nat>, verdict: seq<bool>): seq<Row>
    requires |verdict| == |rightRows| && forall i :: 0 <= i < |positions| ==> positions[i] < |rightRows|
  {
    if positions == [] then []
    else
      var p := positions[|positions| - 1];
      Picked(leftRow, rightRows, positions[..|positions| - 1], verdict) + if verdict[p] then [leftRow + rightRows[p]] else []
  }

  /** The filed positions miss no joining row, and come in row order. */
  lemma {:induction false} PickedIsJoined<K>(leftRow: Row, rightRows: seq<Row>, r: nat, key: Value -> K, k: K, verdict: seq<bool>, n: nat)
    requires |verdict| == |rightRows| && n <= |rightRows|
    requires forall j :: 0 <= j < |rightRows| && verdict[j] ==> !Cell(rightRows[j], r).Null? && key(Cell(rightRows[j], r)) == k
    requires forall i :: 0 <= i < |PositionsWith(rightRows, r, key, k, n)| ==> PositionsWith(rightRows, r, key, k, n)[i] < |rightRows|
    ensures Picked(leftRow, rightRows, PositionsWith(rightRows, r, key, k, n), verdict) == JoinedWith(leftRow, rightRows[..n], verdict[..n])
    decreases n
  {
    if n > 0 {
      PositionsInRange(rightRows, r, key, k, n - 1);
      PickedIsJoined(leftRow, rightRows, r, key, k, verdict, n - 1);
      assert rightRows[..n][..n - 1] == rightRows[..n - 1] && verdict[..n][..n - 1] == verdict[..n - 1];
      var init, all := PositionsWith(rightRows, r, key, k, n - 1), PositionsWith(rightRows, r, key, k, n);
      if all != init {
        assert all == init + [n - 1] && all[..|all| - 1] == init;
      } else {
        assert !verdict[n - 1];
        assert JoinedWith(leftRow, rightRows[..n - 1], verdict[..n - 1]) + [] == JoinedWith(leftRow, rightRows[..n - 1], verdict[..n - 1]);
      }
    }
  }

  lemma {:induction false} NoneJoined(leftRow: Row, rightRows: seq<Row>, verdict: seq<bool>)
    requires |verdict| == |rightRows| && forall j :: 0 <= j < |verdict| ==> !verdict[j]
    ensures JoinedWith(leftRow, rightRows, verdict) == []
    decreases rightRows
  {
    if rightRows != [] {
      NoneJoined(leftRow, rightRows[..|rightRows| - 1], verdict[..|rightRows| - 1]);
    }
  }

  /** Which right rows a left row equals. */
  function EqualTo(leftRow: Row, rightRows: seq<Row>, l: nat, r: nat): (v: seq<bool>)
    ensures |v| == |rightRows|
  {
    seq(|rightRows|, j requires 0 <= j < |rightRows| => CompareSql(Cell(leftRow, l), Cell(rightRows[j], r), Eq) == True)
  }

  /** The probe of one left row: every filed position is checked again, since keys may collide. */
  method Probe(leftRow: Row, rightRows: seq<Row>, positions: seq<nat>, l: nat, r: nat, matched: array<bool>) returns (rows: seq<Row>)
    requires matched.Length == |rightRows| && forall i :: 0 <= i < |positions| ==> positions[i] < |rightRows|
    modifies matched
    ensures rows == Picked(leftRow, rightRows, positions, EqualTo(leftRow, rightRows, l, r))
    ensures forall j :: 0 <= j < |rightRows| ==>
              (matched[j] <==> old(matched[j]) || (j in positions && EqualTo(leftRow, rightRows, l, r)[j]))
  {
    rows := [];
    for i := 0 to |positions|
      invariant rows == Picked(leftRow, rightRows, positions[..i], EqualTo(leftRow, rightRows, l, r))
      invariant forall j :: 0 <= j < |rightRows| ==>
                  (matched[j] <==> old(matched[j]) || (j in positions[..i] && EqualTo(leftRow, rightRows, l, r)[j]))
    {
      var p := positions[i];
      assert positions[..i + 1][..i] == positions[..i] && positions[..i + 1] == positions[..i] + [p];
      if CompareSql(Cell(leftRow, l), Cell(rightRows[p], r), Eq) == True {
        matched[p] := true;
        rows := rows + [leftRow + rightRows[p]];
      }
    }
    assert positions[..|positions|] == positions;
  }

  lemma {:induction false} FiledWhenKeyed<K>(rightRows: seq<Row>, r: nat, key: Value -> K, k: K, n: nat, j: nat)
    requires n <= |rightRows| && j < n && !Cell(rightRows[j], r).Null? && key(Cell(rightRows[j], r)) == k
    ensures j in PositionsWith(rightRows, r, key, k, n)
    decreases n
  {
    if j < n - 1 {
      FiledWhenKeyed(rightRows, r, key, k, n - 1, j);
    }
  }

  /** What one left row contributes through the hash table is what it contributes through all right rows. */
  method JoinLeftRow<K(!new, ==)>(leftRow: Row, rightRows: seq<Row>, table: map<K, seq<nat>>, l: nat, r: nat, key: Value -> K, matched: array<bool>) returns (rows: seq<Row>)
    requires Respects(key) && FilesRows(table, rightRows, r, key, |rightRows|) && matched.Length == |rightRows|
    modifies matched
    ensures rows == JoinedWith(leftRow, rightRows, EqualTo(leftRow, rightRows, l, r))
    ensures forall j :: 0 <= j < |rightRows| ==> (matched[j] <==> old(matched[j]) || EqualTo(leftRow, rightRows, l, r)[j])
  {
    var cell := Cell(leftRow, l);
    ghost var verdict := EqualTo(leftRow, rightRows, l, r);
    if cell.Null? {
      NoneJoined(leftRow, rightRows, verdict);
      return [];
    }
    var k := key(cell);
    var positions := if k in table then table[k] else [];
    assert positions == PositionsWith(rightRows, r, key, k, |rightRows|);
    PositionsInRange(rightRows, r, key, k, |rightRows|);
    PickedIsJoined(leftRow, rightRows, r, key, k, verdict, |rightRows|);
    forall j | 0 <= j < |rightRows| && verdict[j] ensures j in positions {
      FiledWhenKeyed(rightRows, r, key, k, |rightRows|, j);
    }
    assert rightRows[..|rightRows|] == rightRows && verdict[..|rightRows|] == verdict;
    rows := Probe(leftRow, rightRows, positions, l, r, matched);
  }

  // ----------------------------------------------------------------------- whole joins

  lemma LeftOutputNext(leftRows: seq<Row>, rightRows: seq<Row>, verdicts: seq<seq<bool>>, joinType: JoinType, width: nat, i: nat)
    requires Shaped(verdicts, |leftRows|, |rightRows|) && i < |leftRows|
    ensures LeftOutput(leftRows[..i + 1], rightRows, verdicts[..i + 1], joinType, width)
         == LeftOutput(leftRows[..i], rightRows, verdicts[..i], joinType, width)
            + LeftRowOutput(leftRows[i], rightRows, verdicts[i], joinType, width)
  {
    var before := LeftParts(leftRows[..i], rightRows, verdicts[..i], joinType, width);
    assert LeftParts(leftRows[..i + 1], rightRows, verdicts[..i + 1], joinType, width)
        == before + [LeftRowOutput(leftRows[i], rightRows, verdicts[i], joinType, width)];
    FlattenAppend(before, LeftRowOutput(leftRows[i], rightRows, verdicts[i], joinType, width));
  }

  lemma RightMatchedNext(verdicts: seq<seq<bool>>, i: nat, j: nat)
    requires i < |verdicts|
    ensures RightMatched(verdicts[..i + 1], j) <==> RightMatched(verdicts[..i], j) || (j < |verdicts[i]| && verdicts[i][j])
  {
    if RightMatched(verdicts[..i], j) {
      var k :| 0 <= k < i && j < |verdicts[..i][k]| && verdicts[..i][k][j];
      assert verdicts[..i + 1][k][j];
    }
    if j < |verdicts[i]| && verdicts[i][j] {
      assert verdicts[..i + 1][i][j];
    }
    if RightMatched(verdicts[..i + 1], j) {
      var k :| 0 <= k < i + 1 && j < |verdicts[..i + 1][k]| && verdicts[..i + 1][k][j];
      assert k < i ==> verdicts[..i][k][j];
    }
  }

  lemma RightMatchedRow(verdicts: seq<seq<bool>>, i: nat)
    requires i < |verdicts|
    ensures forall j: nat :: RightMatched(verdicts[..i + 1], j) <==> RightMatched(verdicts[..i], j) || (j < |verdicts[i]| && verdicts[i][j])
  {
    forall j: nat ensures RightMatched(verdicts[..i + 1], j) <==> RightMatched(verdicts[..i], j) || (j < |verdicts[i]| && verdicts[i][j]) {
      RightMatchedNext(verdicts, i, j);
    }
  }

  lemma VerdictRow(leftRows: seq<Row>, rightRows: seq<Row>, l: nat, r: nat, i: nat)
    requires i < |leftRows|
    ensures ColumnEquality(leftRows, rightRows, l, r)[i] == EqualTo(leftRows[i], rightRows, l, r)
  {
  }

  /** The unmatched right rows of a RIGHT JOIN, padded on the left. */
  method EmitUnmatched(rightRows: seq<Row>, matched: array<bool>, ghost verdicts: seq<seq<bool>>, width: nat) returns (rows: seq<Row>)
    requires matched.Length == |rightRows|
    requires forall j :: 0 <= j < |rightRows| ==> (matched[j] <==> RightMatched(verdicts, j))
    ensures rows == RightOutput(rightRows, verdicts, width, |rightRows|)
  {
    rows := [];
    for j := 0 to |rightRows|
      invariant rows == RightOutput(rightRows, verdicts, width, j)
    {
      if !matched[j] {
        rows := rows + [Nulls(width) + rightRows[j]];
      } else {
        assert rows + [] == rows;
      }
    }
  }

  /** hash_join: under any key function that respects equality, collisions or not, it gives the rows of the
      nested loop over the same column equality, in the same order and number, with the same padding. */
  method HashJoin<K(!new, ==)>(leftRows: seq<Row>, rightRows: seq<Row>, joinType: JoinType, l: nat, r: nat,
                               leftWidth: nat, rightWidth: nat, key: Value -> K) returns (rows: seq<Row>)
    requires Respects(key)
    ensures rows == JoinRows(leftRows, rightRows, ColumnEquality(leftRows, rightRows, l, r), joinType, leftWidth, rightWidth)
  {
    var table := BuildTable(rightRows, r, key);
    var matched := new bool[|rightRows|](_ => false);
    ghost var verdicts := ColumnEquality(leftRows, rightRows, l, r);
    rows := [];
    for i := 0 to |leftRows|
      invariant rows == LeftOutput(leftRows[..i], rightRows, verdicts[..i], joinType, rightWidth)
      invariant forall j :: 0 <= j < |rightRows| ==> (matched[j] <==> RightMatched(verdicts[..i], j))
    {
      LeftOutputNext(leftRows, rightRows, verdicts, joinType, rightWidth, i);
      RightMatchedRow(verdicts, i);
      VerdictRow(leftRows, rightRows, l, r, i);
      var joined := JoinLeftRow(leftRows[i], rightRows, table, l, r, key, matched);
      if joined == [] && joinType == Left {
        rows := rows + [leftRows[i] + Nulls(rightWidth)];
      } else {
        rows := rows + joined;
      }
    }
    assert leftRows[..|leftRows|] == leftRows && verdicts[..|leftRows|] == verdicts;
    if joinType == Right {
      var unmatched := EmitUnmatched(rightRows, matched, verdicts, leftWidth);
      rows := rows + unmatched;
    } else {
      assert rows + [] == rows;
    }
  }

  // --------------------------------------------------------------------- the nested loop

  function TestRow(test: Row -> Result<bool>, leftRow: Row, rightRows: seq<Row>): (r: seq<Result<bool>>)
    ensures |r| == |rightRows|
  {
    seq(|rightRows|, j requires 0 <= j < |rightRows| => test(leftRow + rightRows[j]))
  }

  function TestRows(test: Row -> Result<bool>, leftRows: seq<Row>, rightRows: seq<Row>): (r: seq<Result<seq<bool>>>)
    ensures |r| == |leftRows| && forall i :: 0 <= i < |r| && r[i].Ok? ==> |r[i].value| == |rightRows|
  {
    seq(|leftRows|, i requires 0 <= i < |leftRows| => Collect(TestRow(test, leftRows[i], rightRows)))
  }

  lemma JoinedNext(leftRow: Row, rightRows: seq<Row>, verdict: seq<bool>, b: bool, j: nat)
    requires |verdict| == j < |rightRows|
    ensures JoinedWith(leftRow, rightRows[..j + 1], verdict + [b])
         == JoinedWith(leftRow, rightRows[..j], verdict) + if b then [leftRow + rightRows[j]] else []
  {
    assert rightRows[..j + 1][..j] == rightRows[..j] && (verdict + [b])[..j] == verdict;
  }

  /** One left row against every right row; the first failing test fails the join. */
  method TestLeftRow(leftRow: Row, rightRows: seq<Row>, test: Row -> Result<bool>, matched: array<bool>) returns (r: Result<seq<Row>>, ghost verdict: seq<bool>)
    requires matched.Length == |rightRows|
    modifies matched
    ensures r.Ok? <==> Collect(TestRow(test, leftRow, rightRows)).Ok?
    ensures r.Ok? ==> |verdict| == |rightRows| && Collect(TestRow(test, leftRow, rightRows)) == Ok(verdict)
                      && r.value == JoinedWith(leftRow, rightRows, verdict)
                      && forall j :: 0 <= j < |rightRows| ==> (matched[j] <==> old(matched[j]) || verdict[j])
  {
    verdict := [];
    var rows: seq<Row> := [];
    for j := 0 to |rightRows|
      invariant |verdict| == j && rows == JoinedWith(leftRow, rightRows[..j], verdict)
      invariant forall k :: 0 <= k < j ==> TestRow(test, leftRow, rightRows)[k] == Ok(verdict[k])
      invariant forall k :: 0 <= k < |rightRows| ==> (matched[k] <==> old(matched[k]) || (k < j && verdict[k]))
    {
      var matches := test(leftRow + rightRows[j]);
      assert TestRow(test, leftRow, rightRows)[j] == matches;
      if matches.Err? {
        return Err, [];
      }
      JoinedNext(leftRow, rightRows, verdict, matches.value, j);
      verdict := verdict + [matches.value];
      if matches.value {
        matched[j] := true;
        rows := rows + [leftRow + rightRows[j]];
      } else {
        assert rows + [] == rows;
      }
    }
    assert rightRows[..|rightRows|] == rightRows;
    assert Collect(TestRow(test, leftRow, rightRows)).value == verdict;
    r := Ok(rows);
  }

  /** What one left row adds to the result. */
  method NestedRow(leftRow: Row, rightRows: seq<Row>, test: Row -> Result<bool>, joinType: JoinType, rightWidth: nat, matched: array<bool>)
    returns (r: Result<seq<Row>>, ghost verdict: seq<bool>)
    requires matched.Length == |rightRows|
    modifies matched
    ensures r.Ok? <==> Collect(TestRow(test, leftRow, rightRows)).Ok?
    ensures r.Ok? ==> |verdict| == |rightRows| && Collect(TestRow(test, leftRow, rightRows)) == Ok(verdict)
                      && r.value == LeftRowOutput(leftRow, rightRows, verdict, joinType, rightWidth)
                      && forall j :: 0 <= j < |rightRows| ==> (matched[j] <==> old(matched[j]) || verdict[j])
  {
    r, verdict := TestLeftRow(leftRow, rightRows, test, matched);
    if r.Ok? && r.value == [] && joinType == Left {
      r := Ok([leftRow + Nulls(rightWidth)]);
    }
  }

  lemma AllTested(tested: seq<Result<seq<bool>>>, verdicts: seq<seq<bool>>)
    requires |tested| == |verdicts| && forall k :: 0 <= k < |tested| ==> tested[k] == Ok(verdicts[k])
    ensures Collect(tested) == Ok(verdicts)
  {
    assert Collect(tested).Ok? && Collect(tested).value == verdicts;
  }

  /** The loop over the left rows. */
  method NestedRows(leftRows: seq<Row>, rightRows: seq<Row>, test: Row -> Result<bool>, joinType: JoinType, rightWidth: nat, matched: array<bool>)
    returns (r: Result<seq<Row>>, ghost verdicts: seq<seq<bool>>)
    requires matched.Length == |rightRows| && forall j :: 0 <= j < |rightRows| ==> !matched[j]
    modifies matched
    ensures r.Ok? <==> Collect(TestRows(test, leftRows, rightRows)).Ok?
    ensures r.Ok? ==> Collect(TestRows(test, leftRows, rightRows)) == Ok(verdicts) && Shaped(verdicts, |leftRows|, |rightRows|)
                      && r.value == LeftOutput(leftRows, rightRows, verdicts, joinType, rightWidth)
                      && forall j :: 0 <= j < |rightRows| ==> (matched[j] <==> RightMatched(verdicts, j))
  {
    ghost var tested := TestRows(test, leftRows, rightRows);
    verdicts := [];
    var rows: seq<Row> := [];
    for i := 0 to |leftRows|
      invariant Shaped(verdicts, i, |rightRows|) && rows == LeftOutput(leftRows[..i], rightRows, verdicts, joinType, rightWidth)
      invariant forall k :: 0 <= k < i ==> tested[k] == Ok(verdicts[k])
      invariant forall j :: 0 <= j < |rightRows| ==> (matched[j] <==> RightMatched(verdicts, j))
    {
      var joined;
      ghost var verdict;
      joined, verdict := NestedRow(leftRows[i], rightRows, test, joinType, rightWidth, matched);
      assert tested[i].Ok? <==> joined.Ok?;
      if joined.Err? {
        return Err, [];
      }
      NextLeftRow(leftRows, rightRows, verdicts, verdict, joinType, rightWidth, i);
      RightMatchedAppend(verdicts, verdict);
      verdicts, rows := verdicts + [verdict], rows + joined.value;
    }
    assert leftRows[..|leftRows|] == leftRows;
    AllTested(tested, verdicts);
    r := Ok(rows);
  }

  /** The nested loop of join_relations. */
  method NestedLoop(leftRows: seq<Row>, rightRows: seq<Row>, test: Row -> Result<bool>, joinType: JoinType, leftWidth: nat, rightWidth: nat) returns (r: Result<seq<Row>>)
    ensures var verdicts := Collect(TestRows(test, leftRows, rightRows));
            r == if verdicts.Err? then Err else Ok(JoinRows(leftRows, rightRows, verdicts.value, joinType, leftWidth, rightWidth))
  {
    var matched := new bool[|rightRows|](_ => false);
    ghost var verdicts;
    r, verdicts := NestedRows(leftRows, rightRows, test, joinType, rightWidth, matched);
    if r.Ok? {
      if joinType == Right {
        var unmatched := EmitUnmatched(rightRows, matched, verdicts, leftWidth);
        r := Ok(r.value + unmatched);
      } else {
        assert r.value + [] == r.value;
      }
    }
  }

  lemma RightMatchedAppend(verdicts: seq<seq<bool>>, verdict: seq<bool>)
    ensures forall j: nat :: RightMatched(verdicts + [verdict], j) <==> RightMatched(verdicts, j) || (j < |verdict| && verdict[j])
  {
    var more := verdicts + [verdict];
    assert more[..|verdicts|] == verdicts && more[..|verdicts| + 1] == more;
    forall j: nat ensures RightMatched(more, j) <==> RightMatched(verdicts, j) || (j < |verdict| && verdict[j]) {
      RightMatchedNext(more, |verdicts|, j);
    }
  }

  lemma NextLeftRow(leftRows: seq<Row>, rightRows: seq<Row>, verdicts: seq<seq<bool>>, verdict: seq<bool>, joinType: JoinType, width: nat, i: nat)
    requires i < |leftRows| && Shaped(verdicts, i, |rightRows|) && |verdict| == |rightRows|
    ensures LeftOutput(leftRows[..i + 1], rightRows, verdicts + [verdict], joinType, width)
         == LeftOutput(leftRows[..i], rightRows, verdicts, joinType, width) + LeftRowOutput(leftRows[i], rightRows, verdict, joinType, width)
  {
    var before := LeftParts(leftRows[..i], rightRows, verdicts, joinType, width);
    assert LeftParts(leftRows[..i + 1], rightRows, verdicts + [verdict], joinType, width)
        == before + [LeftRowOutput(leftRows[i], rightRows, verdict, joinType, width)];
    FlattenAppend(before, LeftRowOutput(leftRows[i], rightRows, verdict, joinType, width));
  }

  /** join_relations computes the join that queries mean, by either path. */
  method Join(db: Db, left: Relation, right: Relation, join: Syntax.Join, ctes: CteEnv) returns (r: Result<Relation>)
    ensures r == JoinRelations(db, left, right, join, ctes)
  {
    var columns := left.columns + right.columns;
    var hash := if join.on.Some? then HashJoinIndices(join.on.value, left.columns, right.columns) else None;
    if hash.Some? {
      HashJoinKeyRespects();
      var rows := HashJoin(left.rows, right.rows, join.joinType, hash.value.0, hash.value.1, |left.columns|, |right.columns|, HashJoinKey);
      r := Ok(Relation(columns, rows));
    } else {
      var test := (row: Row) => if join.on.None? then Ok(true) else IsTrue(EvalExpr(db, join.on.value, columns, row, None, ctes));
      var rows := NestedLoop(left.rows, right.rows, test, join.joinType, |left.columns|, |right.columns|);
      NestedVerdicts(db, join.on, left, right, ctes, test);
      r := if rows.Err? then Err else Ok(Relation(columns, rows.value));
    }
  }

  lemma NestedVerdicts(db: Db, on: Option<Expr>, left: Relation, right: Relation, ctes: CteEnv, test: Row -> Result<bool>)
    requires on.Some? ==> HashJoinIndices(on.value, left.columns, right.columns).None?
    requires forall row: Row :: test(row) == if on.None? then Ok(true) else IsTrue(EvalExpr(db, on.value, left.columns + right.columns, row, None, ctes))
    ensures JoinVerdicts(db, on, left, right, ctes) == Collect(TestRows(test, left.rows, right.rows))
  {
    var columns := left.columns + right.columns;
    forall i | 0 <= i < |left.rows|
      ensures PairVerdicts(db, on, columns, left.rows[i], right.rows, ctes) == TestRow(test, left.rows[i], right.rows)
    {
    }
    assert VerdictRows(db, on, columns, left.rows, right.rows, ctes) == TestRows(test, left.rows, right.rows);
  }

  // ---------------------------------------------------------- hash path against nested loop

  ghost predicate ResolveInBoth(on: Expr, left: seq<BoundColumn>, right: seq<BoundColumn>)
    requires on.Binary? && on.left.Column? && on.right.Column?
  {
    ResolveColumn(left + right, on.left.qualifier, on.left.name).Ok? && ResolveColumn(left + right, on.right.qualifier, on.right.name).Ok?
  }

  lemma ResolveWhole(left: seq<BoundColumn>, right: seq<BoundColumn>, q: Option<string>, n: string)
    ensures ResolveColumn(left + right, q, n).Ok? && ResolveColumn(left, q, n).Ok? ==>
              ResolveColumn(left + right, q, n) == ResolveColumn(left, q, n)
    ensures ResolveColumn(left + right, q, n).Ok? && ResolveColumn(right, q, n).Ok? ==>
              ResolveColumn(left + right, q, n).value == |left| + ResolveColumn(right, q, n).value
  {
    var whole, l, r := ResolveColumn(left + right, q, n), ResolveColumn(left, q, n), ResolveColumn(right, q, n);
    if whole.Ok? && l.Ok? {
      assert (left + right)[l.value] == left[l.value];
    }
    if whole.Ok? && r.Ok? {
      assert (left + right)[|left| + r.value] == right[r.value];
    }
  }

  /** For an equality that takes the hash path, the nested loop gives the same verdict on every pair of rows
      if and only if both columns are unambiguous among the columns of the two sides together; otherwise the
      nested loop would report an ambiguous column where the hash join succeeds. */
  lemma HashPathIsExact(db: Db, on: Expr, left: seq<BoundColumn>, right: seq<BoundColumn>, ctes: CteEnv)
    requires HashJoinIndices(on, left, right).Some?
    ensures var (l, r) := HashJoinIndices(on, left, right).value;
            (forall a, b: Row :: |a| == |left| && |b| == |right| ==>
               IsTrue(EvalExpr(db, on, left + right, a + b, None, ctes)) == Ok(CompareSql(Cell(a, l), Cell(b, r), Eq) == True))
            <==> ResolveInBoth(on, left, right)
  {
    var (l, r) := HashJoinIndices(on, left, right).value;
    if ResolveInBoth(on, left, right) {
      forall a: Row, b: Row | |a| == |left| && |b| == |right|
        ensures IsTrue(EvalExpr(db, on, left + right, a + b, None, ctes)) == Ok(CompareSql(Cell(a, l), Cell(b, r), Eq) == True)
      {
        ResolvedVerdict(db, on, left, right, a, b, ctes);
      }
    } else {
      var a, b := Nulls(|left|), Nulls(|right|);
      AmbiguousFails(db, on, left, right, a, b, ctes);
      assert |a| == |left| && |b| == |right|;
    }
  }

  lemma AmbiguousFails(db: Db, on: Expr, left: seq<BoundColumn>, right: seq<BoundColumn>, a: Row, b: Row, ctes: CteEnv)
    requires HashJoinIndices(on, left, right).Some? && !ResolveInBoth(on, left, right)
    ensures IsTrue(EvalExpr(db, on, left + right, a + b, None, ctes)).Err?
  {
    var x, y := EvalExpr(db, on.left, left + right, a + b, None, ctes), EvalExpr(db, on.right, left + right, a + b, None, ctes);
    assert x == ColumnOf(left + right, a + b, on.left.qualifier, on.left.name);
    assert y == ColumnOf(left + right, a + b, on.right.qualifier, on.right.name);
  }

  lemma EqualityCommutes(a: Value, b: Value)
    ensures CompareSql(a, b, Eq) == CompareSql(b, a, Eq)
  {
    if a.Text? && b.Text? {
      TextEqualityCommutes(a.s, b.s);
    }
  }

  lemma {:induction false} TextEqualityCommutes(a: string, b: string)
    ensures CompareText(a, b) == Equal <==> CompareText(b, a) == Equal
    decreases a
  {
    if a != "" && b != "" {
      TextEqualityCommutes(a[1..], b[1..]);
    }
  }

  lemma CombinedCell(left: seq<BoundColumn>, right: seq<BoundColumn>, a: Row, b: Row, q: Option<string>, n: string)
    requires |a| == |left| && |b| == |right| && ResolveColumn(left + right, q, n).Ok?
    ensures ResolveColumn(left, q, n).Ok? ==> ColumnOf(left + right, a + b, q, n) == Ok(Cell(a, ResolveColumn(left, q, n).value))
    ensures ResolveColumn(right, q, n).Ok? ==> ColumnOf(left + right, a + b, q, n) == Ok(Cell(b, ResolveColumn(right, q, n).value))
  {
    ResolveWhole(left, right, q, n);
  }

  /** The verdict of the equality on the combined row, from the cells of the two sides. */
  lemma CombinedCells(on: Expr, left: seq<BoundColumn>, right: seq<BoundColumn>, a: Row, b: Row)
    requires HashJoinIndices(on, left, right).Some? && ResolveInBoth(on, left, right) && |a| == |left| && |b| == |right|
    ensures var (l, r) := HashJoinIndices(on, left, right).value;
            var x := ColumnOf(left + right, a + b, on.left.qualifier, on.left.name);
            var y := ColumnOf(left + right, a + b, on.right.qualifier, on.right.name);
            (x == Ok(Cell(a, l)) && y == Ok(Cell(b, r))) || (x == Ok(Cell(b, r)) && y == Ok(Cell(a, l)))
  {
    CombinedCell(left, right, a, b, on.left.qualifier, on.left.name);
    CombinedCell(left, right, a, b, on.right.qualifier, on.right.name);
  }

  lemma ResolvedVerdict(db: Db, on: Expr, left: seq<BoundColumn>, right: seq<BoundColumn>, a: Row, b: Row, ctes: CteEnv)
    requires HashJoinIndices(on, left, right).Some? && ResolveInBoth(on, left, right) && |a| == |left| && |b| == |right|
    ensures var (l, r) := HashJoinIndices(on, left, right).value;
            IsTrue(EvalExpr(db, on, left + right, a + b, None, ctes)) == Ok(CompareSql(Cell(a, l), Cell(b, r), Eq) == True)
  {
    var (l, r) := HashJoinIndices(on, left, right).value;
    CombinedCells(on, left, right, a, b);
    EqualityCommutes(Cell(a, l), Cell(b, r));
    var x, y := EvalExpr(db, on.left, left + right, a + b, None, ctes), EvalExpr(db, on.right, left + right, a + b, None, ctes);
    EqualityVerdict(x, y);
  }

  lemma EqualityVerdict(x: Result<Value>, y: Result<Value>)
    requires x.Ok? && y.Ok?
    ensures IsTrue(BinaryOf(Compare(Eq), x, y)) == Ok(CompareSql(x.value, y.value, Eq) == True)
  {
  }
}
