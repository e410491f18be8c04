/** An index probe never misses: candidate_row_ids keeps every row on which the WHERE clause is TRUE,
    whichever index wins (src/sql/executor.rs). */
module IndexScan {
  import opened Wrappers
  import opened Ascii
  import opened Values
  import opened Syntax
  import opened Bloom
  import opened Relations
  import opened Tables
  import opened Evaluator

  // ---------------------------------------------- key order against SQL comparison

  predicate IsProbeOp(op: ComparisonOp) {
    op == Eq || IsRangeOp(op)
  }

  predicate HasType(cell: Value, t: DataType) {
    cell.Null? || TypeOf(cell) == t
  }

  /** When probing a column of type t with this literal misses no row: keys of different number types
      are ordered by type and not by value. */
  predicate CrossSafe(t: DataType, literal: Value, op: ComparisonOp) {
    if t == IntegerType && literal.Float? then
      op == Lt || op == Le || (op == Eq && literal.f.Floor as real != literal.f)
    else if t == FloatType && literal.Integer? then op == Gt || op == Ge
    else true
  }

  ghost predicate ProbeMissesNothing(t: DataType, literal: Value, op: ComparisonOp) {
    forall cell :: HasType(cell, t) && CompareSql(cell, literal, op) == True ==> ComparePart(PartOf(cell), PartOf(literal), op)
  }

  /** A probe finds every cell that SQL comparison accepts if and only if it is cross-safe. */
  lemma ProbeExactness(t: DataType, literal: Value, op: ComparisonOp)
    requires IsProbeOp(op) && t != NullType
    ensures ProbeMissesNothing(t, literal, op) <==> CrossSafe(t, literal, op)
  {
    if t == IntegerType && literal.Float? {
      var below, above := Integer(literal.f.Floor), Integer(literal.f.Floor + 1);
      assert HasType(below, t) && HasType(above, t);
      assert !ComparePart(PartOf(below), PartOf(literal), Eq);
      assert CompareSql(above, literal, Gt) == True && !ComparePart(PartOf(above), PartOf(literal), Gt);
      assert !ComparePart(PartOf(above), PartOf(literal), Ge);
    } else if t == FloatType && literal.Integer? {
      var below, same := Float(literal.i as real - 1.0), Float(literal.i as real);
      assert HasType(below, t) && HasType(same, t);
      assert CompareSql(same, literal, Eq) == True && !ComparePart(PartOf(same), PartOf(literal), Eq);
      assert CompareSql(below, literal, Lt) == True && !ComparePart(PartOf(below), PartOf(literal), Lt);
      assert !ComparePart(PartOf(below), PartOf(literal), Le);
    }
  }

  // ------------------------------------------------------ conjuncts of a TRUE selection

  lemma {:induction false} CompareTextFlips(a: string, b: string)
    ensures CompareText(a, b) == Less <==> CompareText(b, a) == Greater
    ensures CompareText(a, b) == Equal <==> CompareText(b, a) == Equal
    decreases a
  {
    if a != "" && b != "" {
      CompareTextFlips(a[1..], b[1..]);
    }
  }

  /** Swapping the sides of a comparison reverses its operator. */
  lemma ComparisonFlips(a: Value, b: Value, op: ComparisonOp)
    requires op != LikeOp
    ensures CompareSql(a, b, op) == CompareSql(b, a, ReverseComparison(op))
  {
    if a.Text? && b.Text? {
      CompareTextFlips(a.s, b.s);
      CompareTextFlips(b.s, a.s);
    }
  }

  ghost predicate PredicateHolds(p: IndexPredicate, columns: seq<BoundColumn>, row: Row) {
    var at := ResolveColumn(columns, p.qualifier, p.column);
    at.Ok? && at.value < |row| && CompareSql(row[at.value], p.value, p.op) == True
  }

  lemma BothSidesTrue(a: Result<Value>, b: Result<Value>)
    requires IsTrue(BinaryOf(And, a, b)) == Ok(true)
    ensures IsTrue(a) == Ok(true) && IsTrue(b) == Ok(true)
  {
  }

  lemma ComparedTrue(a: Result<Value>, b: Result<Value>, op: ComparisonOp)
    requires IsTrue(BinaryOf(Compare(op), a, b)) == Ok(true)
    ensures a.Ok? && b.Ok? && CompareSql(a.value, b.value, op) == True
  {
  }

  /** A comparison of a column with a literal, either way round, that is TRUE on a row. */
  lemma ComparisonHolds(e: Expr, columns: seq<BoundColumn>, row: Row, p: IndexPredicate)
    requires e.Binary? && e.op.Compare? && p in CollectIndexPredicates(e) && IsProbeOp(p.op)
    requires e.left.Column? && e.right.Literal? ==>
               IsTrue(BinaryOf(e.op, ColumnOf(columns, row, e.left.qualifier, e.left.name), Ok(e.right.value))) == Ok(true)
    requires e.left.Literal? && e.right.Column? ==>
               IsTrue(BinaryOf(e.op, Ok(e.left.value), ColumnOf(columns, row, e.right.qualifier, e.right.name))) == Ok(true)
    ensures PredicateHolds(p, columns, row)
  {
    if e.left.Literal? {
      var cell := ColumnOf(columns, row, e.right.qualifier, e.right.name);
      ComparedTrue(Ok(e.left.value), cell, e.op.comparison);
      ComparisonFlips(e.left.value, cell.value, e.op.comparison);
    } else {
      ComparedTrue(ColumnOf(columns, row, e.left.qualifier, e.left.name), Ok(e.right.value), e.op.comparison);
    }
  }

  /** Every collected comparison is TRUE on a row whose selection is TRUE. */
  lemma {:induction false} ConjunctsHold(db: Db, e: Expr, columns: seq<BoundColumn>, row: Row, ctes: CteEnv, p: IndexPredicate)
    requires p in CollectIndexPredicates(e) && IsProbeOp(p.op)
    requires IsTrue(EvalExpr(db, e, columns, row, None, ctes)) == Ok(true)
    ensures PredicateHolds(p, columns, row)
    decreases e
  {
    var left, right := EvalExpr(db, e.left, columns, row, None, ctes), EvalExpr(db, e.right, columns, row, None, ctes);
    if e.op.And? {
      BothSidesTrue(left, right);
      if p in CollectIndexPredicates(e.left) {
        ConjunctsHold(db, e.left, columns, row, ctes, p);
      } else {
        ConjunctsHold(db, e.right, columns, row, ctes, p);
      }
    } else {
      ComparisonHolds(e, columns, row, p);
    }
  }

  // ---------------------------------------------------------------- valid tables

  /** Every row has the width of the schema and every cell the type of its column. */
  ghost predicate Typed(schema: TableSchema, rows: seq<Row>) {
    forall i :: 0 <= i < |rows| ==>
      |rows[i]| == |schema.columns|
      && forall c :: 0 <= c < |schema.columns| ==> HasType(rows[i][c], schema.columns[c].dataType)
  }

  /** Every index is over columns that exist. */
  ghost predicate KeysExist(t: Table)
    requires t.Indexed?
  {
    forall i, k :: 0 <= i < |t.indexes| && 0 <= k < |t.indexes[i].definition.columns| ==>
      ColumnIndex(t.schema.columns, t.indexes[i].definition.columns[k]).Some?
  }

  ghost predicate ValidTable(t: Table) {
    Consistent(t) && Typed(t.schema, t.rows) && KeysExist(t)
  }

  ghost predicate ValidDb(db: Db) {
    forall name :: name in db ==> ValidTable(db[name])
  }

  lemma {:induction false} KeyIsDefined(columns: seq<ColumnDef>, key: seq<string>, row: Row)
    requires |row| == |columns|
    requires forall k :: 0 <= k < |key| ==> ColumnIndex(columns, key[k]).Some?
    ensures KeyOf(columns, key, row).Some?
    decreases key
  {
    if key != [] {
      KeyIsDefined(columns, key[1..], row);
    }
  }

  // ---------------------------------------------------------- usable predicates

  /** p may steer a probe of t: its column is part of some index. */
  ghost predicate Usable(t: Table, p: IndexPredicate)
    requires t.Indexed?
  {
    IsProbeOp(p.op)
    && exists i, k :: 0 <= i < |t.indexes| && 0 <= k < |t.indexes[i].definition.columns|
                      && SameName(p.column, t.indexes[i].definition.columns[k])
  }

  /** What the engine does not check before it probes: that the comparison is about this table, and that
      the literal meets the column's keys. */
  ghost predicate SafePredicate(t: Table, visible: string, p: IndexPredicate) {
    && (p.qualifier.Some? ==> SameName(visible, p.qualifier.value))
    && forall c :: 0 <= c < |t.schema.columns| && SameName(t.schema.columns[c].name, p.column) ==>
         CrossSafe(t.schema.columns[c].dataType, p.value, p.op)
  }

  ghost predicate SafeSelection(t: Table, visible: string, selection: Option<Expr>)
    requires t.Indexed?
  {
    selection.Some? ==>
      forall p :: p in CollectIndexPredicates(selection.value) && Usable(t, p) ==> SafePredicate(t, visible, p)
  }

  /** A relation whose first columns are those of t. */
  ghost predicate StartsWithTable(t: Table, visible: string, columns: seq<BoundColumn>) {
    TableColumns(t, visible) <= columns
  }

  /** The table's own cell satisfies the comparison. */
  predicate CellHolds(columns: seq<ColumnDef>, own: Row, p: IndexPredicate, column: string) {
    var c := ColumnIndex(columns, column);
    c.Some? && c.value < |own| && CompareSql(own[c.value], p.value, p.op) == True
  }

  /** One predicate that holds on a joined row holds on the table's own cell. */
  lemma PredicateOnCell(t: Table, visible: string, p: IndexPredicate, column: string, columns: seq<BoundColumn>, row: Row)
    requires ColumnIndex(t.schema.columns, column).Some? && SameName(p.column, column)
    requires StartsWithTable(t, visible, columns) && |t.schema.columns| <= |row|
    requires SafePredicate(t, visible, p) && PredicateHolds(p, columns, row)
    ensures CellHolds(t.schema.columns, row[..|t.schema.columns|], p, column)
  {
    var c := ColumnIndex(t.schema.columns, column).value;
    assert columns[c] == TableColumns(t, visible)[c];
    assert ColumnMatches(columns[c], p.qualifier, p.column);
    assert ResolveColumn(columns, p.qualifier, p.column) == Ok(c);
  }

  /** On a typed cell, the comparison that holds also holds between keys. */
  lemma HeldIsAdmitted(t: Table, visible: string, p: IndexPredicate, column: string, own: Row)
    requires SameName(p.column, column) && IsProbeOp(p.op) && SafePredicate(t, visible, p)
    requires |own| == |t.schema.columns| && CellHolds(t.schema.columns, own, p, column)
    requires forall c :: 0 <= c < |t.schema.columns| ==> HasType(own[c], t.schema.columns[c].dataType)
    ensures CellAdmits(t.schema.columns, own, p, column)
  {
    var c := ColumnIndex(t.schema.columns, column).value;
    if t.schema.columns[c].dataType != NullType {
      ProbeExactness(t.schema.columns[c].dataType, p.value, p.op);
    }
  }

  lemma AdmittedCons(part: KeyPart, key: IndexKey, probe: Probe)
    requires Admitted(key, probe)
    ensures Admitted([part] + key, Probe([part] + probe.prefix, probe.range))
  {
  }

  /** The row's own cell satisfies the predicate as a key comparison. */
  predicate CellAdmits(columns: seq<ColumnDef>, own: Row, p: IndexPredicate, column: string) {
    var c := ColumnIndex(columns, column);
    c.Some? && c.value < |own| && ComparePart(PartOf(own[c.value]), PartOf(p.value), p.op)
  }

  /** A probe admits the key of every row whose cells satisfy all its predicates. */
  lemma {:induction false} ProbeAdmits(columns: seq<ColumnDef>, key: seq<string>, predicates: seq<IndexPredicate>, own: Row)
    requires KeyOf(columns, key, own).Some?
    requires forall p, k :: p in predicates && IsProbeOp(p.op) && 0 <= k < |key| && SameName(p.column, key[k]) ==>
               CellAdmits(columns, own, p, key[k])
    ensures Admitted(KeyOf(columns, key, own).value, ProbeFor(key, predicates))
    decreases key
  {
    if key != [] {
      var found := FindPredicate(predicates, key[0]);
      if found.Some? && IsProbeOp(found.value.op) {
        var p := found.value;
        assert CellAdmits(columns, own, p, key[0]);
        if p.op == Eq {
          SameOrderSamePart(PartOf(own[ColumnIndex(columns, key[0]).value]), PartOf(p.value));
          ProbeAdmits(columns, key[1..], predicates, own);
          AdmittedCons(PartOf(p.value), KeyOf(columns, key[1..], own).value, ProbeFor(key[1..], predicates));
        }
      }
    }
  }

  lemma {:induction false} SameTextWhenEqual(a: string, b: string)
    requires CompareText(a, b) == Equal
    ensures a == b
    decreases a
  {
    if a != "" {
      SameTextWhenEqual(a[1..], b[1..]);
    }
  }

  lemma SameOrderSamePart(a: KeyPart, b: KeyPart)
    requires OrderParts(a, b) == Equal
    ensures a == b
  {
    if a.TextPart? && b.TextPart? {
      SameTextWhenEqual(a.s, b.s);
    }
  }

  lemma ProbeFindsRow(t: Table, i: nat, p: nat, probe: Probe)
    requires Consistent(t) && i < |t.indexes| && p < |t.rows|
    requires KeyOf(t.schema.columns, t.indexes[i].definition.columns, t.rows[p]).Some?
    requires Admitted(KeyOf(t.schema.columns, t.indexes[i].definition.columns, t.rows[p]).value, probe)
    ensures t.rowIds[p] in ProbeIds(t.indexes[i], probe)
  {
    var index := t.indexes[i];
    var key := KeyOf(t.schema.columns, index.definition.columns, t.rows[p]).value;
    assert IndexAgrees(index, t.schema.columns, t.rows, t.rowIds);
    assert key in index.entries && t.rowIds[p] in index.entries[key];
    if |probe.prefix| == |index.definition.columns| {
      assert key == probe.prefix;
    }
  }

  /** The winning probe is one of the probes made. */
  lemma {:induction false} BestIsAProbe(indexes: seq<BTreeIndex>, predicates: seq<IndexPredicate>) returns (i: nat)
    requires BestCandidates(indexes, predicates).Some?
    ensures i < |indexes|
    ensures BestCandidates(indexes, predicates).value.ids == ProbeIds(indexes[i], ProbeFor(indexes[i].definition.columns, predicates))
    ensures Score(ProbeFor(indexes[i].definition.columns, predicates)) > 0
    decreases indexes
  {
    var last := |indexes| - 1;
    var best := BestCandidates(indexes[..last], predicates);
    if best == BestCandidates(indexes, predicates) {
      i := BestIsAProbe(indexes[..last], predicates);
    } else {
      i := last;
    }
  }

  /** The own cells satisfy every collected comparison on the columns of this key. */
  predicate AllHold(columns: seq<ColumnDef>, key: seq<string>, predicates: seq<IndexPredicate>, own: Row) {
    forall p, k :: p in predicates && IsProbeOp(p.op) && 0 <= k < |key| && SameName(p.column, key[k]) ==>
      CellHolds(columns, own, p, key[k])
  }

  /** Where a selection is TRUE, all its comparisons hold on the own cells. */
  lemma SelectedHolds(db: Db, t: Table, visible: string, selection: Expr, i: nat, columns: seq<BoundColumn>, row: Row, ctes: CteEnv)
    requires ValidTable(t) && i < |t.indexes| && SafeSelection(t, visible, Some(selection))
    requires StartsWithTable(t, visible, columns) && |t.schema.columns| <= |row|
    requires IsTrue(EvalExpr(db, selection, columns, row, None, ctes)) == Ok(true)
    ensures AllHold(t.schema.columns, t.indexes[i].definition.columns, CollectIndexPredicates(selection), row[..|t.schema.columns|])
  {
    var predicates, key := CollectIndexPredicates(selection), t.indexes[i].definition.columns;
    forall p, k | p in predicates && IsProbeOp(p.op) && 0 <= k < |key| && SameName(p.column, key[k])
      ensures CellHolds(t.schema.columns, row[..|t.schema.columns|], p, key[k])
    {
      assert Usable(t, p);
      ConjunctsHold(db, selection, columns, row, ctes, p);
      PredicateOnCell(t, visible, p, key[k], columns, row);
    }
  }

  /** A row whose cells satisfy them is a candidate. */
  lemma HoldingIsCandidate(t: Table, visible: string, selection: Expr, i: nat, p: nat)
    requires ValidTable(t) && p < |t.rows| && i < |t.indexes| && SafeSelection(t, visible, Some(selection))
    requires AllHold(t.schema.columns, t.indexes[i].definition.columns, CollectIndexPredicates(selection), t.rows[p])
    ensures t.rowIds[p] in ProbeIds(t.indexes[i], ProbeFor(t.indexes[i].definition.columns, CollectIndexPredicates(selection)))
  {
    var predicates, key := CollectIndexPredicates(selection), t.indexes[i].definition.columns;
    forall q, k | q in predicates && IsProbeOp(q.op) && 0 <= k < |key| && SameName(q.column, key[k])
      ensures CellAdmits(t.schema.columns, t.rows[p], q, key[k])
    {
      assert Usable(t, q);
      HeldIsAdmitted(t, visible, q, key[k], t.rows[p]);
    }
    KeyIsDefined(t.schema.columns, key, t.rows[p]);
    ProbeAdmits(t.schema.columns, key, predicates, t.rows[p]);
    ProbeFindsRow(t, i, p, ProbeFor(key, predicates));
  }

  /** A row of NULLs satisfies no comparison, and a probe that counts makes at least one. */
  lemma NullsHoldNothing(columns: seq<ColumnDef>, key: seq<string>, predicates: seq<IndexPredicate>)
    requires Score(ProbeFor(key, predicates)) > 0
    ensures !AllHold(columns, key, predicates, Nulls(|columns|))
  {
    var p := FindPredicate(predicates, key[0]).value;
    assert p in predicates && IsProbeOp(p.op) && SameName(p.column, key[0]);
    assert !CellHolds(columns, Nulls(|columns|), p, key[0]);
  }

  /** candidate_row_ids keeps the id of every row on which the selection is TRUE, also when the row
      has been extended by joins. */
  lemma CandidatesAreComplete(db: Db, t: Table, visible: string, selection: Expr, columns: seq<BoundColumn>, row: Row, ctes: CteEnv, p: nat)
    requires ValidTable(t) && p < |t.rows| && SafeSelection(t, visible, Some(selection))
    requires StartsWithTable(t, visible, columns) && t.rows[p] <= row
    requires IsTrue(EvalExpr(db, selection, columns, row, None, ctes)) == Ok(true)
    ensures IsCandidate(t, CandidateRowIds(t, Some(selection)), p)
  {
    if CandidateRowIds(t, Some(selection)).Some? {
      var i := BestIsAProbe(t.indexes, CollectIndexPredicates(selection));
      assert row[..|t.schema.columns|] == t.rows[p];
      SelectedHolds(db, t, visible, selection, i, columns, row, ctes);
      HoldingIsCandidate(t, visible, selection, i, p);
    }
  }
}
