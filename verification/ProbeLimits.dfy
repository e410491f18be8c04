/** When a probe with one comparison excludes a joined row on which that comparison is TRUE: exactly when the
    comparison is about another column, or about keys of another type, and it matters (candidate_row_ids and
    collect_index_predicates in src/sql/executor.rs). */
module ProbeLimits {
  import opened Wrappers
  import opened Ascii
  import opened Values
  import opened Syntax
  import opened Bloom
  import opened Relations
  import opened Tables
  import opened Evaluator
  import opened IndexScan
  import opened TableEngine
  import opened DeclaredKeys
  import opened Limits

  // ------------------------------------------------------- literals that match nothing, or everything

  /** No value satisfies the comparison. */
  predicate MatchesNothing(v: Value, op: ComparisonOp) {
    || v.Null?
    || (op == Lt && (v == Boolean(false) || v == Text("")))
    || (op == Gt && v == Boolean(true))
  }

  /** A value that satisfies the comparison. */
  function Matching(v: Value, op: ComparisonOp): Value {
    match op
    case Lt =>
      (match v case Integer(i) => Integer(i - 1) case Float(f) => Float(f - 1.0) case Text(_) => Text("") case _ => Boolean(false))
    case Gt =>
      (match v case Integer(i) => Integer(i + 1) case Float(f) => Float(f + 1.0) case Text(s) => Text(s + "a") case _ => Boolean(true))
    case _ => v
  }

  lemma {:induction false} LongerIsGreater(s: string)
    ensures CompareText(s + "a", s) == Greater
    decreases s
  {
    if s != "" {
      assert (s + "a")[1..] == s[1..] + "a";
      LongerIsGreater(s[1..]);
    }
  }

  lemma {:induction false} SameTextIsEqual(s: string)
    ensures CompareText(s, s) == Equal
    decreases s
  {
    if s != "" {
      SameTextIsEqual(s[1..]);
    }
  }

  lemma NothingMatches(v: Value, op: ComparisonOp)
    requires IsProbeOp(op)
    ensures MatchesNothing(v, op) <==> forall cell :: CompareSql(cell, v, op) != True
  {
    if !MatchesNothing(v, op) {
      if v.Text? {
        LongerIsGreater(v.s);
        SameTextIsEqual(v.s);
      }
      assert CompareSql(Matching(v, op), v, op) == True;
    } else if v.Text? {
      forall cell ensures CompareSql(cell, v, op) != True {
      }
    }
  }

  function TypeVariant(t: DataType): nat {
    match t
    case NullType => 0
    case BooleanType => 1
    case IntegerType => 2
    case FloatType => 3
    case TextType => 4
  }

  /** A cell that a column of this type may hold. */
  predicate MayHold(cell: Value, t: DataType, nullable: bool) {
    HasType(cell, t) && (cell.Null? ==> nullable)
  }

  /** Keys of every cell of the column satisfy the comparison; those of a column that may be NULL begin with that
      of NULL. */
  predicate AdmitsEvery(t: DataType, nullable: bool, v: Value, op: ComparisonOp) {
    || ((op == Lt || op == Le) && TypeVariant(t) < Variant(PartOf(v)))
    || (op == Le && t == BooleanType && v == Boolean(true))
    || (!nullable && (op == Gt || op == Ge) && TypeVariant(t) > Variant(PartOf(v)))
    || (!nullable && op == Ge && ((t == BooleanType && v == Boolean(false)) || (t == TextType && v == Text(""))))
  }

  /** A value of the type that differs from v, on the side asked for. */
  function Beside(t: DataType, v: Value, above: bool): Value {
    match t
    case BooleanType => Boolean(above)
    case IntegerType => Integer(if !v.Integer? then 0 else if above then v.i + 1 else v.i - 1)
    case FloatType => Float(if !v.Float? then 0.0 else if above then v.f + 1.0 else v.f - 1.0)
    case TextType => Text(if v.Text? && above then v.s + "a" else "")
    case NullType => Null
  }

  /** A cell of the column whose key does not satisfy it. */
  function Refused(t: DataType, nullable: bool, v: Value, op: ComparisonOp): Value {
    if op == Lt || op == Le then Beside(t, v, true)
    else if nullable then Null
    else if op == Eq then Beside(t, v, v != Boolean(true))
    else Beside(t, v, false)
  }

  lemma EveryIsAdmitted(t: DataType, nullable: bool, v: Value, op: ComparisonOp)
    requires IsProbeOp(op) && !v.Null? && t != NullType
    ensures AdmitsEvery(t, nullable, v, op) ==> forall cell :: MayHold(cell, t, nullable) ==> ComparePart(PartOf(cell), PartOf(v), op)
  {
  }

  lemma RefusedIsRefused(t: DataType, nullable: bool, v: Value, op: ComparisonOp)
    requires IsProbeOp(op) && !v.Null? && t != NullType && !AdmitsEvery(t, nullable, v, op)
    ensures MayHold(Refused(t, nullable, v, op), t, nullable) && !ComparePart(PartOf(Refused(t, nullable, v, op)), PartOf(v), op)
  {
    if v.Text? {
      LongerIsGreater(v.s);
    }
  }

  // ------------------------------------------------------------------ one comparison, one index

  /** The comparison of a column with a literal. */
  function Comparison(qualifier: Option<string>, name: string, op: ComparisonOp, v: Value): Expr {
    Binary(Column(qualifier, name), Compare(op), Literal(v))
  }

  /** A table of this schema, NOT NULL columns included, whose only index is on this column. */
  ghost predicate HasOnly(t: Table, schema: TableSchema, definition: IndexDef) {
    ValidTable(t) && (forall i :: 0 <= i < |t.rows| ==> ValidateRow(schema, t.rows[i]))
    && t.schema == schema && |t.indexes| == 1 && t.indexes[0].definition == definition
  }

  /** Whatever the table holds: no joined row on which the comparison is TRUE is excluded. */
  ghost predicate NothingExcluded(schema: TableSchema, definition: IndexDef, columns: seq<BoundColumn>, p: IndexPredicate) {
    forall t: Table, at: nat, row: Row ::
      HasOnly(t, schema, definition) && at < |t.rows| && t.rows[at] <= row && |row| == |columns| && PredicateHolds(p, columns, row) ==>
        IsCandidate(t, CandidateRowIds(t, Some(Comparison(p.qualifier, p.column, p.op, p.value))), at)
  }

  /** The name means this table's indexed column, and the literal is compared with its keys as SQL compares; or
      the name means nothing at all; or the literal matches nothing; or it admits every key. */
  predicate SafeComparison(schema: TableSchema, columns: seq<BoundColumn>, c: nat, p: IndexPredicate)
    requires c < |schema.columns|
  {
    var t, meant := schema.columns[c].dataType, ResolveColumn(columns, p.qualifier, p.column);
    || meant.Err?
    || (meant.value == c && CrossSafe(t, p.value, p.op))
    || MatchesNothing(p.value, p.op)
    || AdmitsEvery(t, schema.columns[c].nullable, p.value, p.op)
  }

  /** What the engine probes: the one key part. */
  lemma OneProbe(t: Table, definition: IndexDef, name: string, p: IndexPredicate)
    requires t.Indexed? && |t.indexes| == 1 && t.indexes[0].definition == definition && definition.columns == [name]
    requires IsProbeOp(p.op) && SameName(p.column, name)
    ensures CollectIndexPredicates(Comparison(p.qualifier, p.column, p.op, p.value)) == [p]
    ensures var probe := if p.op == Eq then Probe([PartOf(p.value)], None) else Probe([], Some(Range(p.op, PartOf(p.value))));
            CandidateRowIds(t, Some(Comparison(p.qualifier, p.column, p.op, p.value))) == Some(ProbeIds(t.indexes[0], probe))
  {
    var predicates := [p];
    assert [name][1..] == [] && ProbeFor([], predicates) == Probe([], None);
    assert FindPredicate(predicates, name) == Some(p);
    assert [PartOf(p.value)] + [] == [PartOf(p.value)];
    assert t.indexes[..0] == [] && BestCandidates([], predicates) == None;
    assert BestCandidates(t.indexes, predicates).Some?;
  }

  lemma OwnKey(t: Table, name: string, c: nat, at: nat)
    requires ValidTable(t) && |t.indexes| == 1 && t.indexes[0].definition.columns == [name] && at < |t.rows|
    requires ColumnIndex(t.schema.columns, name) == Some(c)
    ensures KeyOf(t.schema.columns, [name], t.rows[at]) == Some([PartOf(t.rows[at][c])])
  {
    KeyOfOne(t.schema.columns, name, t.rows[at]);
  }

  /** The row is a candidate exactly when its key satisfies the comparison. */
  lemma CandidateByKey(t: Table, definition: IndexDef, name: string, c: nat, p: IndexPredicate, at: nat)
    requires ValidTable(t) && |t.indexes| == 1 && t.indexes[0].definition == definition && definition.columns == [name] && at < |t.rows|
    requires ColumnIndex(t.schema.columns, name) == Some(c) && IsProbeOp(p.op) && SameName(p.column, name)
    ensures IsCandidate(t, CandidateRowIds(t, Some(Comparison(p.qualifier, p.column, p.op, p.value))), at)
            <==> ComparePart(PartOf(t.rows[at][c]), PartOf(p.value), p.op)
  {
    var probe := if p.op == Eq then Probe([PartOf(p.value)], None) else Probe([], Some(Range(p.op, PartOf(p.value))));
    OneProbe(t, definition, name, p);
    OwnKey(t, name, c, at);
    var key := [PartOf(t.rows[at][c])];
    if ComparePart(key[0], PartOf(p.value), p.op) {
      if p.op == Eq {
        SameOrderSamePart(key[0], PartOf(p.value));
      }
      assert Admitted(key, probe);
      ProbeFindsRow(t, 0, at, probe);
    } else if t.rowIds[at] in ProbeIds(t.indexes[0], probe) {
      var found := FoundKey(t, name, c, probe, at);
      assert found == key;
      if p.op == Eq {
        SamePart(PartOf(p.value));
      }
    }
  }

  lemma SamePart(k: KeyPart)
    ensures OrderParts(k, k) == Equal
  {
    if k.TextPart? {
      SameTextIsEqual(k.s);
    }
  }

  /** An id that a probe returns stands under a key that the probe admits, and that is the key of its row. */
  lemma FoundKey(t: Table, name: string, c: nat, probe: Probe, at: nat) returns (key: IndexKey)
    requires ValidTable(t) && |t.indexes| == 1 && t.indexes[0].definition.columns == [name] && at < |t.rows|
    requires ColumnIndex(t.schema.columns, name) == Some(c) && t.rowIds[at] in ProbeIds(t.indexes[0], probe)
    ensures key == [PartOf(t.rows[at][c])] && Admitted(key, probe)
  {
    var index := t.indexes[0];
    assert IndexAgrees(index, t.schema.columns, t.rows, t.rowIds);
    if |probe.prefix| == 1 && probe.range.None? {
      key := probe.prefix;
    } else {
      key :| key in index.entries && Admitted(key, probe) && t.rowIds[at] in index.entries[key];
    }
    assert t.rowIds[at] in IdsFor(t.schema.columns, [name], t.rows, t.rowIds, key);
    var q :| 0 <= q < |t.rows| && KeyOf(t.schema.columns, [name], t.rows[q]) == Some(key) && t.rowIds[q] == t.rowIds[at];
    assert q == at;
    OwnKey(t, name, c, at);
  }

  // -------------------------------------------------------------------- both directions

  lemma SafeExcludesNothing(schema: TableSchema, definition: IndexDef, name: string, c: nat, visible: string, columns: seq<BoundColumn>, p: IndexPredicate, t: Table, at: nat, row: Row)
    requires definition.columns == [name] && ColumnIndex(schema.columns, name) == Some(c) && SameName(p.column, name) && IsProbeOp(p.op)
    requires StartsWithTable(t, visible, columns) && SafeComparison(schema, columns, c, p) && AllTyped(schema.columns)
    requires HasOnly(t, schema, definition) && at < |t.rows| && t.rows[at] <= row && |row| == |columns| && PredicateHolds(p, columns, row)
    ensures IsCandidate(t, CandidateRowIds(t, Some(Comparison(p.qualifier, p.column, p.op, p.value))), at)
  {
    var meant, cell := ResolveColumn(columns, p.qualifier, p.column).value, t.rows[at][c];
    NothingMatches(p.value, p.op);
    assert CompareSql(row[meant], p.value, p.op) == True;
    assert ValidateRow(schema, t.rows[at]) && MayHold(cell, schema.columns[c].dataType, schema.columns[c].nullable);
    if AdmitsEvery(schema.columns[c].dataType, schema.columns[c].nullable, p.value, p.op) {
      EveryIsAdmitted(schema.columns[c].dataType, schema.columns[c].nullable, p.value, p.op);
    } else {
      assert meant == c && row[c] == cell;
      ProbeExactness(schema.columns[c].dataType, p.value, p.op);
    }
    CandidateByKey(t, definition, name, c, p, at);
  }

  /** One row in a table with one index. */
  function TableOf(schema: TableSchema, definition: IndexDef, row: Row): Table {
    Indexed(schema, [row], [1], 2,
            [BTreeIndex(definition, EntriesOf(schema.columns, definition.columns, [row], [1]), BloomBits([0xFFFF_FFFF_FFFF_FFFF], 1))])
  }

  lemma TableOfIsValid(schema: TableSchema, definition: IndexDef, name: string, c: nat, row: Row)
    requires definition.columns == [name] && ColumnIndex(schema.columns, name) == Some(c)
    requires |row| == |schema.columns| && forall k :: 0 <= k < |row| ==> MayHold(row[k], schema.columns[k].dataType, schema.columns[k].nullable)
    ensures HasOnly(TableOf(schema, definition, row), schema, definition)
  {
    var t := TableOf(schema, definition, row);
    AllBitsPass(t.indexes[0].bloom);
    assert ValidateRow(schema, row);
    assert IndexAgrees(t.indexes[0], schema.columns, t.rows, t.rowIds);
  }

  /** A row of the table with a given cell. */
  function OwnRow(schema: TableSchema, c: nat, cell: Value): (r: Row)
    requires c < |schema.columns|
    ensures |r| == |schema.columns| && r[c] == cell
  {
    seq(|schema.columns|, i requires 0 <= i < |schema.columns| => if i == c then cell else Sample(schema.columns[i].dataType, false))
  }

  lemma OwnRowFits(schema: TableSchema, c: nat, cell: Value)
    requires c < |schema.columns| && AllTyped(schema.columns) && MayHold(cell, schema.columns[c].dataType, schema.columns[c].nullable)
    ensures var row := OwnRow(schema, c, cell);
            forall k :: 0 <= k < |row| ==> MayHold(row[k], schema.columns[k].dataType, schema.columns[k].nullable)
  {
    forall k | 0 <= k < |schema.columns|
      ensures var v := Sample(schema.columns[k].dataType, false);
              !v.Null? && TypeOf(v) == schema.columns[k].dataType
    {
      SamplesDiffer(schema.columns[k].dataType, false);
    }
  }

  /** An unsafe comparison excludes a row: the cell of its own column, and the cell that is meant. */
  lemma UnsafeExcludes(schema: TableSchema, definition: IndexDef, name: string, c: nat, visible: string, columns: seq<BoundColumn>, p: IndexPredicate)
    requires definition.columns == [name] && ColumnIndex(schema.columns, name) == Some(c) && SameName(p.column, name) && IsProbeOp(p.op)
    requires TableColumns(Plain(schema, []), visible) <= columns && AllTyped(schema.columns)
    requires !SafeComparison(schema, columns, c, p)
    ensures !NothingExcluded(schema, definition, columns, p)
  {
    var meant, kind := ResolveColumn(columns, p.qualifier, p.column).value, schema.columns[c].dataType;
    var own, cell := UnsafeCells(schema, visible, columns, c, p);
    var t := TableOf(schema, definition, OwnRow(schema, c, own));
    OwnRowFits(schema, c, own);
    TableOfIsValid(schema, definition, name, c, OwnRow(schema, c, own));
    var row := (OwnRow(schema, c, own) + Nulls(|columns| - |schema.columns|))[meant := cell];
    assert t.rows[0] <= row by {
      if meant < |schema.columns| {
        assert meant == c && cell == own;
      }
    }
    assert PredicateHolds(p, columns, row);
    CandidateByKey(t, definition, name, c, p, 0);
    assert t.rows[0] == OwnRow(schema, c, own);
  }

  /** A cell of the own column whose key is refused, and a cell that the comparison accepts. They are one when
      the comparison is about the own column. */
  lemma UnsafeCells(schema: TableSchema, visible: string, columns: seq<BoundColumn>, c: nat, p: IndexPredicate) returns (own: Value, cell: Value)
    requires c < |schema.columns| && SameName(schema.columns[c].name, p.column) && IsProbeOp(p.op)
    requires TableColumns(Plain(schema, []), visible) <= columns && AllTyped(schema.columns)
    requires !SafeComparison(schema, columns, c, p)
    ensures MayHold(own, schema.columns[c].dataType, schema.columns[c].nullable) && !ComparePart(PartOf(own), PartOf(p.value), p.op)
    ensures CompareSql(cell, p.value, p.op) == True
    ensures var meant := ResolveColumn(columns, p.qualifier, p.column);
            meant.Ok? && (meant.value < |schema.columns| ==> meant.value == c && cell == own)
  {
    var meant, kind := ResolveColumn(columns, p.qualifier, p.column).value, schema.columns[c].dataType;
    if meant == c {
      ProbeExactness(kind, p.value, p.op);
      own :| HasType(own, kind) && CompareSql(own, p.value, p.op) == True && !ComparePart(PartOf(own), PartOf(p.value), p.op);
      cell := own;
    } else {
      assert columns[c] == TableColumns(Plain(schema, []), visible)[c];
      assert !ColumnMatches(columns[c], p.qualifier, p.column);
      assert forall j :: 0 <= j < |schema.columns| ==> columns[j] == TableColumns(Plain(schema, []), visible)[j];
      NothingMatches(p.value, p.op);
      RefusedIsRefused(kind, schema.columns[c].nullable, p.value, p.op);
      own := Refused(kind, schema.columns[c].nullable, p.value, p.op);
      cell :| CompareSql(cell, p.value, p.op) == True;
    }
  }

  /** Whatever a table of this schema holds, the probe excludes no joined row on which the comparison is TRUE,
      if and only if the comparison is safe. */
  lemma ProbeIsExactIffSafe(schema: TableSchema, definition: IndexDef, name: string, c: nat, visible: string, columns: seq<BoundColumn>, p: IndexPredicate)
    requires definition.columns == [name] && ColumnIndex(schema.columns, name) == Some(c) && SameName(p.column, name) && IsProbeOp(p.op)
    requires TableColumns(Plain(schema, []), visible) <= columns && AllTyped(schema.columns)
    ensures NothingExcluded(schema, definition, columns, p) <==> SafeComparison(schema, columns, c, p)
  {
    if SafeComparison(schema, columns, c, p) {
      forall t: Table, at: nat, row: Row
        | HasOnly(t, schema, definition) && at < |t.rows| && t.rows[at] <= row && |row| == |columns| && PredicateHolds(p, columns, row)
        ensures IsCandidate(t, CandidateRowIds(t, Some(Comparison(p.qualifier, p.column, p.op, p.value))), at)
      {
        assert TableColumns(t, visible) == TableColumns(Plain(schema, []), visible);
        SafeExcludesNothing(schema, definition, name, c, visible, columns, p, t, at, row);
      }
    } else {
      UnsafeExcludes(schema, definition, name, c, visible, columns, p);
    }
  }
}
