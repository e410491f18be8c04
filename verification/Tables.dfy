/** Tables as values: rows, row ids and runtime indexes, and the index probe that
    narrows a scan (Table, BTreeIndex and candidate_row_ids in src/sql/executor.rs). */
module Tables {
  import opened Wrappers
  import opened Ascii
  import opened Values
  import opened Syntax
  import opened Bloom

  // ---------------------------------------------------------------- index keys

  /** TableSchema::column_index: the first column of that name, ignoring case. */
  function ColumnIndex(columns: seq<ColumnDef>, name: string): (r: Option<nat>)
    ensures r.Some? ==> r.value < |columns| && SameName(columns[r.value].name, name)
    ensures r.Some? ==> forall j :: 0 <= j < r.value ==> !SameName(columns[j].name, name)
    ensures r.None? ==> forall j :: 0 <= j < |columns| ==> !SameName(columns[j].name, name)
  {
    if columns == [] then None
    else if SameName(columns[0].name, name) then Some(0)
    else
      var rest := ColumnIndex(columns[1..], name);
      if rest.Some? then Some(rest.value + 1) else
        assert forall j :: 1 <= j < |columns| ==> columns[j] == columns[1..][j - 1];
        None
  }

  /** Table::index_key: None when a key column is missing from the schema or the row. */
  function KeyOf(columns: seq<ColumnDef>, key: seq<string>, row: Row): (r: Option<IndexKey>)
    ensures r.Some? ==> |r.value| == |key|
    ensures r.Some? ==> forall k :: 0 <= k < |key| ==>
              var c := ColumnIndex(columns, key[k]);
              c.Some? && c.value < |row| && r.value[k] == PartOf(row[c.value])
  {
    if key == [] then Some([])
    else
      var c := ColumnIndex(columns, key[0]);
      var rest := KeyOf(columns, key[1..], row);
      if c.None? || c.value >= |row| || rest.None? then None
      else Some([PartOf(row[c.value])] + rest.value)
  }

  datatype BTreeIndex = BTreeIndex(definition: IndexDef, entries: map<IndexKey, set<nat>>, bloom: BloomFilter)

  /** Plain is a table reduced to its meaning, a schema and rows. Indexed is the table the engine keeps.
      indexes is the engine's name-to-index hash map, listed in its iteration order. */
  datatype Table =
    | Plain(schema: TableSchema, rows: seq<Row>)
    | Indexed(schema: TableSchema, rows: seq<Row>, rowIds: seq<nat>, nextRowId: nat, indexes: seq<BTreeIndex>)

  function Meaning(t: Table): Table {
    Plain(t.schema, t.rows)
  }

  // ------------------------------------------------- declarative index contents

  function IdsFor(columns: seq<ColumnDef>, key: seq<string>, rows: seq<Row>, ids: seq<nat>, k: IndexKey): set<nat>
    requires |ids| == |rows|
  {
    set p | 0 <= p < |rows| && KeyOf(columns, key, rows[p]) == Some(k) :: ids[p]
  }

  /** What the entries of an index over these rows must be: each occurring key with the ids of its rows. */
  function EntriesOf(columns: seq<ColumnDef>, key: seq<string>, rows: seq<Row>, ids: seq<nat>): map<IndexKey, set<nat>>
    requires |ids| == |rows|
  {
    var keys := set p | 0 <= p < |rows| && KeyOf(columns, key, rows[p]).Some? :: KeyOf(columns, key, rows[p]).value;
    map k | k in keys :: IdsFor(columns, key, rows, ids, k)
  }

  /** The entries agree with the rows, and the Bloom filter passes every key that is present. */
  ghost predicate IndexAgrees(index: BTreeIndex, columns: seq<ColumnDef>, rows: seq<Row>, ids: seq<nat>)
    requires |ids| == |rows|
  {
    && index.entries == EntriesOf(columns, index.definition.columns, rows, ids)
    && forall k :: k in index.entries ==> MightContain(index.bloom, k)
  }

  ghost predicate StrictlyIncreasing(ids: seq<nat>) {
    forall i, j :: 0 <= i < j < |ids| ==> ids[i] < ids[j]
  }

  /** The runtime structures of a table agree with its rows. */
  ghost predicate Consistent(t: Table) {
    && t.Indexed?
    && |t.rowIds| == |t.rows|
    && StrictlyIncreasing(t.rowIds)
    && (forall i :: 0 <= i < |t.rowIds| ==> t.rowIds[i] < t.nextRowId)
    && (forall i :: 0 <= i < |t.indexes| ==> IndexAgrees(t.indexes[i], t.schema.columns, t.rows, t.rowIds))
  }

  // ------------------------------------------------------------- index probes

  /** A usable comparison found in a WHERE conjunction. The qualifier is what the column was written
      with; the engine drops it, and only hypotheses below read it. */
  datatype IndexPredicate =
    IndexPredicate(qualifier: Option<string>, column: string, op: ComparisonOp, value: Value)

  function ReverseComparison(op: ComparisonOp): ComparisonOp {
    match op
    case Lt => Gt
    case Le => Ge
    case Gt => Lt
    case Ge => Le
    case _ => op
  }

  function CollectIndexPredicates(e: Expr): seq<IndexPredicate> {
    match e
    case Binary(left, And, right) => CollectIndexPredicates(left) + CollectIndexPredicates(right)
    case Binary(Column(q, name), Compare(op), Literal(v)) => [IndexPredicate(q, name, op, v)]
    case Binary(Literal(v), Compare(op), Column(q, name)) => [IndexPredicate(q, name, ReverseComparison(op), v)]
    case _ => []
  }

  function FindPredicate(predicates: seq<IndexPredicate>, column: string): (r: Option<IndexPredicate>)
    ensures r.Some? ==> r.value in predicates && SameName(r.value.column, column)
  {
    if predicates == [] then None
    else if SameName(predicates[0].column, column) then Some(predicates[0])
    else FindPredicate(predicates[1..], column)
  }

  datatype Range = Range(op: ComparisonOp, bound: KeyPart)

  datatype Probe = Probe(prefix: IndexKey, range: Option<Range>)

  predicate IsRangeOp(op: ComparisonOp) {
    op == Lt || op == Le || op == Gt || op == Ge
  }

  /** Equalities extend the prefix; the first range ends it; anything else ends it. */
  function ProbeFor(columns: seq<string>, predicates: seq<IndexPredicate>): (r: Probe)
    ensures |r.prefix| + (if r.range.Some? then 1 else 0) <= |columns|
  {
    if columns == [] then Probe([], None)
    else
      match FindPredicate(predicates, columns[0])
      case None => Probe([], None)
      case Some(p) =>
        if p.op == Eq then
          var rest := ProbeFor(columns[1..], predicates);
          Probe([PartOf(p.value)] + rest.prefix, rest.range)
        else if IsRangeOp(p.op) then Probe([], Some(Range(p.op, PartOf(p.value))))
        else Probe([], None)
  }

  predicate Admitted(key: IndexKey, probe: Probe) {
    && probe.prefix <= key
    && (probe.range.Some? ==>
          |probe.prefix| < |key| && ComparePart(key[|probe.prefix|], probe.range.value.bound, probe.range.value.op))
  }

  function ProbeIds(index: BTreeIndex, probe: Probe): set<nat> {
    if |probe.prefix| == |index.definition.columns| && probe.range.None? then
      if MightContain(index.bloom, probe.prefix) && probe.prefix in index.entries
      then index.entries[probe.prefix] else {}
    else
      set key, id | key in index.entries && Admitted(key, probe) && id in index.entries[key] :: id
  }

  datatype Candidates = Candidates(ids: set<nat>, score: nat)

  function Score(probe: Probe): nat {
    |probe.prefix| * 2 + if probe.range.Some? then 1 else 0
  }

  /** The best-scoring probe; the first index wins a tie. */
  function BestCandidates(indexes: seq<BTreeIndex>, predicates: seq<IndexPredicate>): Option<Candidates> {
    if indexes == [] then None
    else
      var best := BestCandidates(indexes[..|indexes| - 1], predicates);
      var index := indexes[|indexes| - 1];
      var probe := ProbeFor(index.definition.columns, predicates);
      if Score(probe) > 0 && (best.None? || Score(probe) > best.value.score)
      then Some(Candidates(ProbeIds(index, probe), Score(probe)))
      else best
  }

  /** Table::candidate_row_ids: None means that every row is a candidate. */
  function CandidateRowIds(t: Table, selection: Option<Expr>): Option<set<nat>> {
    if t.Plain? || selection.None? then None
    else
      match BestCandidates(t.indexes, CollectIndexPredicates(selection.value))
      case Some(c) => Some(c.ids)
      case None => None
  }

  predicate IsCandidate(t: Table, candidates: Option<set<nat>>, p: nat) {
    candidates.None? || (t.Indexed? && p < |t.rowIds| && t.rowIds[p] in candidates.value)
  }

  /** The rows among the first n that a scan visits, in table order. */
  function ScanPrefix(t: Table, candidates: Option<set<nat>>, n: nat): seq<Row>
    requires n <= |t.rows|
  {
    if n == 0 then []
    else ScanPrefix(t, candidates, n - 1) + if IsCandidate(t, candidates, n - 1) then [t.rows[n - 1]] else []
  }

  /** relation_from_table: the rows that a scan with this WHERE clause visits. */
  function ScanRows(t: Table, selection: Option<Expr>): seq<Row> {
    ScanPrefix(t, CandidateRowIds(t, selection), |t.rows|)
  }
}
