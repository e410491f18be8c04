/** The engine's own statement loops over stored tables, proved against what statements mean
    (execute_insert, execute_update, execute_delete, validate_catalog and execute_catalog in
    src/sql/executor.rs). */
module Engine {
  import opened Wrappers
  import opened Values
  import opened Syntax
  import opened Bloom
  import opened Tables
  import opened TableEngine
  import opened Evaluator
  import opened Statements
  import opened Execute

  ghost predicate Maintained(t: Table) {
    Consistent(t) && DefinitionsOf(t.indexes) == Effective(t.schema.indexes)
  }

  // ------------------------------------------------------------------- INSERT

  /** One proposed row, after count rows were affected. */
  method InsertOne(live: LiveTable, db: Db, name: string, row: Row, onDuplicate: seq<Assignment>, count: nat) returns (r: Result<nat>)
    requires live.Valid()
    modifies live
    ensures live.Valid() && live.schema == old(live.schema)
    ensures var next := InsertNext(db, name, old(live.schema), Ok(Effect(old(live.rows), count)), row, onDuplicate);
            (r.Ok? <==> next.Ok?) && (next.Ok? ==> next.value == Effect(live.rows, r.value))
  {
    var conflicts := live.UniqueConflictPositions(row);
    if conflicts == {} {
      var ok := live.InsertRowIndexed(row);
      return if ok then Ok(count + 1) else Err;
    }
    if onDuplicate == [] || |conflicts| != 1 {
      return Err;
    }
    var position := TheElement(conflicts);
    assert position in conflicts;
    var current := live.rows[position];
    var updated := AssignDuplicate(db, name, live.schema, row, onDuplicate, current);
    if updated.Err? {
      return Err;
    }
    if updated.value == current {
      return Ok(count);
    }
    var ok := live.ReplaceRowIndexed(position, updated.value);
    return if ok then Ok(count + 2) else Err;
  }

  lemma InsertExtends(db: Db, name: string, schema: TableSchema, rows: seq<Row>, incoming: seq<Row>, onDuplicate: seq<Assignment>, n: nat)
    requires n < |incoming|
    ensures InsertRows(db, name, schema, rows, incoming[..n + 1], onDuplicate)
         == InsertNext(db, name, schema, InsertRows(db, name, schema, rows, incoming[..n], onDuplicate), incoming[n], onDuplicate)
  {
    assert incoming[..n + 1][..n] == incoming[..n];
  }

  /** execute_insert after its rows are prepared. */
  method ExecuteInsert(db: Db, name: string, rows: seq<Row>, onDuplicate: seq<Assignment>) returns (r: Result<(Table, nat)>)
    requires name in db && Maintained(db[name])
    ensures var effect := InsertRows(db, name, db[name].schema, db[name].rows, rows, onDuplicate);
            (r.Ok? <==> effect.Ok?)
            && (r.Ok? ==> Maintained(r.value.0) && Meaning(r.value.0) == Plain(db[name].schema, effect.value.rows)
                          && r.value.1 == effect.value.affected)
  {
    var t := db[name];
    var live: LiveTable := new LiveTable(t);
    var count := 0;
    for i := 0 to |rows|
      invariant fresh(live) && live.Valid() && live.schema == t.schema
      invariant InsertRows(db, name, t.schema, t.rows, rows[..i], onDuplicate) == Ok(Effect(live.rows, count))
    {
      InsertExtends(db, name, t.schema, t.rows, rows, onDuplicate, i);
      var next := InsertOne(live, db, name, rows[i], onDuplicate, count);
      if next.Err? {
        InsertStops(db, name, t.schema, t.rows, rows, onDuplicate, i + 1);
        return Err;
      }
      count := next.value;
    }
    assert rows[..|rows|] == rows;
    r := Ok((live.View(), count));
  }

  /** A failed prefix fails the whole INSERT. */
  lemma {:induction false} InsertStops(db: Db, name: string, schema: TableSchema, rows: seq<Row>, incoming: seq<Row>, onDuplicate: seq<Assignment>, n: nat)
    requires n <= |incoming| && InsertRows(db, name, schema, rows, incoming[..n], onDuplicate).Err?
    ensures InsertRows(db, name, schema, rows, incoming, onDuplicate).Err?
    decreases |incoming| - n
  {
    if n == |incoming| {
      assert incoming[..n] == incoming;
    } else {
      assert incoming[..n + 1][..n] == incoming[..n];
      InsertStops(db, name, schema, rows, incoming, onDuplicate, n + 1);
    }
  }

  // ------------------------------------------------------------ UPDATE and DELETE

  /** The effect of UPDATE on the first n rows, given what becomes of each. */
  function UpdateAll(rows: seq<Row>, step: nat -> Result<Option<Row>>, n: nat): (r: Result<Effect>)
    requires n <= |rows|
    ensures r.Ok? ==> |r.value.rows| == n
  {
    if n == 0 then Ok(Effect([], 0)) else UpdateNext(UpdateAll(rows, step, n - 1), step(n - 1), rows[n - 1])
  }

  lemma {:induction false} UpdateStops(rows: seq<Row>, step: nat -> Result<Option<Row>>, n: nat, m: nat)
    requires n <= m <= |rows| && UpdateAll(rows, step, n).Err?
    ensures UpdateAll(rows, step, m).Err?
    decreases m
  {
    if n < m {
      UpdateStops(rows, step, n, m - 1);
    }
  }

  lemma {:induction false} DeleteStops(db: Db, name: string, t: Table, candidates: Option<set<nat>>, selection: Option<Expr>, n: nat, m: nat)
    requires n <= m <= |t.rows| && ProbedDelete(db, name, t, candidates, selection, n).Err?
    ensures ProbedDelete(db, name, t, candidates, selection, m).Err?
    decreases m
  {
    if n < m {
      DeleteStops(db, name, t, candidates, selection, n, m - 1);
    }
  }

  /** The rows of a table when the first of them have been replaced. */
  function Spliced(done: seq<Row>, rows: seq<Row>): (r: seq<Row>)
    requires |done| <= |rows|
    ensures |r| == |rows|
  {
    done + rows[|done|..]
  }

  lemma SplicedEnds(done: seq<Row>, rows: seq<Row>)
    requires |done| <= |rows|
    ensures done == [] ==> Spliced(done, rows) == rows
    ensures |done| == |rows| ==> Spliced(done, rows) == done
  {
  }

  lemma SpliceNext(done: seq<Row>, rows: seq<Row>, x: Row)
    requires |done| < |rows|
    ensures Spliced(done, rows)[|done| := x] == Spliced(done + [x], rows)
    ensures Spliced(done, rows) == Spliced(done + [rows[|done|]], rows)
  {
  }

  function UpdateStep(db: Db, name: string, t: Table, candidates: Option<set<nat>>, assignments: seq<Assignment>, selection: Option<Expr>, n: nat): Result<Option<Row>> {
    if n < |t.rows| then ProbedRow(db, name, t, candidates, assignments, selection, n) else Ok(None)
  }

  lemma {:induction false} UpdateAllIsProbed(db: Db, name: string, t: Table, candidates: Option<set<nat>>, assignments: seq<Assignment>, selection: Option<Expr>, step: nat -> Result<Option<Row>>, n: nat)
    requires n <= |t.rows|
    requires forall i: nat :: step(i) == UpdateStep(db, name, t, candidates, assignments, selection, i)
    ensures UpdateAll(t.rows, step, n) == ProbedUpdate(db, name, t, candidates, assignments, selection, n)
  {
    if n > 0 {
      UpdateAllIsProbed(db, name, t, candidates, assignments, selection, step, n - 1);
      assert step(n - 1) == UpdateStep(db, name, t, candidates, assignments, selection, n - 1);
    }
  }

  /** One row of execute_update, changed in place. */
  method UpdateOne(live: LiveTable, step: Result<Option<Row>>, position: nat, count: nat, ghost done: seq<Row>, ghost rows: seq<Row>) returns (r: Result<nat>, ghost next: seq<Row>)
    requires position == |done| < |rows| && live.rows == Spliced(done, rows)
    modifies live`rows
    ensures var effect := UpdateNext(Ok(Effect(done, count)), step, rows[position]);
            (r.Ok? <==> effect.Ok?) && (r.Ok? ==> effect.value == Effect(next, r.value) && |next| == position + 1)
    ensures r.Ok? ==> live.rows == Spliced(next, rows)
  {
    next := done;
    if step.Err? {
      return Err, next;
    }
    r := Ok(count);
    next := done + [if step.value.Some? then step.value.value else rows[position]];
    SpliceNext(done, rows, next[position]);
    if step.value.Some? {
      live.rows := live.rows[position := step.value.value];
      r := Ok(count + 1);
    }
  }

  /** The loop of execute_update. */
  method UpdateInPlace(live: LiveTable, step: nat -> Result<Option<Row>>) returns (updated: Result<nat>)
    modifies live`rows
    ensures var effect := UpdateAll(old(live.rows), step, |old(live.rows)|);
            (updated.Ok? <==> effect.Ok?) && (effect.Ok? ==> effect.value == Effect(live.rows, updated.value))
  {
    var rows, count, position := live.rows, 0, 0;
    ghost var done: seq<Row> := [];
    SplicedEnds([], rows);
    while position < |rows|
      modifies live`rows
      invariant position == |done| <= |rows| && live.rows == Spliced(done, rows)
      invariant UpdateAll(rows, step, position) == Ok(Effect(done, count))
    {
      var next;
      next, done := UpdateOne(live, step(position), position, count, done, rows);
      if next.Err? {
        UpdateStops(rows, step, position + 1, |rows|);
        return Err;
      }
      count, position := next.value, position + 1;
    }
    SplicedEnds(done, rows);
    updated := Ok(count);
  }

  /** execute_update: candidates are found once, rows change in place, indexes are rebuilt at the end. */
  method ExecuteUpdate(db: Db, name: string, assignments: seq<Assignment>, selection: Option<Expr>) returns (r: Result<(Table, nat)>)
    requires name in db && Maintained(db[name])
    ensures var effect := ProbedUpdate(db, name, db[name], CandidateRowIds(db[name], selection), assignments, selection, |db[name].rows|);
            (r.Ok? <==> effect.Ok?)
            && (r.Ok? ==> Maintained(r.value.0) && Meaning(r.value.0) == Plain(db[name].schema, effect.value.rows)
                          && r.value.1 == effect.value.affected)
  {
    var t := db[name];
    var live: LiveTable := new LiveTable(t);
    var candidates := live.CandidateIds(selection);
    var step := (i: nat) => UpdateStep(db, name, t, candidates, assignments, selection, i);
    UpdateAllIsProbed(db, name, t, candidates, assignments, selection, step, |t.rows|);
    var updated := UpdateInPlace(live, step);
    if updated.Err? {
      return Err;
    }
    live.RebuildIndex();
    r := Ok((live.View(), updated.value));
  }

  /** Ids that survive a deletion are still strictly increasing. */
  ghost predicate KeptFrom(keptIds: seq<nat>, ids: seq<nat>, n: nat)
    requires n <= |ids|
  {
    StrictlyIncreasing(keptIds) && forall i :: 0 <= i < |keptIds| ==> keptIds[i] in ids[..n]
  }

  lemma KeepOneMore(keptIds: seq<nat>, ids: seq<nat>, n: nat)
    requires n < |ids| && StrictlyIncreasing(ids) && KeptFrom(keptIds, ids, n)
    ensures KeptFrom(keptIds, ids, n + 1) && KeptFrom(keptIds + [ids[n]], ids, n + 1)
  {
    assert ids[..n + 1] == ids[..n] + [ids[n]];
    forall i | 0 <= i < |keptIds| ensures keptIds[i] < ids[n] {
      var p :| 0 <= p < n && ids[p] == keptIds[i];
    }
  }

  lemma DeleteExtends(db: Db, name: string, t: Table, candidates: Option<set<nat>>, selection: Option<Expr>, n: nat, before: Effect, selected: Result<bool>)
    requires n < |t.rows| && ProbedDelete(db, name, t, candidates, selection, n) == Ok(before)
    requires selected == ProbedVerdict(db, name, t, candidates, selection, n)
    ensures ProbedDelete(db, name, t, candidates, selection, n + 1) == DeleteNext(Ok(before), selected, t.rows[n])
  {
  }

  /** The loop of execute_delete: kept rows keep their ids and their order. */
  method SplitRows(db: Db, name: string, t: Table, candidates: Option<set<nat>>, selection: Option<Expr>) returns (r: Result<Effect>, keptIds: seq<nat>)
    requires t.Indexed? && |t.rowIds| == |t.rows| && StrictlyIncreasing(t.rowIds)
    ensures r == ProbedDelete(db, name, t, candidates, selection, |t.rows|)
    ensures r.Ok? ==> |keptIds| == |r.value.rows| && KeptFrom(keptIds, t.rowIds, |t.rowIds|)
  {
    keptIds := [];
    var keptRows: seq<Row>, deleted := [], 0;
    for position := 0 to |t.rows|
      invariant |keptIds| == |keptRows| && KeptFrom(keptIds, t.rowIds, position)
      invariant ProbedDelete(db, name, t, candidates, selection, position) == Ok(Effect(keptRows, deleted))
    {
      var selected := ProbedVerdict(db, name, t, candidates, selection, position);
      DeleteExtends(db, name, t, candidates, selection, position, Effect(keptRows, deleted), selected);
      if selected.Err? {
        DeleteStops(db, name, t, candidates, selection, position + 1, |t.rows|);
        return Err, [];
      }
      KeepOneMore(keptIds, t.rowIds, position);
      if selected.value {
        deleted := deleted + 1;
      } else {
        keptRows, keptIds := keptRows + [t.rows[position]], keptIds + [t.rowIds[position]];
      }
    }
    r := Ok(Effect(keptRows, deleted));
  }

  /** execute_delete */
  method ExecuteDelete(db: Db, name: string, selection: Option<Expr>) returns (r: Result<(Table, nat)>)
    requires name in db && Maintained(db[name])
    ensures var effect := ProbedDelete(db, name, db[name], CandidateRowIds(db[name], selection), selection, |db[name].rows|);
            (r.Ok? <==> effect.Ok?)
            && (r.Ok? ==> Maintained(r.value.0) && Meaning(r.value.0) == Plain(db[name].schema, effect.value.rows)
                          && r.value.1 == effect.value.affected)
  {
    var t := db[name];
    var live: LiveTable := new LiveTable(t);
    var candidates := live.CandidateIds(selection);
    var kept, keptIds := SplitRows(db, name, t, candidates, selection);
    if kept.Err? {
      return Err;
    }
    live.rows, live.rowIds := kept.value.rows, keptIds;
    live.RebuildIndex();
    r := Ok((live.View(), kept.value.affected));
  }

  // ------------------------------------------------------------------ validation

  /** validate_unique_indexes looks only at the entries. */
  ghost predicate EntriesUnique(index: BTreeIndex) {
    index.definition.unique ==> SmallBuckets(index.entries)
  }

  lemma AtMostOne(s: set<nat>, a: nat, b: nat)
    requires a in s && b in s && |s| <= 1
    ensures a == b
  {
    if a != b {
      assert {a, b} <= s;
      Size2(s, a, b);
    }
  }

  lemma Size2(s: set<nat>, a: nat, b: nat)
    requires a in s && b in s && a != b
    ensures |s| >= 2
  {
    assert b in s - {a};
    assert |s - {a}| >= 1;
  }

  /** No two rows share a NULL-free key of one index. */
  ghost predicate NoneShare(columns: seq<ColumnDef>, key: seq<string>, rows: seq<Row>) {
    forall i, j :: 0 <= i < j < |rows| ==> !SharesKey(columns, key, rows[i], rows[j])
  }

  ghost predicate SmallBuckets(entries: map<IndexKey, set<nat>>) {
    forall k :: k in entries && NullPart !in k ==> |entries[k]| <= 1
  }

  lemma SmallBucketsSeparate(index: BTreeIndex, columns: seq<ColumnDef>, rows: seq<Row>, ids: seq<nat>)
    requires |ids| == |rows| && StrictlyIncreasing(ids) && IndexAgrees(index, columns, rows, ids)
    requires SmallBuckets(index.entries)
    ensures NoneShare(columns, index.definition.columns, rows)
  {
    var key := index.definition.columns;
    forall i, j | 0 <= i < j < |rows| ensures !SharesKey(columns, key, rows[i], rows[j]) {
      if SharesKey(columns, key, rows[i], rows[j]) {
        var k := KeyOf(columns, key, rows[i]).value;
        BucketOf(columns, key, rows, ids, k);
        assert ids[i] in IdsFor(columns, key, rows, ids, k) && ids[j] in IdsFor(columns, key, rows, ids, k);
        AtMostOne(index.entries[k], ids[i], ids[j]);
      }
    }
  }

  lemma LargeBucketShares(index: BTreeIndex, columns: seq<ColumnDef>, rows: seq<Row>, ids: seq<nat>, k: IndexKey)
    requires |ids| == |rows| && StrictlyIncreasing(ids) && IndexAgrees(index, columns, rows, ids)
    requires k in index.entries && NullPart !in k && |index.entries[k]| > 1
    ensures !NoneShare(columns, index.definition.columns, rows)
  {
    var key := index.definition.columns;
    var a :| a in index.entries[k];
    var rest := index.entries[k] - {a};
    assert |rest| > 0;
    var b :| b in rest;
    var i :| 0 <= i < |rows| && KeyOf(columns, key, rows[i]) == Some(k) && ids[i] == a;
    var j :| 0 <= j < |rows| && KeyOf(columns, key, rows[j]) == Some(k) && ids[j] == b;
    assert SharesKey(columns, key, rows[i], rows[j]) && SharesKey(columns, key, rows[j], rows[i]);
  }

  /** A bucket of one index holds more than one id exactly when two rows share its key. */
  lemma EntriesDecideUnique(index: BTreeIndex, columns: seq<ColumnDef>, rows: seq<Row>, ids: seq<nat>)
    requires |ids| == |rows| && StrictlyIncreasing(ids) && IndexAgrees(index, columns, rows, ids)
    ensures SmallBuckets(index.entries) <==> NoneShare(columns, index.definition.columns, rows)
  {
    if SmallBuckets(index.entries) {
      SmallBucketsSeparate(index, columns, rows, ids);
    } else {
      var k :| k in index.entries && NullPart !in k && |index.entries[k]| > 1;
      LargeBucketShares(index, columns, rows, ids, k);
    }
  }

  lemma UniqueByDefinition(schema: TableSchema, rows: seq<Row>)
    ensures UniqueHolds(schema, rows)
       <==> forall d :: d in Effective(schema.indexes) && d.unique ==> NoneShare(schema.columns, d.columns, rows)
  {
    if UniqueHolds(schema, rows) {
      forall d, i, j | d in Effective(schema.indexes) && d.unique && 0 <= i < j < |rows|
        ensures !SharesKey(schema.columns, d.columns, rows[i], rows[j])
      {
        assert !Conflicts(schema, rows[i], rows[j]);
      }
    }
  }

  lemma UniqueFromEntries(t: Table)
    requires Maintained(t)
    ensures (forall i :: 0 <= i < |t.indexes| ==> EntriesUnique(t.indexes[i])) <==> UniqueHolds(t.schema, t.rows)
  {
    UniqueByDefinition(t.schema, t.rows);
    forall i | 0 <= i < |t.indexes|
      ensures t.indexes[i].definition in Effective(t.schema.indexes)
      ensures EntriesUnique(t.indexes[i])
         <==> (t.indexes[i].definition.unique ==> NoneShare(t.schema.columns, t.indexes[i].definition.columns, t.rows))
    {
      assert t.indexes[i].definition in DefinitionsOf(t.indexes);
      EntriesDecideUnique(t.indexes[i], t.schema.columns, t.rows, t.rowIds);
    }
    forall d | d in Effective(t.schema.indexes) ensures exists i :: 0 <= i < |t.indexes| && t.indexes[i].definition == d {
      assert d in DefinitionsOf(t.indexes);
    }
  }

  method ValidateIndex(index: BTreeIndex) returns (ok: bool)
    ensures ok <==> EntriesUnique(index)
  {
    if !index.definition.unique {
      return true;
    }
    var todo := index.entries.Keys;
    while todo != {}
      invariant todo <= index.entries.Keys
      invariant forall k :: k in index.entries && k !in todo && NullPart !in k ==> |index.entries[k]| <= 1
      decreases todo
    {
      var k :| k in todo;
      if NullPart !in k && |index.entries[k]| > 1 {
        return false;
      }
      todo := todo - {k};
    }
    return true;
  }

  method ValidateIndexes(indexes: seq<BTreeIndex>) returns (ok: bool)
    ensures ok <==> forall i :: 0 <= i < |indexes| ==> EntriesUnique(indexes[i])
  {
    for i := 0 to |indexes|
      invariant forall j :: 0 <= j < i ==> EntriesUnique(indexes[j])
    {
      var valid := ValidateIndex(indexes[i]);
      if !valid {
        return false;
      }
    }
    return true;
  }

  /** validate_unique_indexes decides the declarative uniqueness of the rows. */
  method ValidateUnique(t: Table) returns (ok: bool)
    requires Maintained(t)
    ensures ok <==> UniqueHolds(t.schema, t.rows)
  {
    UniqueFromEntries(t);
    ok := ValidateIndexes(t.indexes);
  }

  method ValidateTable(db: Db, t: Table) returns (ok: bool)
    requires Maintained(t)
    ensures ok <==> TableSatisfies(db, t)
  {
    for i := 0 to |t.rows|
      invariant forall j :: 0 <= j < i ==> ValidateRow(t.schema, t.rows[j]) && ChecksHold(db, t.schema, t.rows[j])
    {
      if !ValidateRow(t.schema, t.rows[i]) || !ChecksHold(db, t.schema, t.rows[i]) {
        return false;
      }
    }
    var unique := ValidateUnique(t);
    if !unique {
      return false;
    }
    for c := 0 to |t.schema.constraints|
      invariant forall j :: 0 <= j < c && t.schema.constraints[j].ForeignKey? ==>
                  ForeignKeyHolds(db, t.schema, t.rows, t.schema.constraints[j])
    {
      if t.schema.constraints[c].ForeignKey? && !ForeignKeyHolds(db, t.schema, t.rows, t.schema.constraints[c]) {
        return false;
      }
    }
    return true;
  }

  /** validate_catalog decides the declarative constraints of the whole catalog. */
  method ValidateCatalog(db: Db) returns (ok: bool)
    requires forall name :: name in db ==> Maintained(db[name])
    ensures ok <==> ConstraintsHold(db)
  {
    var todo := db.Keys;
    while todo != {}
      invariant todo <= db.Keys
      invariant forall name :: name in db && name !in todo ==> TableSatisfies(db, db[name])
      decreases todo
    {
      var name :| name in todo;
      var valid := ValidateTable(db, db[name]);
      if !valid {
        return false;
      }
      todo := todo - {name};
    }
    return true;
  }
}
