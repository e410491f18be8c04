/** The table the engine updates in place: rows, row ids and indexes maintained together
    (Table in src/sql/executor.rs). */
module TableEngine {
  import opened Wrappers
  import opened Values
  import opened Syntax
  import opened Bloom
  import opened Tables

  // ------------------------------------------------------------ row validation

  /** TableSchema::validate_row */
  predicate ValidateRow(schema: TableSchema, row: Row) {
    && |row| == |schema.columns|
    && forall c :: 0 <= c < |row| ==>
         if row[c].Null? then schema.columns[c].nullable else IsCompatibleWith(row[c], schema.columns[c].dataType)
  }

  // -------------------------------------------------- index entries, one row at a time

  function AddEntry(entries: map<IndexKey, set<nat>>, k: IndexKey, id: nat): map<IndexKey, set<nat>> {
    entries[k := (if k in entries then entries[k] else {}) + {id}]
  }

  /** Removes an id from a bucket, and the bucket when it becomes empty. */
  function RemoveEntry(entries: map<IndexKey, set<nat>>, k: IndexKey, id: nat): map<IndexKey, set<nat>> {
    if k !in entries then entries
    else if entries[k] - {id} == {} then entries - {k}
    else entries[k := entries[k] - {id}]
  }

  function AddKey(entries: map<IndexKey, set<nat>>, k: Option<IndexKey>, id: nat): map<IndexKey, set<nat>> {
    if k.Some? then AddEntry(entries, k.value, id) else entries
  }

  function RemoveKey(entries: map<IndexKey, set<nat>>, k: Option<IndexKey>, id: nat): map<IndexKey, set<nat>> {
    if k.Some? then RemoveEntry(entries, k.value, id) else entries
  }

  function Bucket(entries: map<IndexKey, set<nat>>, k: IndexKey): set<nat> {
    if k in entries then entries[k] else {}
  }

  ghost predicate NoEmptyBucket(entries: map<IndexKey, set<nat>>) {
    forall k :: k in entries ==> entries[k] != {}
  }

  lemma BucketOf(columns: seq<ColumnDef>, key: seq<string>, rows: seq<Row>, ids: seq<nat>, k: IndexKey)
    requires |ids| == |rows|
    ensures Bucket(EntriesOf(columns, key, rows, ids), k) == IdsFor(columns, key, rows, ids, k)
    ensures k in EntriesOf(columns, key, rows, ids) ==> EntriesOf(columns, key, rows, ids)[k] != {}
  {
    if k in EntriesOf(columns, key, rows, ids) {
      var p :| 0 <= p < |rows| && KeyOf(columns, key, rows[p]) == Some(k);
      assert ids[p] in IdsFor(columns, key, rows, ids, k);
    }
  }

  lemma BucketAdded(entries: map<IndexKey, set<nat>>, k: Option<IndexKey>, id: nat, j: IndexKey)
    ensures Bucket(AddKey(entries, k, id), j) == Bucket(entries, j) + if k == Some(j) then {id} else {}
    ensures NoEmptyBucket(entries) ==> NoEmptyBucket(AddKey(entries, k, id))
  {
  }

  lemma BucketRemoved(entries: map<IndexKey, set<nat>>, k: Option<IndexKey>, id: nat, j: IndexKey)
    ensures Bucket(RemoveKey(entries, k, id), j) == Bucket(entries, j) - if k == Some(j) then {id} else {}
    ensures NoEmptyBucket(entries) ==> NoEmptyBucket(RemoveKey(entries, k, id))
  {
  }

  /** Two entry maps without empty buckets are equal when every bucket is. */
  lemma SameBuckets(a: map<IndexKey, set<nat>>, b: map<IndexKey, set<nat>>)
    requires forall k :: Bucket(a, k) == Bucket(b, k)
    requires NoEmptyBucket(a) && NoEmptyBucket(b)
    ensures a == b
  {
    forall k ensures (k in a <==> k in b) && (k in a ==> a[k] == b[k]) {
      assert Bucket(a, k) == Bucket(b, k);
    }
  }

  lemma NoEmptyEntries(columns: seq<ColumnDef>, key: seq<string>, rows: seq<Row>, ids: seq<nat>)
    requires |ids| == |rows|
    ensures NoEmptyBucket(EntriesOf(columns, key, rows, ids))
  {
    forall k | k in EntriesOf(columns, key, rows, ids) ensures EntriesOf(columns, key, rows, ids)[k] != {} {
      BucketOf(columns, key, rows, ids, k);
    }
  }

  lemma EntriesAppend(columns: seq<ColumnDef>, key: seq<string>, rows: seq<Row>, ids: seq<nat>, row: Row, id: nat)
    requires |ids| == |rows|
    ensures EntriesOf(columns, key, rows + [row], ids + [id])
         == AddKey(EntriesOf(columns, key, rows, ids), KeyOf(columns, key, row), id)
  {
    var before, added := EntriesOf(columns, key, rows, ids), KeyOf(columns, key, row);
    var after, expected := EntriesOf(columns, key, rows + [row], ids + [id]), AddKey(before, added, id);
    NoEmptyEntries(columns, key, rows, ids);
    NoEmptyEntries(columns, key, rows + [row], ids + [id]);
    forall k ensures Bucket(after, k) == Bucket(expected, k) && NoEmptyBucket(expected) {
      BucketOf(columns, key, rows, ids, k);
      BucketOf(columns, key, rows + [row], ids + [id], k);
      IdsAppend(columns, key, rows, ids, row, id, k);
      BucketAdded(before, added, id, k);
    }
    assert NoEmptyBucket(expected) by { BucketAdded(before, added, id, []); }
    SameBuckets(after, expected);
  }

  lemma IdsAppend(columns: seq<ColumnDef>, key: seq<string>, rows: seq<Row>, ids: seq<nat>, row: Row, id: nat, k: IndexKey)
    requires |ids| == |rows|
    ensures IdsFor(columns, key, rows + [row], ids + [id], k)
         == IdsFor(columns, key, rows, ids, k) + if KeyOf(columns, key, row) == Some(k) then {id} else {}
  {
    var longer, ids' := rows + [row], ids + [id];
    forall x | x in IdsFor(columns, key, rows, ids, k) ensures x in IdsFor(columns, key, longer, ids', k) {
      var p :| 0 <= p < |rows| && KeyOf(columns, key, rows[p]) == Some(k) && ids[p] == x;
      assert longer[p] == rows[p] && ids'[p] == x;
    }
    assert longer[|rows|] == row && ids'[|rows|] == id;
  }

  /** Replacing one row moves its id from the old bucket to the new one. */
  lemma EntriesReplace(columns: seq<ColumnDef>, key: seq<string>, rows: seq<Row>, ids: seq<nat>, p: nat, row: Row)
    requires |ids| == |rows| && p < |rows| && StrictlyIncreasing(ids)
    ensures var old_, new_ := KeyOf(columns, key, rows[p]), KeyOf(columns, key, row);
            EntriesOf(columns, key, rows[p := row], ids)
            == AddKey(RemoveKey(EntriesOf(columns, key, rows, ids), old_, ids[p]), new_, ids[p])
  {
    var before, after := EntriesOf(columns, key, rows, ids), EntriesOf(columns, key, rows[p := row], ids);
    var old_, new_ := KeyOf(columns, key, rows[p]), KeyOf(columns, key, row);
    var removed := RemoveKey(before, old_, ids[p]);
    var expected := AddKey(removed, new_, ids[p]);
    NoEmptyEntries(columns, key, rows, ids);
    NoEmptyEntries(columns, key, rows[p := row], ids);
    forall k ensures Bucket(after, k) == Bucket(expected, k) {
      BucketOf(columns, key, rows, ids, k);
      BucketOf(columns, key, rows[p := row], ids, k);
      IdsReplace(columns, key, rows, ids, p, row, k);
      BucketRemoved(before, old_, ids[p], k);
      BucketAdded(removed, new_, ids[p], k);
    }
    assert NoEmptyBucket(expected) by {
      BucketRemoved(before, old_, ids[p], []);
      BucketAdded(removed, new_, ids[p], []);
    }
    SameBuckets(after, expected);
  }

  /** When the key does not change, moving the id changes nothing. */
  lemma EntriesKeep(columns: seq<ColumnDef>, key: seq<string>, rows: seq<Row>, ids: seq<nat>, p: nat, row: Row)
    requires |ids| == |rows| && p < |rows| && StrictlyIncreasing(ids)
    requires KeyOf(columns, key, rows[p]) == KeyOf(columns, key, row)
    ensures EntriesOf(columns, key, rows[p := row], ids) == EntriesOf(columns, key, rows, ids)
  {
    var before, after := EntriesOf(columns, key, rows, ids), EntriesOf(columns, key, rows[p := row], ids);
    NoEmptyEntries(columns, key, rows, ids);
    NoEmptyEntries(columns, key, rows[p := row], ids);
    forall k ensures Bucket(after, k) == Bucket(before, k) {
      BucketOf(columns, key, rows, ids, k);
      BucketOf(columns, key, rows[p := row], ids, k);
      IdsReplace(columns, key, rows, ids, p, row, k);
    }
    SameBuckets(after, before);
  }

  lemma IdsReplace(columns: seq<ColumnDef>, key: seq<string>, rows: seq<Row>, ids: seq<nat>, p: nat, row: Row, k: IndexKey)
    requires |ids| == |rows| && p < |rows| && StrictlyIncreasing(ids)
    ensures IdsFor(columns, key, rows[p := row], ids, k)
         == (IdsFor(columns, key, rows, ids, k) - {ids[p]}) + if KeyOf(columns, key, row) == Some(k) then {ids[p]} else {}
    ensures KeyOf(columns, key, rows[p]) == Some(k) <==> ids[p] in IdsFor(columns, key, rows, ids, k)
  {
    var changed := rows[p := row];
    forall x | x in IdsFor(columns, key, rows, ids, k) && x != ids[p] ensures x in IdsFor(columns, key, changed, ids, k) {
      var q :| 0 <= q < |rows| && KeyOf(columns, key, rows[q]) == Some(k) && ids[q] == x;
      assert changed[q] == rows[q];
    }
    forall x | x in IdsFor(columns, key, changed, ids, k)
      ensures x in (IdsFor(columns, key, rows, ids, k) - {ids[p]}) + if KeyOf(columns, key, row) == Some(k) then {ids[p]} else {}
    {
      var q :| 0 <= q < |rows| && KeyOf(columns, key, changed[q]) == Some(k) && ids[q] == x;
      if q != p {
        assert changed[q] == rows[q] && ids[q] != ids[p];
      }
    }
    assert changed[p] == row;
  }

  // -------------------------------------------------------- unique keys, declaratively

  /** The definitions that have a runtime index: the engine keeps indexes in a map by name, so a later
      definition replaces an earlier one of the same name. */
  function Effective(definitions: seq<IndexDef>): set<IndexDef> {
    if definitions == [] then {}
    else
      var last := definitions[|definitions| - 1];
      (set d | d in Effective(definitions[..|definitions| - 1]) && d.name != last.name) + {last}
  }

  lemma {:induction false} EffectiveIsDefined(definitions: seq<IndexDef>)
    ensures forall d :: d in Effective(definitions) ==> d in definitions
    decreases definitions
  {
    if definitions != [] {
      EffectiveIsDefined(definitions[..|definitions| - 1]);
    }
  }

  function DefinitionsOf(indexes: seq<BTreeIndex>): set<IndexDef> {
    set i | 0 <= i < |indexes| :: indexes[i].definition
  }

  predicate SharesKey(columns: seq<ColumnDef>, key: seq<string>, a: Row, b: Row) {
    var k := KeyOf(columns, key, a);
    k.Some? && NullPart !in k.value && KeyOf(columns, key, b) == k
  }

  /** Some unique index has the same NULL-free key for both rows. */
  predicate Conflicts(schema: TableSchema, a: Row, b: Row) {
    ConflictsIn(Effective(schema.indexes), schema, a, b)
  }

  function ConflictPositions(schema: TableSchema, rows: seq<Row>, row: Row): set<nat> {
    set p | 0 <= p < |rows| && Conflicts(schema, row, rows[p])
  }

  // ----------------------------------------------------------- one index, one row

  method AppendToIndex(index: BTreeIndex, columns: seq<ColumnDef>, ghost rows: seq<Row>, ghost ids: seq<nat>, row: Row, id: nat)
    returns (r: BTreeIndex)
    requires |ids| == |rows| && IndexAgrees(index, columns, rows, ids)
    ensures r.definition == index.definition && IndexAgrees(r, columns, rows + [row], ids + [id])
  {
    EntriesAppend(columns, index.definition.columns, rows, ids, row, id);
    var key := KeyOf(columns, index.definition.columns, row);
    r := index;
    if key.Some? {
      var bloom := Bloom.Insert(index.bloom, key.value);
      r := BTreeIndex(index.definition, AddEntry(index.entries, key.value, id), bloom);
    }
  }

  method MoveInIndex(index: BTreeIndex, columns: seq<ColumnDef>, ghost rows: seq<Row>, ghost ids: seq<nat>, ghost position: nat, previous: Row, id: nat, row: Row)
    returns (r: BTreeIndex)
    requires |ids| == |rows| && position < |rows| && StrictlyIncreasing(ids) && IndexAgrees(index, columns, rows, ids)
    requires previous == rows[position] && id == ids[position]
    ensures r.definition == index.definition && IndexAgrees(r, columns, rows[position := row], ids)
  {
    var previousKey := KeyOf(columns, index.definition.columns, previous);
    var nextKey := KeyOf(columns, index.definition.columns, row);
    r := index;
    if previousKey == nextKey {
      EntriesKeep(columns, index.definition.columns, rows, ids, position, row);
    } else {
      EntriesReplace(columns, index.definition.columns, rows, ids, position, row);
      var entries, bloom := RemoveKey(index.entries, previousKey, id), index.bloom;
      if nextKey.Some? {
        entries := AddEntry(entries, nextKey.value, id);
        bloom := Bloom.Insert(bloom, nextKey.value);
      }
      r := BTreeIndex(index.definition, entries, bloom);
    }
  }

  /** HashMap::insert by index name. */
  method PutIndex(indexes: seq<BTreeIndex>, index: BTreeIndex) returns (r: seq<BTreeIndex>)
    requires DistinctNames(indexes)
    ensures DistinctNames(r)
    ensures DefinitionsOf(r) == (set d | d in DefinitionsOf(indexes) && d.name != index.definition.name) + {index.definition}
    ensures forall i :: 0 <= i < |r| ==> r[i] == index || r[i] in indexes
  {
    var at := 0;
    while at < |indexes| && indexes[at].definition.name != index.definition.name
      invariant at <= |indexes|
      invariant forall i :: 0 <= i < at ==> indexes[i].definition.name != index.definition.name
    {
      at := at + 1;
    }
    PutDefinitions(indexes, index, at);
    r := if at < |indexes| then indexes[at := index] else indexes + [index];
  }

  // ------------------------------------------------------------------ the table

  class LiveTable {
    var schema: TableSchema
    var rows: seq<Row>
    var rowIds: seq<nat>
    var nextRowId: nat
    var indexes: seq<BTreeIndex>

    function View(): Table
      reads this
    {
      Indexed(schema, rows, rowIds, nextRowId, indexes)
    }

    ghost predicate Valid()
      reads this
    {
      Consistent(View()) && DefinitionsOf(indexes) == Effective(schema.indexes)
    }

    /** A clone of a stored table. */
    constructor (t: Table)
      requires t.Indexed?
      ensures View() == t
    {
      schema, rows, rowIds, nextRowId, indexes := t.schema, t.rows, t.rowIds, t.nextRowId, t.indexes;
    }

    method BuildIndex(definition: IndexDef) returns (index: BTreeIndex)
      requires |rowIds| == |rows|
      ensures index.definition == definition && IndexAgrees(index, schema.columns, rows, rowIds)
    {
      var bloom := SizedFor(|rows|);
      var entries: map<IndexKey, set<nat>> := map[];
      assert EntriesOf(schema.columns, definition.columns, rows[..0], rowIds[..0]) == map[];
      for p := 0 to |rows|
        invariant entries == EntriesOf(schema.columns, definition.columns, rows[..p], rowIds[..p])
        invariant forall k :: k in entries ==> MightContain(bloom, k)
      {
        EntriesAppend(schema.columns, definition.columns, rows[..p], rowIds[..p], rows[p], rowIds[p]);
        assert rows[..p + 1] == rows[..p] + [rows[p]] && rowIds[..p + 1] == rowIds[..p] + [rowIds[p]];
        var key := KeyOf(schema.columns, definition.columns, rows[p]);
        if key.Some? {
          entries := AddEntry(entries, key.value, rowIds[p]);
          bloom := Bloom.Insert(bloom, key.value);
        }
      }
      assert rows[..|rows|] == rows && rowIds[..|rows|] == rowIds;
      index := BTreeIndex(definition, entries, bloom);
    }

    /** rebuild_index: one index for each name, built from the rows. */
    method RebuildIndex()
      requires |rowIds| == |rows|
      modifies this`indexes
      ensures DefinitionsOf(indexes) == Effective(schema.indexes)
      ensures forall i :: 0 <= i < |indexes| ==> IndexAgrees(indexes[i], schema.columns, rows, rowIds)
    {
      indexes := [];
      for d := 0 to |schema.indexes|
        invariant DefinitionsOf(indexes) == Effective(schema.indexes[..d])
        invariant DistinctNames(indexes)
        invariant forall i :: 0 <= i < |indexes| ==> IndexAgrees(indexes[i], schema.columns, rows, rowIds)
      {
        var index := BuildIndex(schema.indexes[d]);
        assert schema.indexes[..d + 1][..d] == schema.indexes[..d];
        indexes := PutIndex(indexes, index);
      }
      assert schema.indexes[..|schema.indexes|] == schema.indexes;
    }

    /** insert_row_indexed: appends a valid row under a fresh id; a rejected row changes nothing. */
    method InsertRowIndexed(row: Row) returns (ok: bool)
      requires Valid()
      modifies this
      ensures Valid() && schema == old(schema)
      ensures ok <==> ValidateRow(schema, row)
      ensures ok ==> rows == old(rows) + [row] && rowIds == old(rowIds) + [old(nextRowId)] && nextRowId == old(nextRowId) + 1
      ensures !ok ==> View() == old(View())
    {
      if !ValidateRow(schema, row) {
        return false;
      }
      ok := true;
      var id := nextRowId;
      ghost var oldRows, oldIds, oldIndexes := rows, rowIds, indexes;
      rows, rowIds, nextRowId := rows + [row], rowIds + [id], nextRowId + 1;
      for i := 0 to |indexes|
        modifies this`indexes
        invariant |indexes| == |oldIndexes|
        invariant forall j :: i <= j < |indexes| ==> indexes[j] == oldIndexes[j]
        invariant forall j :: 0 <= j < i ==>
          indexes[j].definition == oldIndexes[j].definition && IndexAgrees(indexes[j], schema.columns, rows, rowIds)
      {
        var index := AppendToIndex(indexes[i], schema.columns, oldRows, oldIds, row, id);
        indexes := indexes[i := index];
      }
      assert DefinitionsOf(indexes) == DefinitionsOf(oldIndexes);
    }

    /** replace_row_indexed: overwrites one row in place; a rejected row changes nothing. */
    method ReplaceRowIndexed(position: nat, row: Row) returns (ok: bool)
      requires Valid()
      modifies this`rows, this`indexes
      ensures Valid()
      ensures ok <==> ValidateRow(schema, row) && position < |old(rows)|
      ensures ok ==> rows == old(rows)[position := row]
      ensures !ok ==> View() == old(View())
    {
      if !ValidateRow(schema, row) || position >= |rows| {
        return false;
      }
      ok := true;
      var previous, id := rows[position], rowIds[position];
      ghost var oldRows, oldIndexes := rows, indexes;
      rows := rows[position := row];
      for i := 0 to |indexes|
        modifies this`indexes
        invariant |indexes| == |oldIndexes|
        invariant forall j :: i <= j < |indexes| ==> indexes[j] == oldIndexes[j]
        invariant forall j :: 0 <= j < i ==>
          indexes[j].definition == oldIndexes[j].definition && IndexAgrees(indexes[j], schema.columns, rows, rowIds)
      {
        var index := MoveInIndex(indexes[i], schema.columns, oldRows, rowIds, position, previous, id, row);
        indexes := indexes[i := index];
      }
      assert DefinitionsOf(indexes) == DefinitionsOf(oldIndexes);
    }

    /** Binary search over the strictly increasing row ids. */
    method FindRowId(id: nat) returns (position: Option<nat>)
      requires |rowIds| == |rows| && StrictlyIncreasing(rowIds)
      ensures position.Some? ==> position.value < |rowIds| && rowIds[position.value] == id
      ensures position.None? ==> id !in rowIds
    {
      var low, high := 0, |rowIds|;
      while low < high
        invariant low <= high <= |rowIds|
        invariant forall i :: 0 <= i < low ==> rowIds[i] < id
        invariant forall i :: high <= i < |rowIds| ==> id < rowIds[i]
      {
        var middle := (low + high) / 2;
        if rowIds[middle] == id {
          return Some(middle);
        } else if rowIds[middle] < id {
          low := middle + 1;
        } else {
          high := middle;
        }
      }
      return None;
    }

    method PositionsOf(ids: set<nat>) returns (found: set<nat>)
      requires |rowIds| == |rows| && StrictlyIncreasing(rowIds)
      ensures found == set p | 0 <= p < |rows| && rowIds[p] in ids
    {
      found := {};
      var todo := ids;
      while todo != {}
        invariant todo <= ids
        invariant found == set p | 0 <= p < |rows| && rowIds[p] in ids - todo
        decreases todo
      {
        var id :| id in todo;
        var position := FindRowId(id);
        todo := todo - {id};
        if position.Some? {
          found := found + {position.value};
        }
        assert forall p :: 0 <= p < |rows| && rowIds[p] == id ==> position == Some(p);
      }
    }

    /** The positions of the rows that one unique index holds under the row's NULL-free key. */
    method IndexConflicts(i: nat, row: Row) returns (found: set<nat>)
      requires Valid() && i < |indexes|
      ensures found == set p | 0 <= p < |rows| && SharesKey(schema.columns, indexes[i].definition.columns, row, rows[p])
    {
      var index := indexes[i];
      var key := KeyOf(schema.columns, index.definition.columns, row);
      if key.None? || NullPart in key.value {
        return {};
      }
      BucketOf(schema.columns, index.definition.columns, rows, rowIds, key.value);
      RowsOfBucket(schema.columns, index.definition.columns, rows, rowIds, key.value);
      if !MightContain(index.bloom, key.value) || key.value !in index.entries {
        return {};
      }
      found := PositionsOf(index.entries[key.value]);
    }

    /** unique_conflict_positions: exactly the rows that share a NULL-free key with this one on some
        unique index, found through the Bloom filter, the key map and binary search. */
    method UniqueConflictPositions(row: Row) returns (conflicts: set<nat>)
      requires Valid()
      ensures conflicts == ConflictPositions(schema, rows, row)
    {
      conflicts := {};
      for i := 0 to |indexes|
        invariant conflicts == set p | 0 <= p < |rows| && ConflictsIn(DefinitionsOf(indexes[..i]), schema, row, rows[p])
      {
        assert DefinitionsOf(indexes[..i + 1]) == DefinitionsOf(indexes[..i]) + {indexes[i].definition};
        if indexes[i].definition.unique {
          var found := IndexConflicts(i, row);
          conflicts := conflicts + found;
        }
      }
      assert indexes[..|indexes|] == indexes;
    }

    /** candidate_row_ids: every index is probed and the best-scoring probe wins. */
    method CandidateIds(selection: Option<Expr>) returns (ids: Option<set<nat>>)
      ensures ids == CandidateRowIds(View(), selection)
    {
      if selection.None? {
        return None;
      }
      var predicates := CollectIndexPredicates(selection.value);
      var best: Option<Candidates> := None;
      for i := 0 to |indexes|
        invariant best == BestCandidates(indexes[..i], predicates)
      {
        assert indexes[..i + 1][..i] == indexes[..i];
        var probe := ProbeFor(indexes[i].definition.columns, predicates);
        if Score(probe) > 0 && (best.None? || Score(probe) > best.value.score) {
          best := Some(Candidates(ProbeIds(indexes[i], probe), Score(probe)));
        }
      }
      assert indexes[..|indexes|] == indexes;
      ids := match best case Some(c) => Some(c.ids) case None => None;
    }
  }

  // ----------------------------------------------------------------- lemmas for the class

  /** The positions whose id is in the bucket of k are those whose row has the key k. */
  lemma RowsOfBucket(columns: seq<ColumnDef>, key: seq<string>, rows: seq<Row>, ids: seq<nat>, k: IndexKey)
    requires |ids| == |rows| && StrictlyIncreasing(ids)
    ensures (set p | 0 <= p < |rows| && ids[p] in IdsFor(columns, key, rows, ids, k))
         == (set p | 0 <= p < |rows| && KeyOf(columns, key, rows[p]) == Some(k))
  {
    forall p | 0 <= p < |rows|
      ensures ids[p] in IdsFor(columns, key, rows, ids, k) <==> KeyOf(columns, key, rows[p]) == Some(k)
    {
      IdsReplace(columns, key, rows, ids, p, rows[p], k);
    }
  }

  ghost predicate DistinctNames(indexes: seq<BTreeIndex>) {
    forall i, j :: 0 <= i < j < |indexes| ==> indexes[i].definition.name != indexes[j].definition.name
  }

  lemma PutDefinitions(indexes: seq<BTreeIndex>, index: BTreeIndex, at: nat)
    requires at <= |indexes| && DistinctNames(indexes)
    requires forall i :: 0 <= i < at ==> indexes[i].definition.name != index.definition.name
    requires at < |indexes| ==> indexes[at].definition.name == index.definition.name
    ensures var after := if at < |indexes| then indexes[at := index] else indexes + [index];
            DistinctNames(after)
            && DefinitionsOf(after)
               == (set d | d in DefinitionsOf(indexes) && d.name != index.definition.name) + {index.definition}
  {
    var after := if at < |indexes| then indexes[at := index] else indexes + [index];
    forall d | d in DefinitionsOf(indexes) && d.name != index.definition.name ensures d in DefinitionsOf(after) {
      var i :| 0 <= i < |indexes| && indexes[i].definition == d;
      assert after[i].definition == d;
    }
    assert after[at].definition == index.definition;
    forall i | 0 <= i < |after| && i != at
      ensures after[i] == indexes[i] && after[i].definition.name != index.definition.name
    {
    }
  }

  predicate ConflictsIn(definitions: set<IndexDef>, schema: TableSchema, a: Row, b: Row) {
    exists d :: d in definitions && d.unique && SharesKey(schema.columns, d.columns, a, b)
  }
}
