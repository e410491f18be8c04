/** PRIMARY KEY and UNIQUE as they are declared: the index definition that each brings along, when that index is in
    force, and what it then rules out (automatic_indexes, refresh_constraint_metadata, rebuild_index and
    validate_unique_indexes in src/sql/executor.rs). */
module DeclaredKeys {
  import opened Wrappers
  import opened Ascii
  import opened Values
  import opened Syntax
  import opened Bloom
  import opened Tables
  import opened TableEngine
  import opened Evaluator
  import opened IndexScan
  import opened Statements
  import opened Ddl
  import opened SchemaInvariants

  // ------------------------------------------------------------------ names of indexes

  /** A definition is not in force only when a different one has its name. */
  lemma {:induction false} HiddenBy(definitions: seq<IndexDef>, d: IndexDef) returns (other: IndexDef)
    requires d in definitions && d !in Effective(definitions)
    ensures other in definitions && other.name == d.name && other != d
    decreases definitions
  {
    var init, last := definitions[..|definitions| - 1], definitions[|definitions| - 1];
    assert definitions == init + [last];
    if last.name == d.name {
      other := last;
    } else {
      other := HiddenBy(init, d);
    }
  }

  ghost predicate AllInForce(definitions: seq<IndexDef>) {
    forall d :: d in definitions ==> d in Effective(definitions)
  }

  ghost predicate NamesDiffer(definitions: seq<IndexDef>) {
    forall a, b :: a in definitions && b in definitions && a.name == b.name ==> a == b
  }

  lemma {:induction false} OneOfEachName(definitions: seq<IndexDef>)
    ensures forall a, b :: a in Effective(definitions) && b in Effective(definitions) && a.name == b.name ==> a == b
    decreases definitions
  {
    if definitions != [] {
      OneOfEachName(definitions[..|definitions| - 1]);
    }
  }

  /** A later definition of the same name hides an earlier one: all definitions are in force if and only if
      no two different ones share a name. */
  lemma NamesDecide(definitions: seq<IndexDef>)
    ensures AllInForce(definitions) <==> NamesDiffer(definitions)
  {
    OneOfEachName(definitions);
    if NamesDiffer(definitions) && !AllInForce(definitions) {
      var d :| d in definitions && d !in Effective(definitions);
      var other := HiddenBy(definitions, d);
      assert false;
    }
  }

  // ------------------------------------------------------------------ rows that share a key

  lemma {:induction false} KeyExists(columns: seq<ColumnDef>, key: seq<string>, row: Row)
    requires ColumnsExist(columns, key) && |row| == |columns|
    ensures KeyOf(columns, key, row).Some?
    decreases key
  {
    if key != [] {
      forall k | 0 <= k < |key| - 1 ensures ColumnIndex(columns, key[1..][k]).Some? {
        assert key[1..][k] == key[k + 1];
      }
      KeyExists(columns, key[1..], row);
    }
  }

  /** The rows hold the same value, and not NULL, in each column of the key. */
  predicate AgreeOn(columns: seq<ColumnDef>, key: seq<string>, a: Row, b: Row)
    requires ColumnsExist(columns, key) && |a| == |b| == |columns|
  {
    forall k :: 0 <= k < |key| ==>
      var c := ColumnIndex(columns, key[k]).value;
      !a[c].Null? && a[c] == b[c]
  }

  lemma PartDecides(v: Value, w: Value)
    ensures PartOf(v) == NullPart <==> v.Null?
    ensures PartOf(v) == PartOf(w) <==> v == w
  {
  }

  lemma PartsDecide(columns: seq<ColumnDef>, key: seq<string>, a: Row, b: Row, k: nat)
    requires ColumnsExist(columns, key) && |a| == |b| == |columns| && k < |key|
    requires KeyOf(columns, key, a).Some? && KeyOf(columns, key, b).Some?
    ensures var c := ColumnIndex(columns, key[k]).value;
            var x, y := KeyOf(columns, key, a).value, KeyOf(columns, key, b).value;
            (x[k] == NullPart <==> a[c].Null?) && (x[k] == y[k] <==> a[c] == b[c])
  {
    PartDecides(a[ColumnIndex(columns, key[k]).value], b[ColumnIndex(columns, key[k]).value]);
  }

  lemma SharesIffAgree(columns: seq<ColumnDef>, key: seq<string>, a: Row, b: Row)
    requires ColumnsExist(columns, key) && |a| == |b| == |columns|
    ensures SharesKey(columns, key, a, b) <==> AgreeOn(columns, key, a, b)
  {
    KeyExists(columns, key, a);
    KeyExists(columns, key, b);
    var x, y := KeyOf(columns, key, a).value, KeyOf(columns, key, b).value;
    forall k | 0 <= k < |key|
      ensures var c := ColumnIndex(columns, key[k]).value;
              (x[k] == NullPart <==> a[c].Null?) && (x[k] == y[k] <==> a[c] == b[c])
    {
      PartsDecide(columns, key, a, b, k);
    }
    assert NullPart in x <==> exists k :: 0 <= k < |x| && x[k] == NullPart;
    assert x == y <==> forall k :: 0 <= k < |x| ==> x[k] == y[k];
  }

  /** No two rows have the same NULL-free key in these columns. */
  ghost predicate NoneRepeats(schema: TableSchema, key: seq<string>, rows: seq<Row>) {
    forall i, j :: 0 <= i < j < |rows| ==> !SharesKey(schema.columns, key, rows[i], rows[j])
  }

  // --------------------------------------------------------- when a constraint is enforced

  predicate InKey(columns: seq<ColumnDef>, key: seq<string>, at: Option<nat>) {
    exists l :: 0 <= l < |key| && ColumnIndex(columns, key[l]) == at
  }

  /** Each column of a is one of b's. */
  predicate Within(columns: seq<ColumnDef>, a: seq<string>, b: seq<string>) {
    forall k :: 0 <= k < |a| ==> InKey(columns, b, ColumnIndex(columns, a[k]))
  }

  /** A unique index in force looks at columns of the key only. */
  ghost predicate Guarded(schema: TableSchema, key: seq<string>) {
    exists d :: d in Effective(schema.indexes) && d.unique && Within(schema.columns, d.columns, key)
  }

  /** Rows that a table of this schema may hold, by their types and NULLs. */
  ghost predicate FitsSchema(schema: TableSchema, rows: seq<Row>) {
    Typed(schema, rows) && forall i :: 0 <= i < |rows| ==> ValidateRow(schema, rows[i])
  }

  lemma WithinAgrees(columns: seq<ColumnDef>, a: seq<string>, b: seq<string>, x: Row, y: Row)
    requires ColumnsExist(columns, a) && ColumnsExist(columns, b) && |x| == |y| == |columns|
    requires Within(columns, a, b) && AgreeOn(columns, b, x, y)
    ensures AgreeOn(columns, a, x, y)
  {
    forall k | 0 <= k < |a|
      ensures var c := ColumnIndex(columns, a[k]).value;
              !x[c].Null? && x[c] == y[c]
    {
      assert InKey(columns, b, ColumnIndex(columns, a[k]));
      var l :| 0 <= l < |b| && ColumnIndex(columns, b[l]) == ColumnIndex(columns, a[k]);
    }
  }

  lemma GuardedIsEnforced(schema: TableSchema, key: seq<string>, rows: seq<Row>)
    requires IndexesExist(schema.columns, schema.indexes) && ColumnsExist(schema.columns, key)
    requires Guarded(schema, key) && FitsSchema(schema, rows) && UniqueHolds(schema, rows)
    ensures NoneRepeats(schema, key, rows)
  {
    var d :| d in Effective(schema.indexes) && d.unique && Within(schema.columns, d.columns, key);
    EffectiveIsDefined(schema.indexes);
    forall i, j | 0 <= i < j < |rows| ensures !SharesKey(schema.columns, key, rows[i], rows[j]) {
      assert !Conflicts(schema, rows[i], rows[j]);
      SharesIffAgree(schema.columns, key, rows[i], rows[j]);
      SharesIffAgree(schema.columns, d.columns, rows[i], rows[j]);
      if AgreeOn(schema.columns, key, rows[i], rows[j]) {
        WithinAgrees(schema.columns, d.columns, key, rows[i], rows[j]);
      }
    }
  }

  /** Two values of each type that columns are declared with. */
  function Sample(t: DataType, other: bool): Value {
    match t
    case IntegerType => Integer(if other then 1 else 0)
    case FloatType => Float(if other then 1.0 else 0.0)
    case TextType => Text(if other then "a" else "")
    case BooleanType => Boolean(other)
    case NullType => Null
  }

  lemma SamplesDiffer(t: DataType, other: bool)
    requires t != NullType
    ensures !Sample(t, other).Null? && TypeOf(Sample(t, other)) == t && Sample(t, other) != Sample(t, !other)
  {
  }

  /** No column is declared without a type. */
  predicate AllTyped(columns: seq<ColumnDef>) {
    forall c :: 0 <= c < |columns| ==> columns[c].dataType != NullType
  }

  /** Two rows that agree exactly on the columns of the key. */
  function Twins(columns: seq<ColumnDef>, key: seq<string>): (r: seq<Row>)
    ensures |r| == 2 && |r[0]| == |r[1]| == |columns|
  {
    [seq(|columns|, c requires 0 <= c < |columns| => Sample(columns[c].dataType, false)),
     seq(|columns|, c requires 0 <= c < |columns| => Sample(columns[c].dataType, !InKey(columns, key, Some(c))))]
  }

  lemma TwinsDiffer(columns: seq<ColumnDef>, key: seq<string>, c: nat)
    requires AllTyped(columns) && c < |columns|
    ensures var twins := Twins(columns, key);
            !twins[0][c].Null? && (twins[0][c] == twins[1][c] <==> InKey(columns, key, Some(c)))
  {
    SamplesDiffer(columns[c].dataType, false);
  }

  lemma TwinsShareWithin(schema: TableSchema, key: seq<string>, names: seq<string>)
    requires AllTyped(schema.columns) && ColumnsExist(schema.columns, names)
    ensures var twins := Twins(schema.columns, key);
            SharesKey(schema.columns, names, twins[0], twins[1]) <==> Within(schema.columns, names, key)
  {
    var twins: seq<Row> := Twins(schema.columns, key);
    SharesIffAgree(schema.columns, names, twins[0], twins[1]);
    forall k | 0 <= k < |names|
      ensures var c := ColumnIndex(schema.columns, names[k]).value;
              !twins[0][c].Null? && (twins[0][c] == twins[1][c] <==> InKey(schema.columns, key, ColumnIndex(schema.columns, names[k])))
    {
      TwinsDiffer(schema.columns, key, ColumnIndex(schema.columns, names[k]).value);
    }
  }

  /** What the engine checks rules out a repeated key over all rows that fit, if and only if some unique index in
      force looks at columns of that key only. */
  lemma EnforcedIffGuarded(schema: TableSchema, key: seq<string>)
    requires IndexesExist(schema.columns, schema.indexes) && ColumnsExist(schema.columns, key) && AllTyped(schema.columns)
    ensures (forall rows :: FitsSchema(schema, rows) && UniqueHolds(schema, rows) ==> NoneRepeats(schema, key, rows))
       <==> Guarded(schema, key)
  {
    if Guarded(schema, key) {
      forall rows | FitsSchema(schema, rows) && UniqueHolds(schema, rows) ensures NoneRepeats(schema, key, rows) {
        GuardedIsEnforced(schema, key, rows);
      }
    } else {
      UnguardedRepeats(schema, key);
    }
  }

  lemma UnguardedRepeats(schema: TableSchema, key: seq<string>)
    requires IndexesExist(schema.columns, schema.indexes) && ColumnsExist(schema.columns, key) && AllTyped(schema.columns)
    requires !Guarded(schema, key)
    ensures var twins := Twins(schema.columns, key);
            FitsSchema(schema, twins) && UniqueHolds(schema, twins) && !NoneRepeats(schema, key, twins)
  {
    var twins := Twins(schema.columns, key);
    EffectiveIsDefined(schema.indexes);
    TwinsShareWithin(schema, key, key);
    assert Within(schema.columns, key, key);
    forall d | d in Effective(schema.indexes) && d.unique ensures !SharesKey(schema.columns, d.columns, twins[0], twins[1]) {
      TwinsShareWithin(schema, key, d.columns);
    }
    TwinsFitSchema(schema, key);
    PairIsUnique(schema, twins);
  }

  lemma TwinsFitSchema(schema: TableSchema, key: seq<string>)
    requires AllTyped(schema.columns)
    ensures FitsSchema(schema, Twins(schema.columns, key))
  {
    forall c, other | 0 <= c < |schema.columns|
      ensures var v := Sample(schema.columns[c].dataType, other);
              !v.Null? && TypeOf(v) == schema.columns[c].dataType
    {
      SamplesDiffer(schema.columns[c].dataType, other);
    }
  }

  lemma PairIsUnique(schema: TableSchema, rows: seq<Row>)
    requires |rows| == 2
    requires forall d :: d in Effective(schema.indexes) && d.unique ==> !SharesKey(schema.columns, d.columns, rows[0], rows[1])
    ensures UniqueHolds(schema, rows)
  {
  }

  // ------------------------------------------------------------ what schema statements keep

  predicate IsKey(c: TableConstraint) {
    c.PrimaryKey? || c.Unique?
  }

  ghost predicate HasKeyIndex(indexes: seq<IndexDef>, key: seq<string>) {
    exists d :: d in indexes && d.automatic && d.unique && d.columns == key
  }

  predicate NotNullable(columns: seq<ColumnDef>, names: seq<string>) {
    forall k :: 0 <= k < |names| && ColumnIndex(columns, names[k]).Some? ==> !columns[ColumnIndex(columns, names[k]).value].nullable
  }

  /** Every PRIMARY KEY and UNIQUE has a unique index definition over its columns, which DROP INDEX refuses to
      drop, and the columns of a PRIMARY KEY are NOT NULL. */
  ghost predicate KeysDeclared(schema: TableSchema) {
    forall c :: c in schema.constraints && IsKey(c) ==>
      HasKeyIndex(schema.indexes, c.columns) && (c.PrimaryKey? ==> NotNullable(schema.columns, c.columns))
  }

  ghost predicate AllKeysDeclared(db: Db) {
    forall name :: name in db ==> KeysDeclared(db[name].schema)
  }

  lemma {:induction false} ConstraintsHaveIndexes(table: string, constraints: seq<TableConstraint>)
    ensures forall c :: c in constraints && IsKey(c) ==> HasKeyIndex(ConstraintIndexes(table, constraints), c.columns)
    decreases constraints
  {
    if constraints != [] {
      var init, last := constraints[..|constraints| - 1], constraints[|constraints| - 1];
      ConstraintsHaveIndexes(table, init);
      forall c | c in constraints && IsKey(c) ensures HasKeyIndex(ConstraintIndexes(table, constraints), c.columns) {
        if c in init {
          var d :| d in ConstraintIndexes(table, init) && d.automatic && d.unique && d.columns == c.columns;
          assert d in ConstraintIndexes(table, constraints);
        } else {
          assert c == last;
          assert IndexDef(ConstraintName(table, last), last.columns, true, true) in ConstraintIndexes(table, constraints);
        }
      }
    }
  }

  lemma {:induction false} ColumnIndexesKeep(table: string, columns: seq<ColumnDef>, indexes: seq<IndexDef>)
    ensures forall d :: d in indexes ==> d in ColumnIndexes(table, columns, indexes)
    decreases columns
  {
    if columns != [] {
      ColumnIndexesKeep(table, columns[..|columns| - 1], indexes);
    }
  }

  /** More definitions take no key's index away. */
  lemma MoreIndexes(some: seq<IndexDef>, more: seq<IndexDef>, key: seq<string>)
    requires HasKeyIndex(some, key) && forall d :: d in some && d.automatic ==> d in more
    ensures HasKeyIndex(more, key)
  {
    var d :| d in some && d.automatic && d.unique && d.columns == key;
    assert d in more;
  }

  lemma AutomaticHasKeys(table: string, columns: seq<ColumnDef>, constraints: seq<TableConstraint>, manual: seq<IndexDef>)
    ensures forall c :: c in constraints && IsKey(c) ==> HasKeyIndex(AutomaticIndexes(table, columns, constraints) + manual, c.columns)
  {
    ConstraintsHaveIndexes(table, constraints);
    ColumnIndexesKeep(table, columns, ConstraintIndexes(table, constraints));
    forall c | c in constraints && IsKey(c) ensures HasKeyIndex(AutomaticIndexes(table, columns, constraints) + manual, c.columns) {
      MoreIndexes(ConstraintIndexes(table, constraints), AutomaticIndexes(table, columns, constraints) + manual, c.columns);
    }
  }

  /** The same names, and nothing NULL that was not NULL before. */
  ghost predicate Tightened(a: seq<ColumnDef>, b: seq<ColumnDef>) {
    |a| == |b| && forall i :: 0 <= i < |a| ==> a[i].name == b[i].name && (!a[i].nullable ==> !b[i].nullable)
  }

  lemma SameNamesFound(a: seq<ColumnDef>, b: seq<ColumnDef>, name: string)
    requires |a| == |b| && forall i :: 0 <= i < |a| ==> a[i].name == b[i].name
    ensures ColumnIndex(a, name) == ColumnIndex(b, name)
  {
    var x, y := ColumnIndex(a, name), ColumnIndex(b, name);
    if x.Some? {
      assert a[x.value].name == b[x.value].name;
    }
    if y.Some? {
      assert a[y.value].name == b[y.value].name;
    }
  }

  lemma TightenedKeeps(a: seq<ColumnDef>, b: seq<ColumnDef>, names: seq<string>)
    requires Tightened(a, b) && NotNullable(a, names)
    ensures NotNullable(b, names)
  {
    forall k | 0 <= k < |names| ensures ColumnIndex(a, names[k]) == ColumnIndex(b, names[k]) {
      SameNamesFound(a, b, names[k]);
    }
  }

  lemma {:induction false} FlaggedIsNotNull(columns: seq<ColumnDef>, names: seq<string>, single: bool)
    ensures Tightened(columns, FlagPrimary(columns, names, single)) && NotNullable(FlagPrimary(columns, names, single), names)
    decreases |names|
  {
    if names != [] {
      var init, last := names[..|names| - 1], names[|names| - 1];
      FlaggedIsNotNull(columns, init, single);
      var before, after := FlagPrimary(columns, init, single), FlagPrimary(columns, names, single);
      assert Tightened(before, after);
      TightenedKeeps(before, after, init);
      SameNamesFound(before, after, last);
      forall k | 0 <= k < |names| && ColumnIndex(after, names[k]).Some? ensures !after[ColumnIndex(after, names[k]).value].nullable {
        if k < |init| {
          assert names[k] == init[k];
        }
      }
    }
  }

  lemma TightenedThrough(a: seq<ColumnDef>, b: seq<ColumnDef>, c: seq<ColumnDef>)
    requires Tightened(a, b) && Tightened(b, c)
    ensures Tightened(a, c)
  {
  }

  lemma ConstraintTightens(columns: seq<ColumnDef>, c: TableConstraint)
    ensures Tightened(columns, FlagConstraint(columns, c))
    ensures c.PrimaryKey? ==> NotNullable(FlagConstraint(columns, c), c.columns)
  {
    if c.PrimaryKey? {
      FlaggedIsNotNull(columns, c.columns, |c.columns| == 1);
    }
  }

  lemma {:induction false} FlagColumnsTightens(columns: seq<ColumnDef>, constraints: seq<TableConstraint>)
    ensures Tightened(columns, FlagColumns(columns, constraints))
    ensures forall c :: c in constraints && c.PrimaryKey? ==> NotNullable(FlagColumns(columns, constraints), c.columns)
    decreases constraints
  {
    if constraints != [] {
      var init, last := constraints[..|constraints| - 1], constraints[|constraints| - 1];
      FlagColumnsTightens(columns, init);
      var before, after := FlagColumns(columns, init), FlagColumns(columns, constraints);
      ConstraintTightens(before, last);
      TightenedThrough(columns, before, after);
      forall c | c in constraints && c.PrimaryKey? ensures NotNullable(after, c.columns) {
        if c in init {
          TightenedKeeps(before, after, c.columns);
        }
      }
    }
  }

  lemma {:induction false} FlagPrimaryKeysTightens(columns: seq<ColumnDef>, constraints: seq<TableConstraint>)
    ensures Tightened(columns, FlagPrimaryKeys(columns, constraints))
    ensures forall c :: c in constraints && c.PrimaryKey? ==> NotNullable(FlagPrimaryKeys(columns, constraints), c.columns)
    decreases constraints
  {
    if constraints != [] {
      var init, last := constraints[..|constraints| - 1], constraints[|constraints| - 1];
      FlagPrimaryKeysTightens(columns, init);
      var before, after := FlagPrimaryKeys(columns, init), FlagPrimaryKeys(columns, constraints);
      if last.PrimaryKey? {
        FlaggedIsNotNull(before, last.columns, |last.columns| == 1);
        TightenedThrough(columns, before, after);
      }
      forall c | c in constraints && c.PrimaryKey? ensures NotNullable(after, c.columns) {
        if c in init && last.PrimaryKey? {
          TightenedKeeps(before, after, c.columns);
        }
      }
    }
  }

  /** Whatever an ALTER operation did, the refresh that follows it declares every key. */
  lemma RefreshDeclaresKeys(schema: TableSchema)
    ensures KeysDeclared(Refresh(schema))
  {
    var columns := FlagColumns(ClearFlags(schema.columns), schema.constraints);
    FlagColumnsTightens(ClearFlags(schema.columns), schema.constraints);
    AutomaticHasKeys(schema.name, columns, schema.constraints, ManualIndexes(schema.indexes));
  }

  lemma CreatedDeclaresKeys(name: string, columns: seq<ColumnDef>, constraints: seq<TableConstraint>)
    ensures var flagged := FlagPrimaryKeys(columns, constraints);
            KeysDeclared(TableSchema(name, flagged, constraints, AutomaticIndexes(name, flagged, constraints)))
  {
    var flagged := FlagPrimaryKeys(columns, constraints);
    FlagPrimaryKeysTightens(columns, constraints);
    AutomaticHasKeys(name, flagged, constraints, []);
    assert AutomaticIndexes(name, flagged, constraints) + [] == AutomaticIndexes(name, flagged, constraints);
  }

  lemma CreateIndexKeepsKeys(schema: TableSchema, d: IndexDef)
    requires KeysDeclared(schema)
    ensures KeysDeclared(schema.(indexes := schema.indexes + [d]))
  {
    forall c | c in schema.constraints && IsKey(c) ensures HasKeyIndex(schema.indexes + [d], c.columns) {
      MoreIndexes(schema.indexes, schema.indexes + [d], c.columns);
    }
  }

  lemma DropIndexKeepsKeys(schema: TableSchema, at: nat)
    requires KeysDeclared(schema) && at < |schema.indexes| && !schema.indexes[at].automatic
    ensures KeysDeclared(schema.(indexes := schema.indexes[..at] + schema.indexes[at + 1..]))
  {
    var fewer := schema.indexes[..at] + schema.indexes[at + 1..];
    forall d | d in schema.indexes && d.automatic ensures d in fewer {
      var i :| 0 <= i < |schema.indexes| && schema.indexes[i] == d;
      assert fewer[if i < at then i else i - 1] == d;
    }
    forall c | c in schema.constraints && IsKey(c) ensures HasKeyIndex(fewer, c.columns) {
      MoreIndexes(schema.indexes, fewer, c.columns);
    }
  }

  lemma RenameKeepsOthers(db: Db, name: string, oldName: string, newName: string)
    requires AllKeysDeclared(db)
    ensures AllKeysDeclared(FollowRenameInCatalog(db, name, oldName, newName))
  {
    forall other | other in db ensures KeysDeclared(Followed(db[other], name, oldName, newName).schema) {
      var t := db[other];
      RefreshDeclaresKeys(t.schema.(constraints := seq(|t.schema.constraints|, i requires 0 <= i < |t.schema.constraints| =>
                                      FollowRename(t.schema.constraints[i], name, oldName, newName))));
    }
  }

  lemma OthersStay(a: Altered, name: string, op: AlterOperation)
    requires ApplyOperation(a, name, op).Ok?
    ensures ApplyOperation(a, name, op).value.db == if op.RenameColumn? then FollowRenameInCatalog(a.db, name, op.oldName, op.newName) else a.db
  {
  }

  lemma OperationKeepsOthers(a: Altered, name: string, op: AlterOperation)
    requires AllKeysDeclared(a.db) && ApplyOperation(a, name, op).Ok?
    ensures AllKeysDeclared(ApplyOperation(a, name, op).value.db)
  {
    OthersStay(a, name, op);
    if op.RenameColumn? {
      RenameKeepsOthers(a.db, name, op.oldName, op.newName);
    }
  }

  lemma {:induction false} OperationsKeepOthers(a: Altered, name: string, operations: seq<AlterOperation>)
    requires AllKeysDeclared(a.db) && ApplyOperations(a, name, operations).Ok?
    ensures AllKeysDeclared(ApplyOperations(a, name, operations).value.db)
    decreases operations
  {
    if operations != [] {
      var init := operations[..|operations| - 1];
      OperationsKeepOthers(a, name, init);
      OperationKeepsOthers(ApplyOperations(a, name, init).value, name, operations[|operations| - 1]);
    }
  }

  /** Every schema statement keeps all keys declared. */
  lemma SchemaChangeKeepsKeys(db: Db, s: Statement)
    requires IsSchemaStatement(s) && AllKeysDeclared(db) && SchemaChange(db, s).Ok?
    ensures AllKeysDeclared(SchemaChange(db, s).value)
  {
    match s
    case CreateTable(table, columns, constraints, _) => CreatedDeclaresKeys(Lower(table), columns, constraints);
    case CreateIndex(index, table, columns, unique, _) =>
      if Lower(table) in db {
        CreateIndexKeepsKeys(db[Lower(table)].schema, IndexDef(Lower(index), columns, unique, false));
      }
    case DropIndex(index, table, _) =>
      var schema := db[Lower(table)].schema;
      var at := FindIndex(schema.indexes, index);
      if at.Some? {
        DropIndexKeepsKeys(schema, at.value);
      }
    case AlterTable(table, operations) =>
      var a := Altered(db, db[Lower(table)].schema, db[Lower(table)].rows);
      OperationsKeepOthers(a, Lower(table), operations);
      RefreshDeclaresKeys(ApplyOperations(a, Lower(table), operations).value.schema);
    case DropTable(_, _) =>
  }

  // ------------------------------------------------------------- what declared keys rule out

  /** With distinct index names, an index in force guards every declared key. */
  lemma NamesApartGuard(schema: TableSchema, c: TableConstraint)
    requires KeysDeclared(schema) && NamesDiffer(schema.indexes) && c in schema.constraints && IsKey(c)
    ensures Guarded(schema, c.columns)
  {
    NamesDecide(schema.indexes);
    var d :| d in schema.indexes && d.automatic && d.unique && d.columns == c.columns;
    assert Within(schema.columns, d.columns, c.columns);
  }

  /** Every row has a NULL-free key in these columns, and different rows have different ones. */
  ghost predicate Identifies(schema: TableSchema, key: seq<string>, rows: seq<Row>) {
    && (forall i :: 0 <= i < |rows| ==> KeyOf(schema.columns, key, rows[i]).Some? && NullPart !in KeyOf(schema.columns, key, rows[i]).value)
    && forall i, j :: 0 <= i < j < |rows| ==> KeyOf(schema.columns, key, rows[i]) != KeyOf(schema.columns, key, rows[j])
  }

  lemma NotNullableKey(schema: TableSchema, names: seq<string>, row: Row)
    requires ColumnsExist(schema.columns, names) && NotNullable(schema.columns, names) && ValidateRow(schema, row)
    ensures KeyOf(schema.columns, names, row).Some? && NullPart !in KeyOf(schema.columns, names, row).value
  {
    KeyExists(schema.columns, names, row);
    var key := KeyOf(schema.columns, names, row).value;
    forall k | 0 <= k < |key| ensures key[k] != NullPart {
      var at := ColumnIndex(schema.columns, names[k]).value;
      assert !schema.columns[at].nullable;
      PartDecides(row[at], row[at]);
    }
  }

  /** A PRIMARY KEY that is guarded identifies every row: its columns are never NULL, and no two rows agree on
      them. */
  lemma PrimaryKeyIdentifies(schema: TableSchema, names: seq<string>, rows: seq<Row>)
    requires ColumnsExist(schema.columns, names) && NotNullable(schema.columns, names)
    requires FitsSchema(schema, rows) && NoneRepeats(schema, names, rows)
    ensures Identifies(schema, names, rows)
  {
    forall i | 0 <= i < |rows|
      ensures KeyOf(schema.columns, names, rows[i]).Some? && NullPart !in KeyOf(schema.columns, names, rows[i]).value
    {
      NotNullableKey(schema, names, rows[i]);
    }
    forall i, j | 0 <= i < j < |rows| ensures KeyOf(schema.columns, names, rows[i]) != KeyOf(schema.columns, names, rows[j]) {
      assert !SharesKey(schema.columns, names, rows[i], rows[j]);
    }
  }

  /** What a declared key promises of the rows. */
  ghost predicate KeyHolds(schema: TableSchema, rows: seq<Row>, c: TableConstraint)
    requires IsKey(c)
  {
    NoneRepeats(schema, c.columns, rows) && (c.PrimaryKey? ==> Identifies(schema, c.columns, rows))
  }

  lemma TableKeysHold(schema: TableSchema, rows: seq<Row>)
    requires KeysDeclared(schema) && IndexesExist(schema.columns, schema.indexes) && ConstraintsExist(schema.columns, schema.constraints)
    requires UniqueHolds(schema, rows) && FitsSchema(schema, rows)
    ensures forall c :: c in schema.constraints && IsKey(c) && Guarded(schema, c.columns) ==> KeyHolds(schema, rows, c)
    ensures NamesDiffer(schema.indexes) ==> forall c :: c in schema.constraints && IsKey(c) ==> Guarded(schema, c.columns)
  {
    forall c | c in schema.constraints && IsKey(c) && Guarded(schema, c.columns) ensures KeyHolds(schema, rows, c) {
      assert ColumnsExist(schema.columns, ConstraintColumns(c));
      GuardedIsEnforced(schema, c.columns, rows);
      if c.PrimaryKey? {
        PrimaryKeyIdentifies(schema, c.columns, rows);
      }
    }
    if NamesDiffer(schema.indexes) {
      forall c | c in schema.constraints && IsKey(c) ensures Guarded(schema, c.columns) {
        NamesApartGuard(schema, c);
      }
    }
  }
}
