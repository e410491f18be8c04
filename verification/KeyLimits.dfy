/** A declared UNIQUE that is not enforced: two constraints of one name in CREATE TABLE, of whose indexes only the
    later one is in force, and an INSERT that repeats a key of the first (src/sql/executor.rs). */
module KeyLimits {
  import opened Wrappers
  import opened Ascii
  import opened Values
  import opened Syntax
  import opened Bloom
  import opened Tables
  import opened TableEngine
  import opened Evaluator
  import opened Statements
  import opened Ddl
  import opened SchemaInvariants
  import opened DeclaredKeys
  import opened Limits

  const A := ColumnDef("a", IntegerType, true, false, false, None, [])

  const B := ColumnDef("b", IntegerType, true, false, false, None, [])

  const KEY_A := Unique(Some("k"), ["a"])

  const KEY_B := Unique(Some("k"), ["b"])

  /** CREATE TABLE t (a INT, b INT, CONSTRAINT k UNIQUE (a), CONSTRAINT k UNIQUE (b)) */
  const CREATE := CreateTable("t", [A, B], [KEY_A, KEY_B], false)

  /** INSERT INTO t VALUES (1, 1), (1, 2) */
  const INSERT := Insert("t", None, ValueRows([[Literal(Integer(1)), Literal(Integer(1))], [Literal(Integer(1)), Literal(Integer(2))]]), [])

  function OneNameTwice(): TableSchema {
    TableSchema("t", [A, B], [KEY_A, KEY_B], [IndexDef("k", ["a"], true, true), IndexDef("k", ["b"], true, true)])
  }

  function Repeated(): seq<Row> {
    [[Integer(1), Integer(1)], [Integer(1), Integer(2)]]
  }

  // --------------------------------------------------------------------- CREATE TABLE

  lemma ColumnsAre(columns: seq<ColumnDef>)
    requires columns == [A, B]
    ensures ColumnIndex(columns, "a") == Some(0) && ColumnIndex(columns, "b") == Some(1)
  {
    assert Lower("a") == "a" && Lower("b") == "b";
    assert columns[1..] == [B];
  }

  lemma IndexesAre(columns: seq<ColumnDef>, constraints: seq<TableConstraint>)
    requires columns == [A, B] && constraints == [KEY_A, KEY_B]
    ensures FlagPrimaryKeys(columns, constraints) == columns
    ensures AutomaticIndexes("t", columns, constraints) == OneNameTwice().indexes
  {
    assert constraints[..1] == [KEY_A] && [KEY_A][..0] == [];
    assert FlagPrimaryKeys(columns, [KEY_A]) == columns;
    assert ConstraintIndexes("t", [KEY_A]) == [IndexDef("k", ["a"], true, true)];
    assert ConstraintIndexes("t", constraints) == OneNameTwice().indexes;
    assert columns[..1] == [A] && [A][..0] == [];
    assert ColumnIndexes("t", [A], OneNameTwice().indexes) == OneNameTwice().indexes;
  }

  lemma CreateIsAccepted(columns: seq<ColumnDef>, constraints: seq<TableConstraint>)
    requires columns == [A, B] && constraints == [KEY_A, KEY_B]
    ensures CreateIsValid(columns, constraints)
  {
    ColumnsAre(columns);
    assert Lower("a") == "a" && Lower("b") == "b";
    assert ConstraintColumns(KEY_A) == ["a"] && ConstraintColumns(KEY_B) == ["b"];
  }

  lemma CreateChanges(db: Db, s: Statement)
    requires db == map[] && s == CREATE
    ensures Changed(db, s) == Ok(map["t" := Plain(OneNameTwice(), [])])
  {
    assert Lower("t") == "t";
    IndexesAre(s.columns, s.constraints);
    CreateIsAccepted(s.columns, s.constraints);
    assert map[]["t" := Plain(OneNameTwice(), [])] == map["t" := Plain(OneNameTwice(), [])];
  }

  // --------------------------------------------------------------------------- INSERT

  lemma OnlyTheSecondIsInForce(schema: TableSchema)
    requires schema == OneNameTwice()
    ensures Effective(schema.indexes) == {IndexDef("k", ["b"], true, true)}
  {
    var first := schema.indexes[0];
    assert schema.indexes[..1] == [first] && [first][..0] == [];
    assert Effective([first]) == {first};
  }

  lemma KeysAre(schema: TableSchema, row: Row, x: int, y: int)
    requires schema == OneNameTwice() && row == [Integer(x), Integer(y)]
    ensures KeyOf(schema.columns, ["a"], row) == Some([IntegerPart(x)]) && KeyOf(schema.columns, ["b"], row) == Some([IntegerPart(y)])
    ensures ValidateRow(schema, row)
  {
    ColumnsAre(schema.columns);
    KeyOfOne(schema.columns, "a", row);
    KeyOfOne(schema.columns, "b", row);
  }

  lemma NoConflict(schema: TableSchema, a: Row, b: Row, x: int, y: int, z: int)
    requires schema == OneNameTwice() && a == [Integer(x), Integer(y)] && b == [Integer(x), Integer(z)] && y != z
    ensures !Conflicts(schema, a, b) && SharesKey(schema.columns, ["a"], a, b)
  {
    OnlyTheSecondIsInForce(schema);
    KeysAre(schema, a, x, y);
    KeysAre(schema, b, x, z);
  }

  lemma InsertedRows(db: Db, schema: TableSchema, incoming: seq<Row>)
    requires schema == OneNameTwice() && incoming == Repeated()
    ensures InsertRows(db, "t", schema, [], incoming, []) == Ok(Effect(incoming, 2))
  {
    var a, b := incoming[0], incoming[1];
    KeysAre(schema, a, 1, 1);
    KeysAre(schema, b, 1, 2);
    NoConflict(schema, b, a, 1, 2, 1);
    assert ConflictPositions(schema, [], a) == {} && ConflictPositions(schema, [a], b) == {};
    assert [] + [a] == [a] && [a] + [b] == incoming;
    assert incoming[..1] == [a] && [a][..0] == [];
    assert InsertRows(db, "t", schema, [], [], []) == Ok(Effect([], 0));
    assert InsertRow(db, "t", schema, [], a, []) == Ok(Effect([a], 1));
    assert InsertRows(db, "t", schema, [], [a], []) == Ok(Effect([a], 1));
    assert InsertRow(db, "t", schema, [a], b, []) == Ok(Effect(incoming, 1));
  }

  lemma ConstantsAre(x: int, y: int)
    ensures Collect(EvalConstants([Literal(Integer(x)), Literal(Integer(y))])) == Ok([Integer(x), Integer(y)])
  {
    var es := [Literal(Integer(x)), Literal(Integer(y))];
    var values := EvalConstants(es);
    assert values[0] == EvalConstant(es[0]) && EvalConstant(es[0]) == Ok(Integer(x));
    assert values[1] == EvalConstant(es[1]) && EvalConstant(es[1]) == Ok(Integer(y));
    assert Collect(values).Ok? && Collect(values).value == [Integer(x), Integer(y)];
  }

  lemma ProposedAre(db: Db, source: InsertSource)
    requires source == INSERT.source
    ensures ProposedRows(db, source) == Ok(Repeated())
  {
    ConstantsAre(1, 1);
    ConstantsAre(1, 2);
    var rows := ConstantRows(source.rows);
    assert rows[0] == Ok(Repeated()[0]) && rows[1] == Ok(Repeated()[1]);
    assert Collect(rows).Ok? && Collect(rows).value == Repeated();
  }

  lemma PreparedAre(columns: seq<ColumnDef>, rows: seq<Row>)
    requires columns == [A, B] && rows == Repeated()
    ensures Collect(PrepareRows(columns, None, rows)) == Ok(rows)
  {
    assert CompleteRow(columns, rows[0]) == rows[0] && CompleteRow(columns, rows[1]) == rows[1];
    var prepared := PrepareRows(columns, None, rows);
    assert prepared[0] == Ok(rows[0]) && prepared[1] == Ok(rows[1]);
    assert Collect(prepared).Ok? && Collect(prepared).value == rows;
  }

  lemma InsertChanges(db: Db, s: Statement)
    requires db == map["t" := Plain(OneNameTwice(), [])] && s == INSERT
    ensures ChangedRows(db, s) == Ok(Effect(Repeated(), 2))
  {
    assert Lower("t") == "t" && "t" in db;
    ProposedAre(db, s.source);
    PreparedAre(db["t"].schema.columns, Repeated());
    InsertedRows(db, db["t"].schema, Repeated());
  }

  lemma InsertDecided(db: Db, s: Statement, name: string, effect: Effect)
    requires s.Insert? && name == Lower(s.table) && name in db && ChangedRows(db, s) == Ok(effect)
    ensures Changed(db, s) == Ok(db[name := Plain(db[name].schema, effect.rows)])
  {
  }

  // ------------------------------------------------------------------------ both together

  lemma RowsAreUnique(schema: TableSchema, rows: seq<Row>)
    requires schema == OneNameTwice() && rows == Repeated()
    ensures UniqueHolds(schema, rows) && !NoneRepeats(schema, KEY_A.columns, rows)
    ensures ValidateRow(schema, rows[0]) && ValidateRow(schema, rows[1])
  {
    KeysAre(schema, rows[0], 1, 1);
    KeysAre(schema, rows[1], 1, 2);
    NoConflict(schema, rows[0], rows[1], 1, 1, 2);
  }

  lemma SatisfiedByKeys(db: Db, t: Table)
    requires forall c :: 0 <= c < |t.schema.constraints| ==> IsKey(t.schema.constraints[c])
    requires UniqueHolds(t.schema, t.rows) && forall i :: 0 <= i < |t.rows| ==> ValidateRow(t.schema, t.rows[i])
    ensures TableSatisfies(db, t)
  {
  }

  lemma RowsSatisfy(db: Db, t: Table)
    requires t == Plain(OneNameTwice(), []) || t == Plain(OneNameTwice(), Repeated())
    ensures TableSatisfies(db, t)
  {
    if t.rows != [] {
      RowsAreUnique(t.schema, t.rows);
    }
    SatisfiedByKeys(db, t);
  }

  lemma Accepted(m: Db, rows: seq<Row>)
    requires m == map["t" := Plain(OneNameTwice(), rows)] && (rows == [] || rows == Repeated())
    ensures ConstraintsHold(m)
  {
    RowsSatisfy(m, m["t"]);
  }

  lemma CreateRuns(db: Db, s: Statement, created: Db)
    requires db == map[] && s == CREATE && created == map["t" := Plain(OneNameTwice(), [])]
    ensures ExecWrite(db, s) == Ok(created)
  {
    CreateChanges(db, s);
    Accepted(created, []);
  }

  lemma InsertRuns(db: Db, s: Statement, filled: Db)
    requires db == map["t" := Plain(OneNameTwice(), [])] && s == INSERT && filled == map["t" := Plain(OneNameTwice(), Repeated())]
    ensures ExecWrite(db, s) == Ok(filled)
  {
    assert Lower("t") == "t";
    InsertChanges(db, s);
    InsertDecided(db, s, "t", Effect(Repeated(), 2));
    assert db["t" := Plain(db["t"].schema, Repeated())] == filled;
    Accepted(filled, Repeated());
  }

  /** Both statements are accepted, and the table then holds two rows with the same key under its first declared
      UNIQUE constraint. */
  lemma HiddenIndexAllowsDuplicates(create: Statement, insert: Statement) returns (created: Db, filled: Db)
    requires create == CREATE && insert == INSERT
    ensures ExecWrite(map[], create) == Ok(created) && ExecWrite(created, insert) == Ok(filled)
    ensures "t" in filled && KEY_A in filled["t"].schema.constraints && !NoneRepeats(filled["t"].schema, KEY_A.columns, filled["t"].rows)
  {
    created := map["t" := Plain(OneNameTwice(), [])];
    filled := map["t" := Plain(OneNameTwice(), Repeated())];
    CreateRuns(map[], create, created);
    InsertRuns(created, insert, filled);
    RowsAreUnique(OneNameTwice(), Repeated());
  }
}
