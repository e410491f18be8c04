/** Replay of the engine's own statements: whatever it does can be stored, and where it comes to a full scan it
    fails exactly when the statement, as written, fails on full scans (src/sql/database.rs). */
module ReplayableSql {
  import opened Wrappers
  import opened Values
  import opened Syntax
  import opened Bloom
  import opened Relations
  import opened Tables
  import opened TableEngine
  import opened Evaluator
  import opened OptimizerSound
  import opened SchemaInvariants
  import opened Execute
  import opened CatalogEngine
  import opened Transactions
  import opened Replays
  import opened SqlDurability
  import opened Limits

  // ------------------------------------------------------------- a store for every meaning

  /** The definitions in force, in their order. */
  function InForce(definitions: seq<IndexDef>): seq<IndexDef> {
    if definitions == [] then []
    else
      var last := definitions[|definitions| - 1];
      Unlike(InForce(definitions[..|definitions| - 1]), last.name) + [last]
  }

  function Unlike(definitions: seq<IndexDef>, name: string): seq<IndexDef> {
    if definitions == [] then []
    else
      var last := definitions[|definitions| - 1];
      Unlike(definitions[..|definitions| - 1], name) + if last.name == name then [] else [last]
  }

  lemma {:induction false} UnlikeAre(definitions: seq<IndexDef>, name: string)
    ensures forall d :: d in Unlike(definitions, name) <==> d in definitions && d.name != name
    decreases definitions
  {
    if definitions != [] {
      UnlikeAre(definitions[..|definitions| - 1], name);
    }
  }

  lemma {:induction false} InForceAre(definitions: seq<IndexDef>)
    ensures forall d :: d in InForce(definitions) <==> d in Effective(definitions)
    decreases definitions
  {
    if definitions != [] {
      InForceAre(definitions[..|definitions| - 1]);
      UnlikeAre(InForce(definitions[..|definitions| - 1]), definitions[|definitions| - 1].name);
    }
  }

  function Numbers(n: nat): (r: seq<nat>)
    ensures |r| == n
  {
    seq(n, i requires 0 <= i < n => i + 1)
  }

  /** An index as declared, behind a filter that passes everything. */
  function IndexOf(schema: TableSchema, rows: seq<Row>, d: IndexDef): BTreeIndex {
    BTreeIndex(d, EntriesOf(schema.columns, d.columns, rows, Numbers(|rows|)), BloomBits([0xFFFF_FFFF_FFFF_FFFF], 1))
  }

  function StoreOf(t: Table): Table {
    var chosen := InForce(t.schema.indexes);
    Indexed(t.schema, t.rows, Numbers(|t.rows|), |t.rows| + 1,
            seq(|chosen|, i requires 0 <= i < |chosen| => IndexOf(t.schema, t.rows, chosen[i])))
  }

  lemma StoreIsConsistent(t: Table)
    ensures Consistent(StoreOf(t)) && DefinitionsOf(StoreOf(t).indexes) == Effective(t.schema.indexes) && Meaning(StoreOf(t)) == Meaning(t)
  {
    var stored, chosen := StoreOf(t), InForce(t.schema.indexes);
    InForceAre(t.schema.indexes);
    AllBitsPass(BloomBits([0xFFFF_FFFF_FFFF_FFFF], 1));
    forall d ensures d in DefinitionsOf(stored.indexes) <==> d in chosen {
      if d in chosen {
        var i :| 0 <= i < |chosen| && chosen[i] == d;
        assert stored.indexes[i].definition == d;
      }
    }
  }

  function StoredDb(m: Db): Db {
    map name | name in m :: StoreOf(m[name])
  }

  lemma StoredDbIsValid(m: Db)
    requires PlainDb(m) && DbOk(m)
    ensures ValidStore(StoredDb(m)) && MeaningOf(StoredDb(m)) == m
  {
    forall name | name in m ensures Consistent(StoreOf(m[name])) && Meaning(StoreOf(m[name])) == m[name]
                                    && DefinitionsOf(StoreOf(m[name]).indexes) == Effective(m[name].schema.indexes) {
      StoreIsConsistent(m[name]);
    }
  }

  lemma ChangeIsPlain(db: Db, s: Statement)
    requires IsWrite(s) && StoredChange(db, s).Ok?
    ensures PlainDb(StoredChange(db, s).value)
  {
    if IsSchemaStatement(s) {
      SchemaKeepsCounts(MeaningOf(db), s);
    }
  }

  /** Execution of a write on valid stored tables always has an outcome. */
  lemma ExecutesSomehow(db: Db, s: Statement) returns (r: Result<Db>)
    requires ValidStore(db) && Writable(s)
    ensures Executes(db, s, r)
  {
    r := Err;
    if StoredWrite(db, s).Ok? {
      StoredChangeKeepsOk(db, s);
      ChangeIsPlain(db, s);
      StoredDbIsValid(StoredWrite(db, s).value);
      r := Ok(StoredDb(StoredWrite(db, s).value));
    }
  }

  // ------------------------------------------------------------------ statements replayed

  /** On every store of these tables, replay does what the statement as written does on full scans, and when that
      succeeds it gives these tables. */
  ghost predicate ReplaysPlainly(m: Db, d: DurableStatement, next: Db) {
    && Writable(Raw(d))
    && (forall u :: ValidTables(u) && MeaningOf(u) == m ==> StoredWrite(u, Raw(d)) == ExecWrite(m, Raw(d)))
    && (ExecWrite(m, Raw(d)).Ok? ==> ExecWrite(m, Raw(d)).value == next)
  }

  /** A dependable statement does, and gives what live execution gave. */
  lemma DependableReplaysPlainly(db: Db, d: DurableStatement, r: Db)
    requires ValidTables(db) && Dependable(MeaningOf(db), d) && Executes(db, Live(d), Ok(r))
    ensures ReplaysPlainly(MeaningOf(db), d, MeaningOf(r)) && ExecWrite(MeaningOf(db), Raw(d)).Ok?
  {
    DependableExecutes(db, d, Live(d), Ok(r));
    forall u | ValidTables(u) && MeaningOf(u) == MeaningOf(db) ensures StoredWrite(u, Raw(d)) == ExecWrite(MeaningOf(db), Raw(d)) {
      ValidStoreIsValidDb(u);
      assert Succeeds(u, Raw(d));
      var sure :| IndexSafeStatement(u, Raw(d), sure);
      StoredWriteRefines(u, Raw(d), sure);
    }
  }

  type Tongue = Language<Db, Db, DurableStatement, Query, Result<Relation>>

  /** A language whose tables and replay are those of this engine; SqlLanguage is one. */
  ghost predicate ReplaysAsSql(L: Tongue) {
    && (forall db :: L.valid(db) <==> ValidTables(db))
    && (forall db :: L.meaning(db) == MeaningOf(db))
    && (forall db, d, r :: L.replays(db, d, r) <==> Executes(db, Raw(d), r))
  }

  /** The engine's own language meets that. */
  lemma SqlReplaysAsSql(L: Tongue)
    requires L == SqlLanguage()
    ensures ReplaysAsSql(L)
  {
  }

  lemma PlainReplay(u: Db, d: DurableStatement, m: Db, next: Db, r: Result<Db>)
    requires ValidTables(u) && MeaningOf(u) == m && ReplaysPlainly(m, d, next) && Executes(u, Raw(d), r)
    ensures r.Err? <==> ExecWrite(m, Raw(d)).Err?
    ensures r.Ok? ==> ValidTables(r.value) && MeaningOf(r.value) == next
  {
    if r.Ok? {
      ExecutedIsValid(u, Raw(d), r.value);
    }
  }

  /** Stores of the same tables agree on such a statement, and it fails in replay exactly when it fails, as written,
      on full scans. */
  lemma PlainlyIsJudged(L: Tongue, t: Db, d: DurableStatement, next: Db)
    requires ReplaysAsSql(L) && ValidTables(t) && ReplaysPlainly(MeaningOf(t), d, MeaningOf(next))
    ensures Judged(L, t, d, next) && (FailsAsWritten(L, t, d) <==> ExecWrite(MeaningOf(t), Raw(d)).Err?)
  {
    forall u | Same(L, t, u) ensures exists r :: L.replays(u, d, r) {
      ReplaysSomehow(L, u, d);
    }
    forall u, r | Same(L, t, u) && L.replays(u, d, r)
      ensures (r.Err? <==> ExecWrite(MeaningOf(t), Raw(d)).Err?) && (r.Ok? ==> Same(L, next, r.value))
    {
      PlainReplay(u, d, MeaningOf(t), MeaningOf(next), r);
    }
    JudgedByVerdict(L, t, d, next, ExecWrite(MeaningOf(t), Raw(d)).Err?);
  }

  lemma ReplaysSomehow(L: Tongue, u: Db, d: DurableStatement)
    requires ReplaysAsSql(L) && ValidTables(u) && Writable(Raw(d))
    ensures exists r :: L.replays(u, d, r)
  {
    var r := ExecutesSomehow(u, Raw(d));
    assert L.replays(u, d, r);
  }

  // ------------------------------------------------------------------------- the equivalence

  ghost function Plainly(): (Db, DurableStatement, Db) -> bool {
    (t: Db, d: DurableStatement, next: Db) => ReplaysPlainly(MeaningOf(t), d, MeaningOf(next))
  }

  /** As written, on full scans. */
  ghost function FailsOnFullScans(): (Db, DurableStatement) -> bool {
    (t: Db, d: DurableStatement) => IsWrite(Raw(d)) && ExecWrite(MeaningOf(t), Raw(d)).Err?
  }

  lemma FullScansDecide(L: Tongue)
    requires ReplaysAsSql(L)
    ensures Decides(L, Plainly(), FailsOnFullScans())
  {
    forall t, s, next | L.valid(t) && Plainly()(t, s, next)
      ensures Judged(L, t, s, next) && (FailsAsWritten(L, t, s) <==> FailsOnFullScans()(t, s))
    {
      PlainlyIsJudged(L, t, s, next);
    }
  }

  /** A database whose logged statements replay plainly opens if and only if reading its log gets to no line that is
      not text and none of them fails, as written, on full scans of the tables where it was accepted. */
  lemma SqlOpensIffNothingFails(L: Tongue, disk: Disk<Db, DurableStatement>, records: seq<Record<DurableStatement>>, trails: seq<seq<Db>>)
    requires L == SqlLanguage() && records == Wal.Readable(disk.wal.lines)
    requires disk.snapshot.Some? ==> L.valid(disk.snapshot.value.tables)
    requires LoggedAs(L, Plainly(), StartOf(L, disk), SnapshotVersion(disk), records, trails)
    ensures (exists c :: Opens(L, disk, Ok(c))) <==> !Wal.Unreadable(disk.wal.lines) && !SomeVerdict(FailsOnFullScans(), records, trails)
    ensures Opens(L, disk, Err) <==> Wal.Unreadable(disk.wal.lines) || SomeVerdict(FailsOnFullScans(), records, trails)
  {
    SqlIsLawful();
    SqlReplaysAsSql(L);
    FullScansDecide(L);
    OpensIffNoVerdict(L, Plainly(), FailsOnFullScans(), disk, records, trails);
  }
}
