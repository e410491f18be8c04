/** The database and its sessions as objects that change in place; each method takes a step of the
    transaction machine (src/sql/database.rs). */
module Database {
  import opened Wrappers
  import opened Syntax
  import opened Planner
  import opened Relations
  import opened Tables
  import opened TableEngine
  import opened Evaluator
  import opened Execute
  import opened Engine
  import opened CatalogEngine
  import opened Wal
  import opened Transactions
  import opened Serializability
  import opened SqlDurability

  type SqlCatalog = Catalog<Db>

  type SqlDisk = Disk<Db, DurableStatement>

  type SqlServer = Server<Db, DurableStatement>

  type SqlTransaction = Session<Db, DurableStatement, Query, Result<Relation>>

  // ------------------------------------------------------------------- loading tables

  /** migrate_legacy_rows on a current table: the next row id follows the largest one, and every index is
      rebuilt from the rows. */
  method LoadTable(t: Table) returns (loaded: Table)
    requires Maintained(t)
    ensures Maintained(loaded) && Meaning(loaded) == Meaning(t) && loaded.rowIds == t.rowIds
    ensures loaded.nextRowId == if t.rowIds == [] then 1 else t.rowIds[|t.rowIds| - 1] + 1
  {
    var greatest: nat := 0;
    for i := 0 to |t.rowIds|
      invariant i > 0 ==> greatest == t.rowIds[i - 1]
      invariant i == 0 ==> greatest == 0
    {
      if t.rowIds[i] > greatest {
        greatest := t.rowIds[i];
      }
    }
    var live: LiveTable := new LiveTable(Indexed(t.schema, t.rows, t.rowIds, greatest + 1, []));
    live.RebuildIndex();
    loaded := live.View();
  }

  lemma SameMeaning(a: Db, b: Db)
    requires a.Keys == b.Keys && forall name :: name in a ==> Meaning(a[name]) == Meaning(b[name])
    ensures MeaningOf(a) == MeaningOf(b)
  {
  }

  method LoadAll(db: Db) returns (loaded: Db)
    requires AllMaintained(db)
    ensures AllMaintained(loaded) && MeaningOf(loaded) == MeaningOf(db)
  {
    loaded := map[];
    var todo := db.Keys;
    while todo != {}
      invariant todo <= db.Keys && loaded.Keys == db.Keys - todo
      invariant forall name :: name in loaded ==> Maintained(loaded[name]) && Meaning(loaded[name]) == Meaning(db[name])
      decreases todo
    {
      var name :| name in todo;
      var t := LoadTable(db[name]);
      loaded := loaded[name := t];
      todo := todo - {name};
    }
    SameMeaning(loaded, db);
  }

  /** The tables of a snapshot, or those of a catalog whose Bloom filters are configured again. */
  method LoadTables(db: Db) returns (loaded: Db)
    requires ValidStore(db)
    ensures ValidStore(loaded) && MeaningOf(loaded) == MeaningOf(db)
  {
    loaded := LoadAll(db);
    ValidStoreIsValidDb(db);
    StoredFromMeaning(loaded);
  }

  // ------------------------------------------------------------------------- database

  /** execute_catalog, after which the Bloom filters are configured again. */
  method ExecuteLive(db: Db, s: Statement) returns (r: Result<Db>)
    requires ValidStore(db) && Writable(s)
    ensures Executes(db, s, r)
  {
    r := ExecuteCatalog(db, s);
    if r.Ok? {
      var t := LoadTables(r.value);
      r := Ok(t);
    }
  }

  /** An autocommitted write: nothing changes when it fails; otherwise it is logged and published, and a
      schema statement is followed by a checkpoint. */
  ghost predicate AutocommitGives(before: SqlServer, d: DurableStatement, r: Result<Db>, after: SqlServer) {
    && Executes(before.catalog.tables, Live(d), r)
    && if r.Err? then after == before
       else
         var published := Published(before, [d], IsSchemaStatement(Raw(d)), r.value);
         after == if IsSchemaStatement(Raw(d)) then Saved(published) else published
  }

  class SqlDatabase {
    var catalog: SqlCatalog
    var disk: SqlDisk

    function View(): SqlServer
      reads this
    {
      Server(catalog, disk)
    }

    ghost predicate Valid()
      reads this
    {
      ValidTables(catalog.tables)
    }

    constructor (published: SqlCatalog, files: SqlDisk)
      requires ValidTables(published.tables)
      ensures Valid() && View() == Server(published, files)
    {
      catalog, disk := published, files;
    }

    /** log_transaction: replay can read the record, behind all others, exactly when the log was clean. */
    method LogTransaction(base: nat, commit: nat, statements: seq<DurableStatement>)
      modifies this`disk
      ensures disk == old(disk).(wal := Append(old(disk).wal, Full(Record(base, commit, statements))))
      ensures (old(disk).wal.unterminated ==> old(disk).wal.lines != []) ==>
                  var before, after := Readable(old(disk).wal.lines), Readable(disk.wal.lines);
                  && (after == before + [Record(base, commit, statements)] <==> Clean(old(disk).wal))
                  && (Clean(old(disk).wal) ==> Clean(disk.wal))
    {
      ghost var wal := disk.wal;
      disk := disk.(wal := Append(disk.wal, Full(Record(base, commit, statements))));
      if wal.unterminated ==> wal.lines != [] {
        AppendReads(wal, Full(Record(base, commit, statements)));
      }
    }

    /** save: the snapshot first, a new log after it. */
    method Save()
      modifies this`disk
      ensures View() == Saved(old(View()))
    {
      disk := disk.(snapshot := Some(catalog));
      disk := disk.(wal := Wal([], false));
    }

    /** The record is in the log before the tables are published. */
    method Publish(statements: seq<DurableStatement>, schemaChanged: bool, t: Db)
      modifies this
      ensures View() == Published(old(View()), statements, schemaChanged, t)
    {
      LogTransaction(catalog.version, catalog.version + 1, statements);
      catalog := Catalog(catalog.version + 1, catalog.schemaVersion + (if schemaChanged then 1 else 0), t);
    }

    method ExecuteAutocommit(d: DurableStatement) returns (ok: bool)
      requires Valid() && Writable(Live(d))
      modifies this
      ensures Valid()
      ensures exists r :: AutocommitGives(old(View()), d, r, View()) && (ok <==> r.Ok?)
    {
      ghost var before := View();
      var r := ExecuteLive(catalog.tables, Live(d));
      ok := r.Ok?;
      if ok {
        Publish([d], IsSchemaStatement(Raw(d)), r.value);
        if IsSchemaStatement(Raw(d)) {
          Save();
        }
      }
      assert AutocommitGives(before, d, r, View());
    }
  }

  // ------------------------------------------------------------------------- sessions

  class SqlSession {
    const database: SqlDatabase
    var transaction: Option<SqlTransaction>

    constructor (shared: SqlDatabase)
      ensures database == shared && transaction == None
    {
      database, transaction := shared, None;
    }

    ghost predicate Valid()
      reads this, database
    {
      && database.Valid()
      && (transaction.Some? ==> ValidTables(transaction.value.catalog.tables))
    }

    method Begin() returns (ok: bool)
      requires Valid()
      modifies this`transaction
      ensures Valid() && (ok <==> old(transaction).None?)
      ensures !ok ==> transaction == old(transaction)
      ensures ok ==> transaction == Some(Session(database.catalog.version, database.catalog, [], false, [database.catalog.tables], []))
    {
      if transaction.Some? {
        return false;
      }
      transaction := Some(Session(database.catalog.version, database.catalog, [], false, [database.catalog.tables], []));
      return true;
    }

    /** A write inside the transaction changes its own catalog only, and is remembered for the log. */
    method ExecuteInside(d: DurableStatement) returns (ok: bool)
      requires Valid() && transaction.Some? && Writable(Live(d))
      modifies this`transaction
      ensures Valid() && transaction.Some?
      ensures exists r :: Executes(old(transaction).value.catalog.tables, Live(d), r) && (ok <==> r.Ok?)
                          && transaction.value == if r.Ok? then Ran(old(transaction).value, d, IsSchemaStatement(Raw(d)), r.value)
                                                  else old(transaction).value
    {
      var x := transaction.value;
      var r := ExecuteCatalog(x.catalog.tables, Live(d));
      assert Executes(x.catalog.tables, Live(d), r);
      if r.Ok? {
        transaction := Some(Ran(x, d, IsSchemaStatement(Raw(d)), r.value));
      }
      return r.Ok?;
    }

    method QueryInside(q: Query) returns (answer: Result<Relation>)
      requires Valid() && transaction.Some?
      modifies this`transaction
      ensures Valid() && answer == ExecQuery(old(transaction).value.catalog.tables, OptimizeQuery(q), map[])
      ensures var x := old(transaction).value;
              transaction == Some(x.(seen := x.seen + [Read(q, |x.statements|, answer)]))
    {
      var x := transaction.value;
      answer := ExecQuery(x.catalog.tables, OptimizeQuery(q), map[]);
      transaction := Some(x.(seen := x.seen + [Read(q, |x.statements|, answer)]));
    }

    method Rollback()
      requires Valid()
      modifies this`transaction
      ensures Valid() && transaction == None
    {
      transaction := None;
    }

    /** COMMIT: a conflict changes nothing, an empty transaction writes nothing, and any other is logged
        before it is published. Without a transaction it does nothing. */
    method Commit() returns (ok: bool)
      requires Valid()
      modifies this`transaction, database
      ensures Valid() && transaction == None
      ensures old(transaction).None? ==> ok && database.View() == old(database.View())
      ensures old(transaction).Some? ==>
                var x, before := old(transaction).value, old(database.View());
                (ok <==> x.base == before.catalog.version)
                && if ok && x.statements != []
                   then exists t :: ValidTables(t) && MeaningOf(t) == MeaningOf(x.catalog.tables)
                                    && database.View() == Published(before, x.statements, x.schemaChanged, t)
                   else database.View() == before
    {
      if transaction.None? {
        return true;
      }
      var x := transaction.value;
      transaction := None;
      if database.catalog.version != x.base {
        return false;
      }
      if x.statements == [] {
        return true;
      }
      var t := LoadTables(x.catalog.tables);
      database.Publish(x.statements, x.schemaChanged, t);
      return true;
    }
  }

  // -------------------------------------------------------------------------- opening

  /** What the log holds was accepted once: write statements only. */
  ghost predicate WritesOnly(lines: seq<Line<Record<DurableStatement>>>) {
    forall i, k :: 0 <= i < |lines| && lines[i].Whole? && 0 <= k < |lines[i].record.statements| ==>
      Writable(Raw(lines[i].record.statements[k]))
  }

  type ReplayLanguage = Language<Db, Db, DurableStatement, Query, Result<Relation>>

  /** A language whose tables and replay are those of this engine; SqlLanguage is one. */
  ghost predicate ReplaysSql(L: ReplayLanguage) {
    && L.empty == map[]
    && (forall db :: L.valid(db) <==> ValidTables(db))
    && (forall db :: L.meaning(db) == MeaningOf(db))
    && (forall db, d, r :: Executes(db, Raw(d), r) ==> L.replays(db, d, r))
    && (forall d :: L.isSchema(d) <==> IsSchemaStatement(Raw(d)))
  }

  /** The engine's own language meets that. */
  lemma SqlReplays()
    ensures ReplaysSql(SqlLanguage())
  {
  }

  /** The statements of one record, until one fails. */
  method ReplayStatements(ghost L: ReplayLanguage, tables: Db, statements: seq<DurableStatement>) returns (r: Result<Db>, schemas: nat)
    requires ReplaysSql(L) && ValidTables(tables) && forall k :: 0 <= k < |statements| ==> Writable(Raw(statements[k]))
    ensures RunsAll(L.replays, tables, statements, r)
    ensures r.Ok? ==> ValidTables(r.value) && schemas == CountSchema(L.isSchema, statements)
  {
    var current := tables;
    schemas := 0;
    for k := 0 to |statements|
      invariant ValidTables(current) && RunsAll(L.replays, tables, statements[..k], Ok(current))
      invariant schemas == CountSchema(L.isSchema, statements[..k])
    {
      var next := ExecuteCatalog(current, Raw(statements[k]));
      assert Executes(current, Raw(statements[k]), next);
      ReplayedOne(L, tables, statements, k, current, next);
      if next.Err? {
        return Err, 0;
      }
      current := next.value;
      schemas := schemas + if IsSchemaStatement(Raw(statements[k])) then 1 else 0;
    }
    assert statements[..|statements|] == statements;
    r := Ok(current);
  }

  /** One record of the log: skipped, refused or replayed. */
  method ReplayRecord(ghost L: ReplayLanguage, c: SqlCatalog, record: Record<DurableStatement>) returns (r: Result<SqlCatalog>)
    requires ReplaysSql(L) && ValidTables(c.tables)
    requires forall k :: 0 <= k < |record.statements| ==> Writable(Raw(record.statements[k]))
    ensures ReplaysRecord(L, c, record, r)
    ensures r.Ok? ==> ValidTables(r.value.tables)
  {
    var t: Result<Db>, schemas := Err, 0;
    if record.commit > c.version && record.base == c.version {
      t, schemas := ReplayStatements(L, c.tables, record.statements);
    }
    ReplayedRecord(L, c, record, t);
    r := RecordOutcome(c, record, t, schemas);
  }

  /** replay_wal: from the first line to the first that is not a record; it is an error when that is not text. */
  method ReplayWal(ghost L: ReplayLanguage, c: SqlCatalog, lines: seq<Line<Record<DurableStatement>>>) returns (r: Result<SqlCatalog>)
    requires ReplaysSql(L) && ValidTables(c.tables) && WritesOnly(lines)
    ensures if Unreadable(lines) then r == Err else ReplaysAll(L, c, Readable(lines), r)
    ensures r.Ok? ==> ValidTables(r.value.tables)
  {
    var current, i := c, 0;
    while i < |lines| && lines[i].Whole?
      invariant i <= |lines| && forall j :: 0 <= j < i ==> lines[j].Whole?
      invariant ValidTables(current.tables) && ReplaysAll(L, c, Readable(lines[..i]), Ok(current))
    {
      var next := ReplayRecord(L, current, lines[i].record);
      ReplayedLine(L, c, lines, i, current, next);
      if next.Err? {
        return Err;
      }
      current, i := next.value, i + 1;
    }
    ReadablePrefix(lines, i);
    if i < |lines| && lines[i].Garbled? {
      return Err;
    }
    r := Ok(current);
  }

  /** load_catalog up to the log: the snapshot with rebuilt indexes, or an empty catalog. */
  method LoadSnapshot(files: SqlDisk) returns (c: SqlCatalog)
    requires files.snapshot.Some? ==> ValidTables(files.snapshot.value.tables)
    ensures ValidTables(c.tables)
    ensures if files.snapshot.None? then c == Catalog(0, 0, map[])
            else c == files.snapshot.value.(tables := c.tables) && MeaningOf(c.tables) == MeaningOf(files.snapshot.value.tables)
  {
    c := Catalog(0, 0, map[]);
    EmptyIsValid();
    if files.snapshot.Some? {
      var tables := LoadTables(files.snapshot.value.tables);
      c := files.snapshot.value.(tables := tables);
    }
  }

  lemma LoadedCatalog(L: ReplayLanguage, files: SqlDisk, c: SqlCatalog, replayed: Result<SqlCatalog>)
    requires ReplaysSql(L) && ValidTables(c.tables)
    requires if Unreadable(files.wal.lines) then replayed == Err else ReplaysAll(L, c, Readable(files.wal.lines), replayed)
    requires if files.snapshot.None? then c == Catalog(0, 0, map[])
             else c == files.snapshot.value.(tables := c.tables) && MeaningOf(c.tables) == MeaningOf(files.snapshot.value.tables)
    ensures Opens(L, files, replayed)
  {
    assert Loads(L, files, c);
  }

  /** open: the snapshot is loaded and the log replayed; the files are left as they are. */
  method Open(ghost L: ReplayLanguage, files: SqlDisk) returns (r: Result<SqlServer>)
    requires ReplaysSql(L) && WritesOnly(files.wal.lines)
    requires files.snapshot.Some? ==> ValidTables(files.snapshot.value.tables)
    ensures r.Err? ==> Opens(L, files, Err)
    ensures r.Ok? ==> r.value.disk == files
                      && exists c :: Opens(L, files, Ok(c)) && Same(L, c.tables, r.value.catalog.tables)
                                     && r.value.catalog == c.(tables := r.value.catalog.tables)
  {
    var c := LoadSnapshot(files);
    var replayed := ReplayWal(L, c, files.wal.lines);
    LoadedCatalog(L, files, c, replayed);
    if replayed.Err? {
      return Err;
    }
    var configured := LoadTables(replayed.value.tables);
    assert Same(L, replayed.value.tables, configured);
    r := Ok(Server(replayed.value.(tables := configured), files));
  }
}
