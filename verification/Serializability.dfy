/** Every run of transactions, autocommits, checkpoints and crashes is serial: what the step machine keeps
    whatever the statements are (src/sql/database.rs). */
module Serializability {
  import opened Wrappers
  import opened Wal
  import opened Transactions

  // ------------------------------------------------------------- what a disk holds

  function Max(a: nat, b: nat): nat {
    if a < b then b else a
  }

  /** The version that opening reaches. */
  function Reached<S>(v: nat, records: seq<Record<S>>): nat {
    if records == [] then v else Max(Reached(v, records[..|records| - 1]), records[|records| - 1].commit)
  }

  function Durable<T, S>(disk: Disk<T, S>): nat {
    Reached(SnapshotVersion(disk), Readable(disk.wal.lines))
  }

  /** The readable records are consecutive commits of the history, without a gap after the snapshot. */
  ghost predicate RecordsMatch<S>(records: seq<Record<S>>, history: seq<seq<S>>, snapshotVersion: nat) {
    && (forall i :: 0 <= i < |records| ==>
          records[i].commit == records[i].base + 1 <= |history| && records[i].statements == history[records[i].base])
    && (forall i :: 0 < i < |records| ==> records[i].base == records[i - 1].commit)
    && (records != [] ==> records[0].base <= snapshotVersion)
  }

  ghost predicate DiskOk<T(!new), M, S(!new), Q(!new), A>(L: Language<T, M, S, Q, A>, disk: Disk<T, S>, history: seq<seq<S>>) {
    var records := Readable(disk.wal.lines);
    && SnapshotVersion(disk) <= |history|
    && (disk.snapshot.Some? ==> L.valid(disk.snapshot.value.tables))
    && (disk.wal.unterminated ==> disk.wal.lines != [])
    && RecordsMatch(records, history, SnapshotVersion(disk))
    && (Clean(disk.wal) ==> |history| == LastVersion(records, SnapshotVersion(disk)))
  }

  lemma {:induction false} ReachedBounds<S>(records: seq<Record<S>>, history: seq<seq<S>>, v: nat)
    requires RecordsMatch(records, history, v) && v <= |history|
    ensures v <= Reached(v, records) <= |history|
    ensures records != [] ==> Reached(v, records) == Max(v, records[|records| - 1].commit)
    decreases records
  {
    if records != [] {
      ReachedBounds(records[..|records| - 1], history, v);
    }
  }

  lemma RecordsPrefix<S>(records: seq<Record<S>>, history: seq<seq<S>>, v: nat, n: nat)
    requires RecordsMatch(records, history, v) && n <= |records|
    ensures RecordsMatch(records[..n], history, v)
  {
  }

  lemma {:induction false} ReachedGrows<S>(v: nat, records: seq<Record<S>>, n: nat)
    requires n <= |records|
    ensures Reached(v, records[..n]) <= Reached(v, records)
    decreases |records|
  {
    if n < |records| {
      assert records[..|records| - 1][..n] == records[..n];
      ReachedGrows(v, records[..|records| - 1], n);
    } else {
      assert records[..n] == records;
    }
  }

  lemma LongerHistoryMatches<S>(records: seq<Record<S>>, history: seq<seq<S>>, statements: seq<S>, v: nat)
    requires RecordsMatch(records, history, v)
    ensures RecordsMatch(records, history + [statements], v)
  {
    assert forall k :: 0 <= k < |history| ==> (history + [statements])[k] == history[k];
  }

  /** The version of the last readable record, or of the snapshot when there is none. */
  function LastVersion<S>(records: seq<Record<S>>, v: nat): nat {
    if records == [] then v else records[|records| - 1].commit
  }

  /** The next commit continues records that end where the history does. */
  lemma NextMatches<S>(records: seq<Record<S>>, history: seq<seq<S>>, next: Record<S>, v: nat)
    requires RecordsMatch(records, history, v) && v <= |history| == LastVersion(records, v)
    requires next.base == |history| && next.commit == |history| + 1
    ensures RecordsMatch(records + [next], history + [next.statements], v)
    ensures Reached(v, records) == |history| && Reached(v, records + [next]) == |history| + 1
  {
    LongerHistoryMatches(records, history, next.statements, v);
    ReachedBounds(records, history, v);
    assert (records + [next])[..|records|] == records;
  }

  /** Losing the last record, or none. */
  lemma FewerMatch<S>(records: seq<Record<S>>, history: seq<seq<S>>, statements: seq<S>, v: nat, n: nat)
    requires RecordsMatch(records, history, v) && n <= |records|
    ensures RecordsMatch(records[..n], history + [statements], v)
    ensures Reached(v, records[..n]) <= Reached(v, records)
  {
    LongerHistoryMatches(records, history, statements, v);
    RecordsPrefix(records, history + [statements], v, n);
    ReachedGrows(v, records, n);
  }

  lemma CleanAppend<T(!new), M, S(!new), Q(!new), A>(L: Language<T, M, S, Q, A>, disk: Disk<T, S>, history: seq<seq<S>>, statements: seq<S>, piece: Piece<Record<S>>)
    requires DiskOk(L, disk, history) && Clean(disk.wal)
    requires PieceOf(piece, Record(|history|, |history| + 1, statements))
    ensures var after := disk.(wal := Append(disk.wal, piece));
            DiskOk(L, after, history + [statements])
            && Durable(disk) == |history| && Durable(after) == |history| + (if piece.Partial? then 0 else 1)
  {
    var records, v, after := Readable(disk.wal.lines), SnapshotVersion(disk), Append(disk.wal, piece);
    AppendReads(disk.wal, piece);
    AppendedClean(disk.wal, piece);
    NextMatches(records, history, Record(|history|, |history| + 1, statements), v);
    if piece.Partial? {
      assert Readable(after.lines) == records;
      LongerHistoryMatches(records, history, statements, v);
    } else {
      assert Readable(after.lines) == records + [Record(|history|, |history| + 1, statements)];
    }
  }

  lemma SpoiledAppend<T(!new), M, S(!new), Q(!new), A>(L: Language<T, M, S, Q, A>, disk: Disk<T, S>, history: seq<seq<S>>, statements: seq<S>, piece: Piece<Record<S>>)
    requires DiskOk(L, disk, history) && !Clean(disk.wal)
    ensures var after := disk.(wal := Append(disk.wal, piece));
            DiskOk(L, after, history + [statements]) && Durable(after) <= Durable(disk)
  {
    var records, v := Readable(disk.wal.lines), SnapshotVersion(disk);
    AppendReads(disk.wal, piece);
    AppendedClean(disk.wal, piece);
    var n := |Readable(Append(disk.wal, piece).lines)|;
    assert n <= |records| && Readable(Append(disk.wal, piece).lines) == records[..n];
    FewerMatch(records, history, statements, v, n);
  }

  /** Appending the next commit keeps the disk in agreement with the extended history. A clean log gains
      exactly what arrives in full; any other log gains nothing. */
  lemma DiskAppend<T(!new), M, S(!new), Q(!new), A>(L: Language<T, M, S, Q, A>, disk: Disk<T, S>, history: seq<seq<S>>, statements: seq<S>, piece: Piece<Record<S>>)
    requires DiskOk(L, disk, history)
    requires PieceOf(piece, Record(|history|, |history| + 1, statements))
    ensures var after := disk.(wal := Append(disk.wal, piece));
            DiskOk(L, after, history + [statements])
            && Durable(disk) <= |history|
            && if Clean(disk.wal) then Durable(disk) == |history| && Durable(after) == |history| + (if piece.Partial? then 0 else 1)
               else Durable(after) <= Durable(disk)
  {
    if Clean(disk.wal) {
      CleanAppend(L, disk, history, statements, piece);
    } else {
      SpoiledAppend(L, disk, history, statements, piece);
      ReachedBounds(Readable(disk.wal.lines), history, SnapshotVersion(disk));
    }
  }

  lemma AppendedClean<S>(wal: Wal<Record<S>>, piece: Piece<Record<S>>)
    requires wal.unterminated ==> wal.lines != []
    ensures Clean(Append(wal, piece)) ==> Clean(wal) && piece.Full?
  {
    var after := Append(wal, piece);
    assert !wal.unterminated ==> forall i :: 0 <= i < |wal.lines| ==> after.lines[i] == wal.lines[i];
    assert wal.unterminated ==> !after.lines[|wal.lines| - 1].Whole?;
  }

  // --------------------------------------------------------------- the invariant

  /** Tables after each statement of a transaction. */
  ghost predicate Trail<T(!new), S(!new)>(run: (T, S, Result<T>) -> bool, trail: seq<T>, statements: seq<S>) {
    |trail| == |statements| + 1
    && forall i :: 0 <= i < |statements| ==> run(trail[i], statements[i], Ok(trail[i + 1]))
  }

  /** A transaction sees the tables of its base version with its own statements run on them, and every
      read it made was of one of those. */
  ghost predicate SessionOk<T(!new), M, S(!new), Q(!new), A>(L: Language<T, M, S, Q, A>, x: Session<T, S, Q, A>, start: nat, versions: seq<T>) {
    && start <= x.base < start + |versions|
    && x.catalog.version == x.base
    && Trail(L.runs, x.trail, x.statements)
    && x.trail[0] == versions[x.base - start]
    && x.trail[|x.statements|] == x.catalog.tables
    && (forall i :: 0 <= i < |x.trail| ==> L.valid(x.trail[i]))
    && forall k :: 0 <= k < |x.seen| ==>
         x.seen[k].after <= |x.statements| && x.seen[k].answer == L.answer(x.trail[x.seen[k].after], x.seen[k].query)
  }

  ghost predicate VersionsOk<T(!new), M, S(!new), Q(!new), A>(L: Language<T, M, S, Q, A>, history: seq<seq<S>>, start: nat, versions: seq<T>) {
    && start + |versions| == |history| + 1 && versions != []
    && (forall i :: 0 <= i < |versions| ==> L.valid(versions[i]))
    && forall i :: 0 <= i < |versions| - 1 ==> RunsAll(L.runs, versions[i], history[start + i], Ok(versions[i + 1]))
  }

  /** The published catalog is the serial outcome of the committed statement lists, one version each. */
  ghost predicate Consistent<T(!new), M, S(!new), Q(!new), A>(L: Language<T, M, S, Q, A>, a: System<T, S, Q, A>) {
    match a
    case Up(server, sessions, history, start, versions) =>
      && server.catalog.version == |history|
      && VersionsOk(L, history, start, versions)
      && server.catalog.tables == versions[|versions| - 1]
      && (forall id :: id in sessions ==> SessionOk(L, sessions[id], start, versions))
      && DiskOk(L, server.disk, history)
    case Down(disk, acknowledged, history) =>
      && acknowledged <= |history| <= acknowledged + 1
      && DiskOk(L, disk, history)
  }

  // ---------------------------------------------------------------- each step keeps it

  lemma {:induction false} TrailRuns<T(!new), S(!new)>(run: (T, S, Result<T>) -> bool, trail: seq<T>, statements: seq<S>)
    requires Trail(run, trail, statements)
    ensures RunsAll(run, trail[0], statements, Ok(trail[|statements|]))
    decreases statements
  {
    if statements != [] {
      var last := |statements| - 1;
      assert Trail(run, trail[..|trail| - 1], statements[..last]);
      TrailRuns(run, trail[..|trail| - 1], statements[..last]);
      assert run(trail[last], statements[last], Ok(trail[last + 1]));
    }
  }

  lemma ExecuteKeeps<T(!new), M, S(!new), Q(!new), A>(L: Language<T, M, S, Q, A>, a: System<T, S, Q, A>, id: nat, s: S, b: System<T, S, Q, A>)
    requires Lawful(L) && Consistent(L, a) && ExecuteStep(L, a, id, s, b)
    ensures Consistent(L, b)
  {
    var x := a.sessions[id];
    var r :| L.runs(x.catalog.tables, s, r)
             && b == if r.Err? then a else a.(sessions := a.sessions[id := Ran(x, s, L.isSchema(s), r.value)]);
    if r.Ok? {
      assert L.valid(x.trail[|x.statements|]);
      assert L.runs(x.catalog.tables, s, Ok(r.value)) && L.valid(r.value);
      assert SessionOk(L, Ran(x, s, L.isSchema(s), r.value), a.start, a.versions);
    }
  }

  lemma VersionsAppend<T(!new), M, S(!new), Q(!new), A>(L: Language<T, M, S, Q, A>, history: seq<seq<S>>, start: nat, versions: seq<T>, statements: seq<S>, t: T)
    requires VersionsOk(L, history, start, versions) && L.valid(t)
    requires RunsAll(L.runs, versions[|versions| - 1], statements, Ok(t))
    ensures VersionsOk(L, history + [statements], start, versions + [t])
  {
    var longer, more := history + [statements], versions + [t];
    forall i | 0 <= i < |more| - 1 ensures RunsAll(L.runs, more[i], longer[start + i], Ok(more[i + 1])) {
      if i < |versions| - 1 {
        assert RunsAll(L.runs, versions[i], history[start + i], Ok(versions[i + 1]));
      }
    }
  }

  lemma SessionKept<T(!new), M, S(!new), Q(!new), A>(L: Language<T, M, S, Q, A>, x: Session<T, S, Q, A>, start: nat, versions: seq<T>, t: T)
    requires SessionOk(L, x, start, versions)
    ensures SessionOk(L, x, start, versions + [t])
  {
  }

  /** Publishing a commit that runs on the current tables. */
  lemma CommittedKeeps<T(!new), M, S(!new), Q(!new), A>(L: Language<T, M, S, Q, A>, a: System<T, S, Q, A>, statements: seq<S>, schemaChanged: bool, t: T)
    requires a.Up? && Consistent(L, a) && L.valid(t)
    requires RunsAll(L.runs, a.server.catalog.tables, statements, Ok(t))
    ensures Consistent(L, Committed(a, statements, schemaChanged, t))
  {
    DiskAppend(L, a.server.disk, a.history, statements, Full(Record(|a.history|, |a.history| + 1, statements)));
    VersionsAppend(L, a.history, a.start, a.versions, statements, t);
    forall id | id in a.sessions ensures SessionOk(L, a.sessions[id], a.start, a.versions + [t]) {
      SessionKept(L, a.sessions[id], a.start, a.versions, t);
    }
  }

  /** The statements of a transaction that may commit run, in order, on the tables published now. */
  lemma SessionRuns<T(!new), M, S(!new), Q(!new), A>(L: Language<T, M, S, Q, A>, a: System<T, S, Q, A>, id: nat, t: T)
    requires Lawful(L) && Consistent(L, a) && CanCommit(a, id) && Same(L, a.sessions[id].catalog.tables, t)
    ensures RunsAll(L.runs, a.server.catalog.tables, a.sessions[id].statements, Ok(t))
  {
    var x := a.sessions[id];
    var n := |x.statements|;
    var moved := x.trail[n := t];
    forall i | 0 <= i < n ensures L.runs(moved[i], x.statements[i], Ok(moved[i + 1])) {
      assert L.runs(x.trail[i], x.statements[i], Ok(x.trail[i + 1]));
    }
    assert Trail(L.runs, moved, x.statements);
    TrailRuns(L.runs, moved, x.statements);
  }

  lemma CommitKeeps<T(!new), M, S(!new), Q(!new), A>(L: Language<T, M, S, Q, A>, a: System<T, S, Q, A>, id: nat, b: System<T, S, Q, A>)
    requires Lawful(L) && Consistent(L, a) && CommitStep(L, a, id, b)
    ensures Consistent(L, b)
  {
    var ended := a.(sessions := a.sessions - {id});
    OneSession(L, a, id, a.sessions[id]);
    if CanCommit(a, id) {
      var x := a.sessions[id];
      var t :| Same(L, x.catalog.tables, t) && b == Committed(ended, x.statements, x.schemaChanged, t);
      SessionRuns(L, a, id, t);
      CommittedKeeps(L, ended, x.statements, x.schemaChanged, t);
    }
  }

  lemma RunsNext<T(!new), S(!new)>(run: (T, S, Result<T>) -> bool, t: T, statements: seq<S>, n: nat, before: T, r: Result<T>)
    requires n < |statements| && RunsAll(run, t, statements[..n], Ok(before)) && run(before, statements[n], r)
    ensures RunsAll(run, t, statements[..n + 1], r)
  {
    assert statements[..n + 1][..n] == statements[..n];
  }

  lemma RunsErr<T(!new), S(!new)>(run: (T, S, Result<T>) -> bool, t: T, init: seq<S>, last: S)
    requires RunsAll(run, t, init, Err)
    ensures RunsAll(run, t, init + [last], Err)
  {
    assert (init + [last])[..|init|] == init;
  }

  /** A failed prefix fails the whole sequence. */
  lemma {:induction false} RunsStop<T(!new), S(!new)>(run: (T, S, Result<T>) -> bool, t: T, statements: seq<S>, n: nat)
    requires n <= |statements| && RunsAll(run, t, statements[..n], Err)
    ensures RunsAll(run, t, statements, Err)
    decreases |statements| - n
  {
    if n == |statements| {
      assert statements[..n] == statements;
    } else {
      RunsErr(run, t, statements[..n], statements[n]);
      assert statements[..n + 1] == statements[..n] + [statements[n]];
      RunsStop(run, t, statements, n + 1);
    }
  }

  lemma ReplaysNext<T(!new), M, S(!new), Q(!new), A>(L: Language<T, M, S, Q, A>, c: Catalog<T>, records: seq<Record<S>>, before: Catalog<T>, record: Record<S>, r: Result<Catalog<T>>)
    requires ReplaysAll(L, c, records, Ok(before)) && ReplaysRecord(L, before, record, r)
    ensures ReplaysAll(L, c, records + [record], r)
  {
    assert (records + [record])[..|records|] == records;
  }

  lemma ReplaysErr<T(!new), M, S(!new), Q(!new), A>(L: Language<T, M, S, Q, A>, c: Catalog<T>, init: seq<Record<S>>, last: Record<S>)
    requires ReplaysAll(L, c, init, Err)
    ensures ReplaysAll(L, c, init + [last], Err)
  {
    assert (init + [last])[..|init|] == init;
  }

  lemma {:induction false} ReplaysStop<T(!new), M, S(!new), Q(!new), A>(L: Language<T, M, S, Q, A>, c: Catalog<T>, records: seq<Record<S>>, n: nat)
    requires n <= |records| && ReplaysAll(L, c, records[..n], Err)
    ensures ReplaysAll(L, c, records, Err)
    decreases |records| - n
  {
    if n == |records| {
      assert records[..n] == records;
    } else {
      ReplaysErr(L, c, records[..n], records[n]);
      assert records[..n + 1] == records[..n] + [records[n]];
      ReplaysStop(L, c, records, n + 1);
    }
  }

  lemma ReplaysCases<T(!new), M, S(!new), Q(!new), A>(L: Language<T, M, S, Q, A>, c: Catalog<T>, records: seq<Record<S>>, n: nat, r: Result<Catalog<T>>)
    requires n < |records| && ReplaysAll(L, c, records[..n + 1], r)
    ensures (r.Err? && ReplaysAll(L, c, records[..n], Err))
            || exists before :: ReplaysAll(L, c, records[..n], Ok(before)) && ReplaysRecord(L, before, records[n], r)
  {
    assert records[..n + 1][..n] == records[..n] && records[..n + 1][n] == records[n];
  }

  /** The outcome of one record, from the outcome of its statements. */
  function RecordOutcome<T, S>(c: Catalog<T>, record: Record<S>, t: Result<T>, schemas: nat): Result<Catalog<T>> {
    if record.commit <= c.version then Ok(c)
    else if record.base != c.version || t.Err? then Err
    else Ok(Catalog(record.commit, c.schemaVersion + schemas, t.value))
  }

  lemma ReplayedRecord<T(!new), M, S(!new), Q(!new), A>(L: Language<T, M, S, Q, A>, c: Catalog<T>, record: Record<S>, t: Result<T>)
    requires record.commit > c.version && record.base == c.version ==> RunsAll(L.replays, c.tables, record.statements, t)
    ensures ReplaysRecord(L, c, record, RecordOutcome(c, record, t, CountSchema(L.isSchema, record.statements)))
  {
  }

  /** One replayed line, after lines that were all whole. */
  lemma ReplayedLine<T(!new), M, S(!new), Q(!new), A>(L: Language<T, M, S, Q, A>, c: Catalog<T>, lines: seq<Line<Record<S>>>, i: nat, current: Catalog<T>, next: Result<Catalog<T>>)
    requires i < |lines| && forall j :: 0 <= j <= i ==> lines[j].Whole?
    requires ReplaysAll(L, c, Readable(lines[..i]), Ok(current)) && ReplaysRecord(L, current, lines[i].record, next)
    ensures ReplaysAll(L, c, Readable(lines[..i + 1]), next)
    ensures next.Err? ==> ReplaysAll(L, c, Readable(lines), Err)
  {
    ReadablePrefix(lines, i);
    ReadablePrefix(lines, i + 1);
    ReplaysNext(L, c, Readable(lines[..i]), current, lines[i].record, next);
    if next.Err? {
      assert Readable(lines)[..i + 1] == Readable(lines[..i + 1]);
      ReplaysStop(L, c, Readable(lines), i + 1);
    }
  }

  /** One replayed statement, after statements that all succeeded. */
  lemma ReplayedOne<T(!new), M, S(!new), Q(!new), A>(L: Language<T, M, S, Q, A>, t: T, statements: seq<S>, k: nat, current: T, next: Result<T>)
    requires k < |statements| && RunsAll(L.replays, t, statements[..k], Ok(current)) && L.replays(current, statements[k], next)
    ensures RunsAll(L.replays, t, statements[..k + 1], next)
    ensures next.Err? ==> RunsAll(L.replays, t, statements, Err)
    ensures CountSchema(L.isSchema, statements[..k + 1])
         == CountSchema(L.isSchema, statements[..k]) + if L.isSchema(statements[k]) then 1 else 0
  {
    RunsNext(L.replays, t, statements, k, current, next);
    if next.Err? {
      RunsStop(L.replays, t, statements, k + 1);
    }
    assert statements[..k + 1][..k] == statements[..k];
  }

  lemma RunsOne<T(!new), S(!new)>(run: (T, S, Result<T>) -> bool, t: T, s: S, r: Result<T>)
    ensures RunsAll(run, t, [s], r) <==> run(t, s, r)
  {
    assert [s][..0] == [];
    assert RunsAll(run, t, [s][..0], Ok(t));
  }

  lemma AutocommitKeeps<T(!new), M, S(!new), Q(!new), A>(L: Language<T, M, S, Q, A>, a: System<T, S, Q, A>, s: S, b: System<T, S, Q, A>)
    requires Lawful(L) && Consistent(L, a) && AutocommitStep(L, a, s, b)
    ensures Consistent(L, b)
  {
    var r :| L.runs(a.server.catalog.tables, s, r)
             && if r.Err? then b == a else exists t :: Same(L, r.value, t) && b == Committed(a, [s], L.isSchema(s), t);
    if r.Ok? {
      var t :| Same(L, r.value, t) && b == Committed(a, [s], L.isSchema(s), t);
      assert L.runs(a.server.catalog.tables, s, Ok(r.value));
      RunsOne(L.runs, a.server.catalog.tables, s, Ok(t));
      CommittedKeeps(L, a, [s], L.isSchema(s), t);
    }
  }

  lemma InterruptedKeeps<T(!new), M, S(!new), Q(!new), A>(L: Language<T, M, S, Q, A>, a: System<T, S, Q, A>, statements: seq<S>, piece: Piece<Record<S>>)
    requires a.Up? && Consistent(L, a)
    requires PieceOf(piece, Record(a.server.catalog.version, a.server.catalog.version + 1, statements))
    ensures Consistent(L, Interrupted(a, statements, piece))
  {
    DiskAppend(L, a.server.disk, a.history, statements, piece);
  }

  /** Opening reaches exactly the durable version, when it succeeds. */
  lemma {:induction false} ReplayReaches<T(!new), M, S(!new), Q(!new), A>(L: Language<T, M, S, Q, A>, c: Catalog<T>, records: seq<Record<S>>, r: Catalog<T>)
    requires Lawful(L) && L.valid(c.tables) && ReplaysAll(L, c, records, Ok(r))
    ensures r.version == Reached(c.version, records) && L.valid(r.tables)
    decreases records
  {
    if records != [] {
      var last := |records| - 1;
      var before :| ReplaysAll(L, c, records[..last], Ok(before)) && ReplaysRecord(L, before, records[last], Ok(r));
      ReplayReaches(L, c, records[..last], before);
      if records[last].commit > before.version {
        var t :| RunsAll(L.replays, before.tables, records[last].statements, t)
                 && Ok(r) == if t.Err? then Err
                             else Ok(Catalog(records[last].commit, before.schemaVersion + CountSchema(L.isSchema, records[last].statements), t.value));
        RunsStayValid(L, before.tables, records[last].statements, t.value);
      }
    }
  }

  lemma {:induction false} RunsStayValid<T(!new), M, S(!new), Q(!new), A>(L: Language<T, M, S, Q, A>, t: T, statements: seq<S>, r: T)
    requires Lawful(L) && L.valid(t) && RunsAll(L.replays, t, statements, Ok(r))
    ensures L.valid(r)
    decreases statements
  {
    if statements != [] {
      var last := |statements| - 1;
      var before :| RunsAll(L.replays, t, statements[..last], Ok(before)) && L.replays(before, statements[last], Ok(r));
      RunsStayValid(L, t, statements[..last], before);
    }
  }

  lemma OpenReaches<T(!new), M, S(!new), Q(!new), A>(L: Language<T, M, S, Q, A>, disk: Disk<T, S>, history: seq<seq<S>>, c: Catalog<T>)
    requires Lawful(L) && DiskOk(L, disk, history) && Opens(L, disk, Ok(c))
    ensures c.version == Durable(disk) <= |history| && L.valid(c.tables)
    ensures DiskOk(L, disk, history[..c.version])
  {
    var start :| Loads(L, disk, start) && ReplaysAll(L, start, Readable(disk.wal.lines), Ok(c));
    var records := Readable(disk.wal.lines);
    ReplayReaches(L, start, records, c);
    ReachedBounds(records, history, SnapshotVersion(disk));
    forall i | 0 <= i < |records| ensures records[i].commit <= c.version {
      CommitsGrow(records, history, SnapshotVersion(disk), i);
    }
  }

  lemma {:induction false} CommitsGrow<S>(records: seq<Record<S>>, history: seq<seq<S>>, v: nat, i: nat)
    requires RecordsMatch(records, history, v) && i < |records|
    ensures records[i].commit <= records[|records| - 1].commit <= Reached(v, records)
    decreases |records| - i
  {
    if i < |records| - 1 {
      assert records[i + 1].base == records[i].commit;
      CommitsGrow(records, history, v, i + 1);
    }
  }

  lemma OpenKeeps<T(!new), M, S(!new), Q(!new), A>(L: Language<T, M, S, Q, A>, a: System<T, S, Q, A>, b: System<T, S, Q, A>)
    requires Lawful(L) && Consistent(L, a) && OpenStep(L, a, b)
    ensures Consistent(L, b)
  {
    var c, t :| Opens(L, a.disk, Ok(c)) && Same(L, c.tables, t)
                && b == Up(Server(c.(tables := t), a.disk), map[], if c.version <= |a.history| then a.history[..c.version] else [], c.version, [t]);
    OpenReaches(L, a.disk, a.history, c);
  }

  /** Replacing or ending one session leaves the others as they are. */
  lemma OneSession<T(!new), M, S(!new), Q(!new), A>(L: Language<T, M, S, Q, A>, a: System<T, S, Q, A>, id: nat, x: Session<T, S, Q, A>)
    requires a.Up? && Consistent(L, a) && SessionOk(L, x, a.start, a.versions)
    ensures Consistent(L, a.(sessions := a.sessions[id := x])) && Consistent(L, a.(sessions := a.sessions - {id}))
  {
  }

  lemma BeginKeeps<T(!new), M, S(!new), Q(!new), A>(L: Language<T, M, S, Q, A>, a: System<T, S, Q, A>, id: nat, b: System<T, S, Q, A>)
    requires Consistent(L, a) && Step(L, a, Action.Begin(id), b)
    ensures Consistent(L, b)
  {
    var c := a.server.catalog;
    OneSession(L, a, id, Session(c.version, c, [], false, [c.tables], []));
  }

  lemma QueryKeeps<T(!new), M, S(!new), Q(!new), A>(L: Language<T, M, S, Q, A>, a: System<T, S, Q, A>, id: nat, q: Q, b: System<T, S, Q, A>)
    requires Consistent(L, a) && Step(L, a, Action.Query(id, q), b)
    ensures Consistent(L, b)
  {
    var x := a.sessions[id];
    OneSession(L, a, id, x.(seen := x.seen + [Read(q, |x.statements|, L.answer(x.catalog.tables, q))]));
  }

  lemma StepKeeps<T(!new), M, S(!new), Q(!new), A>(L: Language<T, M, S, Q, A>, a: System<T, S, Q, A>, action: Action<S, Q>, b: System<T, S, Q, A>)
    requires Lawful(L) && Consistent(L, a) && Step(L, a, action, b)
    ensures Consistent(L, b)
  {
    match action
    case Execute(id, s) => ExecuteKeeps(L, a, id, s, b);
    case Commit(id) => CommitKeeps(L, a, id, b);
    case Autocommit(s) => AutocommitKeeps(L, a, s, b);
    case CrashInCommit(id, piece) => InterruptedKeeps(L, a, a.sessions[id].statements, piece);
    case CrashInAutocommit(s, piece) => InterruptedKeeps(L, a, [s], piece);
    case Open => OpenKeeps(L, a, b);
    case Checkpoint =>
    case Crash =>
    case CrashInCheckpoint =>
    case FailToOpen =>
    case Begin(id) => BeginKeeps(L, a, id, b);
    case Query(id, q) => QueryKeeps(L, a, id, q, b);
    case Rollback(id) => OneSession(L, a, id, a.sessions[id]);
  }

  // ------------------------------------------------------------------------- runs

  function Initial<T, S, Q, A>(): System<T, S, Q, A> {
    Down(Disk(None, Wal([], false)), 0, [])
  }

  ghost predicate IsRun<T(!new), M, S(!new), Q(!new), A>(L: Language<T, M, S, Q, A>, states: seq<System<T, S, Q, A>>, actions: seq<Action<S, Q>>) {
    && |states| == |actions| + 1
    && states[0] == Initial()
    && forall i :: 0 <= i < |actions| ==> Step(L, states[i], actions[i], states[i + 1])
  }

  /** Every run is serial at every moment. */
  lemma {:induction false} RunsAreSerial<T(!new), M, S(!new), Q(!new), A>(L: Language<T, M, S, Q, A>, states: seq<System<T, S, Q, A>>, actions: seq<Action<S, Q>>, n: nat)
    requires Lawful(L) && IsRun(L, states, actions) && n < |states|
    ensures Consistent(L, states[n])
    decreases n
  {
    if n > 0 {
      RunsAreSerial(L, states, actions, n - 1);
      assert Step(L, states[n - 1], actions[n - 1], states[n]);
      StepKeeps(L, states[n - 1], actions[n - 1], states[n]);
    }
  }

  /** Each read of a transaction whose base is current was made on the tables that its own statements give when
      they run on what is published now. */
  lemma CurrentReadsAreSerial<T(!new), M, S(!new), Q(!new), A>(L: Language<T, M, S, Q, A>, a: System<T, S, Q, A>, id: nat, k: nat) returns (t: T)
    requires a.Up? && Consistent(L, a) && id in a.sessions
    requires a.sessions[id].base == a.server.catalog.version && k < |a.sessions[id].seen|
    ensures var x := a.sessions[id];
            var read := x.seen[k];
            read.after <= |x.statements|
            && RunsAll(L.runs, a.server.catalog.tables, x.statements[..read.after], Ok(t)) && read.answer == L.answer(t, read.query)
  {
    var x := a.sessions[id];
    var n := x.seen[k].after;
    var prefix := x.trail[..n + 1];
    assert Trail(L.runs, prefix, x.statements[..n]);
    TrailRuns(L.runs, prefix, x.statements[..n]);
    t := x.trail[n];
  }

  /** A transaction that commits, read-only ones included, made each read on the tables that its own
      statements give when they run on the version current at its commit; and the version goes up by one
      exactly when there was something to write. */
  lemma CommittedReadsAreSerial<T(!new), M, S(!new), Q(!new), A>(L: Language<T, M, S, Q, A>, a: System<T, S, Q, A>, id: nat, b: System<T, S, Q, A>, k: nat)
    requires Lawful(L) && Consistent(L, a) && CommitStep(L, a, id, b)
    requires a.sessions[id].base == a.server.catalog.version && k < |a.sessions[id].seen|
    ensures var x := a.sessions[id];
            var read := x.seen[k];
            read.after <= |x.statements|
            && exists t :: RunsAll(L.runs, a.server.catalog.tables, x.statements[..read.after], Ok(t)) && read.answer == L.answer(t, read.query)
    ensures b.Up? && b.server.catalog.version == a.server.catalog.version + (if a.sessions[id].statements == [] then 0 else 1)
    ensures b.history == a.history + (if a.sessions[id].statements == [] then [] else [a.sessions[id].statements])
  {
    var t := CurrentReadsAreSerial(L, a, id, k);
  }
}
