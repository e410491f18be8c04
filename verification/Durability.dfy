/** Opening after a crash gives the serial outcome of the acknowledged commits, with at most the one commit
    that was logged and not acknowledged (src/sql/database.rs). */
module Durability {
  import opened Wrappers
  import opened Wal
  import opened Transactions
  import opened Serializability

  // --------------------------------------------------------------- dependable statements

  /** Each statement is dependable where the ones before it lead. */
  ghost predicate DependableAll<T(!new), M, S(!new), Q(!new), A>(L: Language<T, M, S, Q, A>, m: M, statements: seq<S>) {
    statements == []
    || (var before := Apply(L.effect, m, statements[..|statements| - 1]);
        && DependableAll(L, m, statements[..|statements| - 1])
        && before.Ok? && L.dependable(before.value, statements[|statements| - 1]))
  }

  ghost predicate DependableHistory<T(!new), M, S(!new), Q(!new), A>(L: Language<T, M, S, Q, A>, history: seq<seq<S>>) {
    forall k :: 0 <= k < |history| ==>
      var before := Outcome(L, history, k);
      before.Ok? && DependableAll(L, before.value, history[k])
  }

  /** The serial outcome of the first n commits, from the empty database. */
  ghost function Outcome<T(!new), M, S(!new), Q(!new), A>(L: Language<T, M, S, Q, A>, history: seq<seq<S>>, n: nat): Result<M>
    requires n <= |history|
  {
    Serial(L.effect, L.meaning(L.empty), history[..n])
  }

  ghost predicate IsExecution<T(!new), M, S(!new), Q(!new), A>(L: Language<T, M, S, Q, A>, run: (T, S, Result<T>) -> bool) {
    forall t, s, r :: run(t, s, r) ==> L.runs(t, s, r) || L.replays(t, s, r)
  }

  /** Dependable statements succeed in live execution and in replay alike, with the effect they mean. */
  lemma {:induction false} RunsMean<T(!new), M, S(!new), Q(!new), A>(L: Language<T, M, S, Q, A>, run: (T, S, Result<T>) -> bool, t: T, statements: seq<S>, r: Result<T>)
    requires Lawful(L) && Agrees(L) && IsExecution(L, run)
    requires L.valid(t) && DependableAll(L, L.meaning(t), statements) && RunsAll(run, t, statements, r)
    ensures r.Ok? && L.valid(r.value) && Apply(L.effect, L.meaning(t), statements) == Ok(L.meaning(r.value))
    decreases statements
  {
    if statements != [] {
      var last := |statements| - 1;
      if RunsAll(run, t, statements[..last], Err) {
        RunsMean(L, run, t, statements[..last], Err);
      } else {
        var before :| RunsAll(run, t, statements[..last], Ok(before)) && run(before, statements[last], r);
        RunsMean(L, run, t, statements[..last], Ok(before));
        assert L.runs(before, statements[last], Ok(r.value)) || L.replays(before, statements[last], Ok(r.value));
      }
    }
  }

  /** The statements of a transaction mean what they did to its own tables. */
  lemma {:induction false} TrailMeans<T(!new), M, S(!new), Q(!new), A>(L: Language<T, M, S, Q, A>, trail: seq<T>, statements: seq<S>)
    requires Agrees(L) && Trail(L.runs, trail, statements)
    requires forall i :: 0 <= i < |trail| ==> L.valid(trail[i])
    requires forall i :: 0 <= i < |statements| ==> L.dependable(L.meaning(trail[i]), statements[i])
    ensures DependableAll(L, L.meaning(trail[0]), statements)
    ensures Apply(L.effect, L.meaning(trail[0]), statements) == Ok(L.meaning(trail[|statements|]))
    decreases statements
  {
    if statements != [] {
      var last := |statements| - 1;
      TrailMeans(L, trail[..last + 1], statements[..last]);
      assert L.runs(trail[last], statements[last], Ok(trail[last + 1]));
    }
  }

  // ---------------------------------------------------------------------- histories

  lemma OutcomeKept<T(!new), M, S(!new), Q(!new), A>(L: Language<T, M, S, Q, A>, history: seq<seq<S>>, statements: seq<S>, n: nat)
    requires n <= |history|
    ensures Outcome(L, history + [statements], n) == Outcome(L, history, n)
  {
    assert (history + [statements])[..n] == history[..n];
  }

  lemma OutcomeNext<T(!new), M, S(!new), Q(!new), A>(L: Language<T, M, S, Q, A>, history: seq<seq<S>>, n: nat)
    requires n < |history| && Outcome(L, history, n).Ok?
    ensures Outcome(L, history, n + 1) == Apply(L.effect, Outcome(L, history, n).value, history[n])
  {
    assert history[..n + 1][..n] == history[..n];
  }

  /** A history stays dependable when a dependable commit is added to it. */
  lemma HistoryNext<T(!new), M, S(!new), Q(!new), A>(L: Language<T, M, S, Q, A>, history: seq<seq<S>>, statements: seq<S>, m: M)
    requires DependableHistory(L, history) && Outcome(L, history, |history|) == Ok(m) && DependableAll(L, m, statements)
    ensures DependableHistory(L, history + [statements])
    ensures Outcome(L, history + [statements], |history| + 1) == Apply(L.effect, m, statements)
    ensures forall n :: 0 <= n <= |history| ==> Outcome(L, history + [statements], n) == Outcome(L, history, n)
  {
    var longer := history + [statements];
    forall n | 0 <= n <= |history| ensures Outcome(L, longer, n) == Outcome(L, history, n) {
      OutcomeKept(L, history, statements, n);
    }
    OutcomeNext(L, longer, |history|);
    forall k | 0 <= k < |longer| ensures Outcome(L, longer, k).Ok? && DependableAll(L, Outcome(L, longer, k).value, longer[k]) {
      if k < |history| {
        assert longer[k] == history[k];
      }
    }
  }

  lemma HistoryPrefix<T(!new), M, S(!new), Q(!new), A>(L: Language<T, M, S, Q, A>, history: seq<seq<S>>, n: nat)
    requires DependableHistory(L, history) && n <= |history|
    ensures DependableHistory(L, history[..n])
    ensures forall k :: 0 <= k <= n ==> Outcome(L, history[..n], k) == Outcome(L, history, k)
  {
    forall k | 0 <= k <= n ensures Outcome(L, history[..n], k) == Outcome(L, history, k) {
      assert history[..n][..k] == history[..k];
    }
  }

  // -------------------------------------------------------------------- the invariant

  ghost predicate SnapshotMeans<T(!new), M, S(!new), Q(!new), A>(L: Language<T, M, S, Q, A>, disk: Disk<T, S>, history: seq<seq<S>>) {
    disk.snapshot.Some? ==>
      SnapshotVersion(disk) <= |history|
      && Outcome(L, history, SnapshotVersion(disk)) == Ok(L.meaning(disk.snapshot.value.tables))
  }

  ghost predicate SessionMeans<T(!new), M, S(!new), Q(!new), A>(L: Language<T, M, S, Q, A>, x: Session<T, S, Q, A>) {
    && |x.trail| == |x.statements| + 1
    && (forall i :: 0 <= i < |x.statements| ==> L.dependable(L.meaning(x.trail[i]), x.statements[i]))
    && forall k :: 0 <= k < |x.seen| ==> x.seen[k].after <= |x.statements| && L.dependableRead(x.trail[x.seen[k].after], x.seen[k].query)
  }

  ghost predicate SessionsMean<T(!new), M, S(!new), Q(!new), A>(L: Language<T, M, S, Q, A>, sessions: map<nat, Session<T, S, Q, A>>) {
    forall id :: id in sessions ==> SessionMeans(L, sessions[id])
  }

  ghost predicate VersionsMean<T(!new), M, S(!new), Q(!new), A>(L: Language<T, M, S, Q, A>, history: seq<seq<S>>, start: nat, versions: seq<T>) {
    && start + |versions| == |history| + 1
    && forall i :: 0 <= i < |versions| ==> Outcome(L, history, start + i) == Ok(L.meaning(versions[i]))
  }

  /** What dependable statements add: published tables, snapshots and transactions have the meaning that
      the serial execution of the history gives them. */
  ghost predicate Meaningful<T(!new), M, S(!new), Q(!new), A>(L: Language<T, M, S, Q, A>, a: System<T, S, Q, A>) {
    match a
    case Up(server, sessions, history, start, versions) =>
      && DependableHistory(L, history)
      && VersionsMean(L, history, start, versions)
      && SessionsMean(L, sessions)
      && SnapshotMeans(L, server.disk, history)
    case Down(disk, _, history) => DependableHistory(L, history) && SnapshotMeans(L, disk, history)
  }

  /** A statement that may succeed here is dependable here. */
  ghost predicate DependableHere<T(!new), M, S(!new), Q(!new), A>(L: Language<T, M, S, Q, A>, t: T, s: S) {
    (exists r :: L.runs(t, s, Ok(r))) ==> L.dependable(L.meaning(t), s)
  }

  ghost predicate DependableAction<T(!new), M, S(!new), Q(!new), A>(L: Language<T, M, S, Q, A>, a: System<T, S, Q, A>, action: Action<S, Q>) {
    match action
    case Execute(id, s) => a.Up? && id in a.sessions ==> DependableHere(L, a.sessions[id].catalog.tables, s)
    case Query(id, q) => a.Up? && id in a.sessions ==> L.dependableRead(a.sessions[id].catalog.tables, q)
    case Autocommit(s) => a.Up? ==> DependableHere(L, a.server.catalog.tables, s)
    case CrashInAutocommit(s, _) => a.Up? ==> DependableHere(L, a.server.catalog.tables, s)
    case _ => true
  }

  // ------------------------------------------------------------------------ opening

  lemma ReachedNext<S>(records: seq<Record<S>>, history: seq<seq<S>>, v: nat, n: nat)
    requires RecordsMatch(records, history, v) && v <= |history| && n < |records|
    ensures Reached(v, records[..n + 1]) == Max(Reached(v, records[..n]), records[n].commit)
    ensures records[n].base <= Reached(v, records[..n]) <= |history| && Reached(v, records[..n + 1]) <= |history|
  {
    assert records[..n + 1][..n] == records[..n];
    RecordsPrefix(records, history, v, n);
    RecordsPrefix(records, history, v, n + 1);
    ReachedBounds(records[..n], history, v);
    ReachedBounds(records[..n + 1], history, v);
  }

  /** Replay never fails, and reaches the serial outcome of the durable commits. */
  lemma {:induction false} ReplayMeans<T(!new), M, S(!new), Q(!new), A>(L: Language<T, M, S, Q, A>, c: Catalog<T>, records: seq<Record<S>>, history: seq<seq<S>>, n: nat, r: Result<Catalog<T>>)
    requires Lawful(L) && Agrees(L) && DependableHistory(L, history)
    requires RecordsMatch(records, history, c.version) && c.version <= |history| && n <= |records|
    requires L.valid(c.tables) && Outcome(L, history, c.version) == Ok(L.meaning(c.tables))
    requires ReplaysAll(L, c, records[..n], r)
    ensures r.Ok? && r.value.version == Reached(c.version, records[..n]) <= |history| && L.valid(r.value.tables)
    ensures Outcome(L, history, r.value.version) == Ok(L.meaning(r.value.tables))
    decreases n
  {
    if n > 0 {
      var last := n - 1;
      ReplaysCases(L, c, records, last, r);
      if r.Err? && ReplaysAll(L, c, records[..last], Err) {
        ReplayMeans(L, c, records, history, last, Err);
      } else {
        var before :| ReplaysAll(L, c, records[..last], Ok(before)) && ReplaysRecord(L, before, records[last], r);
        ReplayMeans(L, c, records, history, last, Ok(before));
        ReachedNext(records, history, c.version, last);
        ReplayNext(L, before, records[last], history, r);
      }
    }
  }

  lemma ReplayNext<T(!new), M, S(!new), Q(!new), A>(L: Language<T, M, S, Q, A>, c: Catalog<T>, record: Record<S>, history: seq<seq<S>>, r: Result<Catalog<T>>)
    requires Lawful(L) && Agrees(L) && DependableHistory(L, history)
    requires record.base <= c.version && record.commit == record.base + 1 <= |history| && record.statements == history[record.base]
    requires c.version <= |history| && L.valid(c.tables) && Outcome(L, history, c.version) == Ok(L.meaning(c.tables))
    requires ReplaysRecord(L, c, record, r)
    ensures r.Ok? && r.value.version == Max(c.version, record.commit) && L.valid(r.value.tables)
    ensures Outcome(L, history, r.value.version) == Ok(L.meaning(r.value.tables))
  {
    if record.commit > c.version {
      var t :| RunsAll(L.replays, c.tables, record.statements, t)
               && r == if t.Err? then Err
                       else Ok(Catalog(record.commit, c.schemaVersion + CountSchema(L.isSchema, record.statements), t.value));
      RunsMean(L, L.replays, c.tables, record.statements, t);
      OutcomeNext(L, history, c.version);
    }
  }

  lemma OpensMeans<T(!new), M, S(!new), Q(!new), A>(L: Language<T, M, S, Q, A>, disk: Disk<T, S>, history: seq<seq<S>>, r: Result<Catalog<T>>)
    requires Lawful(L) && Agrees(L) && DiskOk(L, disk, history)
    requires DependableHistory(L, history) && SnapshotMeans(L, disk, history) && Opens(L, disk, r)
    ensures r.Ok? <==> !Unreadable(disk.wal.lines)
    ensures r.Ok? ==> r.value.version == Durable(disk) <= |history| && Outcome(L, history, r.value.version) == Ok(L.meaning(r.value.tables))
  {
    if Unreadable(disk.wal.lines) {
      return;
    }
    var c :| Loads(L, disk, c) && ReplaysAll(L, c, Readable(disk.wal.lines), r);
    assert history[..0] == [];
    var records := Readable(disk.wal.lines);
    assert records[..|records|] == records;
    ReplayMeans(L, c, records, history, |records|, r);
  }

  /** A database whose commits were dependable fails to open if and only if reading its log gets to a line that
      is not text, and then it never opens. */
  lemma FailsIffUnreadable<T(!new), M, S(!new), Q(!new), A>(L: Language<T, M, S, Q, A>, a: System<T, S, Q, A>)
    requires Lawful(L) && Agrees(L) && Consistent(L, a) && Meaningful(L, a) && a.Down?
    ensures Step(L, a, FailToOpen, a) <==> Unreadable(a.disk.wal.lines)
    ensures Unreadable(a.disk.wal.lines) ==> forall b :: !Step(L, a, Open, b)
  {
    if Step(L, a, FailToOpen, a) {
      OpensMeans(L, a.disk, a.history, Err);
    }
  }

  /** It always opens when its log is text. */
  lemma AlwaysOpens<T(!new), M, S(!new), Q(!new), A>(L: Language<T, M, S, Q, A>, a: System<T, S, Q, A>, b: System<T, S, Q, A>)
    requires Lawful(L) && Agrees(L) && Consistent(L, a) && Meaningful(L, a)
    requires a.Down? ==> TextOnly(a.disk.wal.lines)
    ensures !Step(L, a, FailToOpen, b)
  {
    if Step(L, a, FailToOpen, b) {
      FailsIffUnreadable(L, a);
      TextIsReadable(a.disk.wal.lines);
    }
  }

  // ----------------------------------------------------------------- each step keeps it

  lemma SnapshotKept<T(!new), M, S(!new), Q(!new), A>(L: Language<T, M, S, Q, A>, disk: Disk<T, S>, history: seq<seq<S>>, statements: seq<S>)
    requires SnapshotMeans(L, disk, history)
    ensures SnapshotMeans(L, disk, history + [statements])
  {
    if disk.snapshot.Some? {
      OutcomeKept(L, history, statements, SnapshotVersion(disk));
    }
  }

  lemma VersionsNext<T(!new), M, S(!new), Q(!new), A>(L: Language<T, M, S, Q, A>, history: seq<seq<S>>, start: nat, versions: seq<T>, statements: seq<S>, t: T)
    requires VersionsMean(L, history, start, versions)
    requires Outcome(L, history + [statements], |history| + 1) == Ok(L.meaning(t))
    ensures VersionsMean(L, history + [statements], start, versions + [t])
  {
    var longer, more := history + [statements], versions + [t];
    forall i | 0 <= i < |more| ensures Outcome(L, longer, start + i) == Ok(L.meaning(more[i])) {
      if i < |versions| {
        OutcomeKept(L, history, statements, start + i);
      }
    }
  }

  /** The last published tables have the meaning of the whole history. */
  lemma PublishedMeans<T(!new), M, S(!new), Q(!new), A>(L: Language<T, M, S, Q, A>, a: System<T, S, Q, A>)
    requires a.Up? && Consistent(L, a) && Meaningful(L, a)
    ensures Outcome(L, a.history, |a.history|) == Ok(L.meaning(a.server.catalog.tables))
  {
    assert Outcome(L, a.history, a.start + (|a.versions| - 1)) == Ok(L.meaning(a.server.catalog.tables));
  }

  lemma CommittedMeans<T(!new), M, S(!new), Q(!new), A>(L: Language<T, M, S, Q, A>, a: System<T, S, Q, A>, statements: seq<S>, schemaChanged: bool, t: T)
    requires a.Up? && Consistent(L, a) && Meaningful(L, a)
    requires DependableAll(L, L.meaning(a.server.catalog.tables), statements)
    requires Apply(L.effect, L.meaning(a.server.catalog.tables), statements) == Ok(L.meaning(t))
    ensures Meaningful(L, Committed(a, statements, schemaChanged, t))
  {
    PublishedMeans(L, a);
    HistoryNext(L, a.history, statements, L.meaning(a.server.catalog.tables));
    SnapshotKept(L, a.server.disk, a.history, statements);
    VersionsNext(L, a.history, a.start, a.versions, statements, t);
  }

  lemma InterruptedMeans<T(!new), M, S(!new), Q(!new), A>(L: Language<T, M, S, Q, A>, a: System<T, S, Q, A>, statements: seq<S>, piece: Piece<Record<S>>)
    requires a.Up? && Consistent(L, a) && Meaningful(L, a)
    requires DependableAll(L, L.meaning(a.server.catalog.tables), statements)
    ensures Meaningful(L, Interrupted(a, statements, piece))
  {
    PublishedMeans(L, a);
    HistoryNext(L, a.history, statements, L.meaning(a.server.catalog.tables));
    SnapshotKept(L, a.server.disk, a.history, statements);
  }

  lemma OneMeans<T(!new), M, S(!new), Q(!new), A>(L: Language<T, M, S, Q, A>, t: T, s: S, r: T)
    requires Agrees(L) && L.valid(t) && L.runs(t, s, Ok(r)) && DependableHere(L, t, s)
    ensures DependableAll(L, L.meaning(t), [s]) && Apply(L.effect, L.meaning(t), [s]) == Ok(L.meaning(r))
  {
    assert [s][..0] == [];
    assert Apply(L.effect, L.meaning(t), []) == Ok(L.meaning(t));
  }

  /** The transaction's statements are dependable on the tables published now. */
  lemma SessionStatementsMean<T(!new), M, S(!new), Q(!new), A>(L: Language<T, M, S, Q, A>, a: System<T, S, Q, A>, id: nat)
    requires Agrees(L) && Consistent(L, a) && Meaningful(L, a) && CanCommit(a, id)
    ensures var x := a.sessions[id];
            var m := L.meaning(a.server.catalog.tables);
            DependableAll(L, m, x.statements) && Apply(L.effect, m, x.statements) == Ok(L.meaning(x.catalog.tables))
  {
    var x := a.sessions[id];
    assert SessionOk(L, x, a.start, a.versions) && SessionMeans(L, x);
    TrailMeans(L, x.trail, x.statements);
  }

  lemma RanMeans<T(!new), M, S(!new), Q(!new), A>(L: Language<T, M, S, Q, A>, x: Session<T, S, Q, A>, s: S, schema: bool, t: T)
    requires SessionMeans(L, x) && x.trail[|x.statements|] == x.catalog.tables && L.dependable(L.meaning(x.catalog.tables), s)
    ensures SessionMeans(L, Ran(x, s, schema, t))
  {
  }

  lemma SeenMeans<T(!new), M, S(!new), Q(!new), A>(L: Language<T, M, S, Q, A>, x: Session<T, S, Q, A>, q: Q, answer: A)
    requires SessionMeans(L, x) && x.trail[|x.statements|] == x.catalog.tables && L.dependableRead(x.catalog.tables, q)
    ensures SessionMeans(L, x.(seen := x.seen + [Read(q, |x.statements|, answer)]))
  {
  }

  lemma EndsInTables<T(!new), M, S(!new), Q(!new), A>(L: Language<T, M, S, Q, A>, a: System<T, S, Q, A>, id: nat)
    requires a.Up? && id in a.sessions && Consistent(L, a) && Meaningful(L, a)
    ensures var x := a.sessions[id];
            SessionMeans(L, x) && x.trail[|x.statements|] == x.catalog.tables
  {
    assert SessionOk(L, a.sessions[id], a.start, a.versions);
  }

  lemma ExecuteMeans<T(!new), M, S(!new), Q(!new), A>(L: Language<T, M, S, Q, A>, a: System<T, S, Q, A>, id: nat, s: S, b: System<T, S, Q, A>)
    requires Consistent(L, a) && Meaningful(L, a) && DependableAction(L, a, Action.Execute(id, s)) && ExecuteStep(L, a, id, s, b)
    ensures Meaningful(L, b)
  {
    var x := a.sessions[id];
    var r :| L.runs(x.catalog.tables, s, r)
             && b == if r.Err? then a else a.(sessions := a.sessions[id := Ran(x, s, L.isSchema(s), r.value)]);
    if r.Ok? {
      assert L.runs(x.catalog.tables, s, Ok(r.value));
      EndsInTables(L, a, id);
      RanMeans(L, x, s, L.isSchema(s), r.value);
    }
  }

  lemma QueryMeans<T(!new), M, S(!new), Q(!new), A>(L: Language<T, M, S, Q, A>, a: System<T, S, Q, A>, id: nat, q: Q, b: System<T, S, Q, A>)
    requires Consistent(L, a) && Meaningful(L, a) && DependableAction(L, a, Action.Query(id, q)) && Step(L, a, Action.Query(id, q), b)
    ensures Meaningful(L, b)
  {
    EndsInTables(L, a, id);
    SeenMeans(L, a.sessions[id], q, L.answer(a.sessions[id].catalog.tables, q));
  }

  lemma CommitMeans<T(!new), M, S(!new), Q(!new), A>(L: Language<T, M, S, Q, A>, a: System<T, S, Q, A>, id: nat, b: System<T, S, Q, A>)
    requires Lawful(L) && Agrees(L) && Consistent(L, a) && Meaningful(L, a) && CommitStep(L, a, id, b)
    ensures Meaningful(L, b)
  {
    var ended := a.(sessions := a.sessions - {id});
    OneSession(L, a, id, a.sessions[id]);
    assert Meaningful(L, ended);
    if CanCommit(a, id) {
      var x := a.sessions[id];
      var t :| Same(L, x.catalog.tables, t) && b == Committed(ended, x.statements, x.schemaChanged, t);
      SessionStatementsMean(L, a, id);
      CommittedMeans(L, ended, x.statements, x.schemaChanged, t);
    }
  }

  lemma AutocommitMeans<T(!new), M, S(!new), Q(!new), A>(L: Language<T, M, S, Q, A>, a: System<T, S, Q, A>, s: S, b: System<T, S, Q, A>)
    requires Lawful(L) && Agrees(L) && Consistent(L, a) && Meaningful(L, a)
    requires DependableAction(L, a, Action.Autocommit(s)) && AutocommitStep(L, a, s, b)
    ensures Meaningful(L, b)
  {
    var r :| L.runs(a.server.catalog.tables, s, r)
             && if r.Err? then b == a else exists t :: Same(L, r.value, t) && b == Committed(a, [s], L.isSchema(s), t);
    if r.Ok? {
      var t :| Same(L, r.value, t) && b == Committed(a, [s], L.isSchema(s), t);
      assert L.runs(a.server.catalog.tables, s, Ok(r.value));
      OneMeans(L, a.server.catalog.tables, s, r.value);
      CommittedMeans(L, a, [s], L.isSchema(s), t);
    }
  }

  lemma CrashInAutocommitMeans<T(!new), M, S(!new), Q(!new), A>(L: Language<T, M, S, Q, A>, a: System<T, S, Q, A>, s: S, piece: Piece<Record<S>>, b: System<T, S, Q, A>)
    requires Agrees(L) && Consistent(L, a) && Meaningful(L, a)
    requires DependableAction(L, a, CrashInAutocommit(s, piece)) && Step(L, a, CrashInAutocommit(s, piece), b)
    ensures Meaningful(L, b)
  {
    var r :| L.runs(a.server.catalog.tables, s, Ok(r));
    OneMeans(L, a.server.catalog.tables, s, r);
    InterruptedMeans(L, a, [s], piece);
  }

  lemma OpenedVersions<T(!new), M, S(!new), Q(!new), A>(L: Language<T, M, S, Q, A>, disk: Disk<T, S>, history: seq<seq<S>>, n: nat, t: T)
    requires DependableHistory(L, history) && n <= |history| && SnapshotMeans(L, disk, history) && SnapshotVersion(disk) <= n
    requires Outcome(L, history, n) == Ok(L.meaning(t))
    ensures DependableHistory(L, history[..n]) && VersionsMean(L, history[..n], n, [t]) && SnapshotMeans(L, disk, history[..n])
  {
    HistoryPrefix(L, history, n);
  }

  lemma OpenMeans<T(!new), M, S(!new), Q(!new), A>(L: Language<T, M, S, Q, A>, a: System<T, S, Q, A>, b: System<T, S, Q, A>)
    requires Lawful(L) && Agrees(L) && Consistent(L, a) && Meaningful(L, a) && OpenStep(L, a, b)
    ensures Meaningful(L, b)
    ensures Durable(a.disk) <= |a.history| && b.history == a.history[..Durable(a.disk)]
  {
    var c, t :| Opens(L, a.disk, Ok(c)) && Same(L, c.tables, t)
                && b == Up(Server(c.(tables := t), a.disk), map[], if c.version <= |a.history| then a.history[..c.version] else [], c.version, [t]);
    OpensMeans(L, a.disk, a.history, Ok(c));
    ReachedBounds(Readable(a.disk.wal.lines), a.history, SnapshotVersion(a.disk));
    OpenedVersions(L, a.disk, a.history, c.version, t);
  }

  /** What is published has the meaning of the whole history, and its version counts the commits. */
  lemma PublishedIsSerial<T(!new), M, S(!new), Q(!new), A>(L: Language<T, M, S, Q, A>, a: System<T, S, Q, A>)
    requires a.Up? && Consistent(L, a) && Meaningful(L, a)
    ensures Serial(L.effect, L.meaning(L.empty), a.history) == Ok(L.meaning(a.server.catalog.tables))
    ensures a.server.catalog.version == |a.history|
  {
    PublishedMeans(L, a);
    assert a.history[..|a.history|] == a.history;
  }

  lemma SavedMeans<T(!new), M, S(!new), Q(!new), A>(L: Language<T, M, S, Q, A>, a: System<T, S, Q, A>)
    requires a.Up? && Consistent(L, a) && Meaningful(L, a)
    ensures Meaningful(L, a.(server := Saved(a.server)))
    ensures Meaningful(L, Down(a.server.disk.(snapshot := Some(a.server.catalog)), |a.history|, a.history))
  {
    PublishedMeans(L, a);
  }

  lemma SimpleStepMeans<T(!new), M, S(!new), Q(!new), A>(L: Language<T, M, S, Q, A>, a: System<T, S, Q, A>, action: Action<S, Q>, b: System<T, S, Q, A>)
    requires Meaningful(L, a) && Step(L, a, action, b)
    requires action.Begin? || action.Rollback? || action.Crash? || action.FailToOpen?
    ensures Meaningful(L, b)
  {
  }

  lemma StepMeans<T(!new), M, S(!new), Q(!new), A>(L: Language<T, M, S, Q, A>, a: System<T, S, Q, A>, action: Action<S, Q>, b: System<T, S, Q, A>)
    requires Lawful(L) && Agrees(L) && Consistent(L, a) && Meaningful(L, a)
    requires DependableAction(L, a, action) && Step(L, a, action, b)
    ensures Meaningful(L, b)
  {
    match action
    case Execute(id, s) => ExecuteMeans(L, a, id, s, b);
    case Query(id, q) => QueryMeans(L, a, id, q, b);
    case Commit(id) => CommitMeans(L, a, id, b);
    case Autocommit(s) => AutocommitMeans(L, a, s, b);
    case CrashInCommit(id, piece) =>
      SessionStatementsMean(L, a, id);
      InterruptedMeans(L, a, a.sessions[id].statements, piece);
    case CrashInAutocommit(s, piece) => CrashInAutocommitMeans(L, a, s, piece, b);
    case Open => OpenMeans(L, a, b);
    case Checkpoint => SavedMeans(L, a);
    case CrashInCheckpoint => SavedMeans(L, a);
    case _ => SimpleStepMeans(L, a, action, b);
  }

  /** In every run of dependable statements, with crashes anywhere, the published tables have the meaning
      that the serial execution of the commits gives, and the database can be opened again. */
  lemma {:induction false} RunsAreMeaningful<T(!new), M, S(!new), Q(!new), A>(L: Language<T, M, S, Q, A>, states: seq<System<T, S, Q, A>>, actions: seq<Action<S, Q>>, n: nat)
    requires Lawful(L) && Agrees(L) && IsRun(L, states, actions) && n < |states|
    requires forall i :: 0 <= i < n ==> DependableAction(L, states[i], actions[i])
    ensures Consistent(L, states[n]) && Meaningful(L, states[n])
    decreases n
  {
    if n > 0 {
      RunsAreMeaningful(L, states, actions, n - 1);
      assert Step(L, states[n - 1], actions[n - 1], states[n]);
      StepKeeps(L, states[n - 1], actions[n - 1], states[n]);
      StepMeans(L, states[n - 1], actions[n - 1], states[n]);
    }
  }

  // ------------------------------------------------------------------ nothing is lost

  predicate IsCrash<S, Q>(action: Action<S, Q>) {
    action.Crash? || action.CrashInCommit? || action.CrashInAutocommit? || action.CrashInCheckpoint?
  }

  /** The commits whose callers were told of their success. */
  function Acknowledged<T, S, Q, A>(a: System<T, S, Q, A>): seq<seq<S>> {
    if a.Up? then a.history else if a.acknowledged <= |a.history| then a.history[..a.acknowledged] else a.history
  }

  /** A crash that strikes a clean log leaves every acknowledged commit readable. */
  lemma CrashKeepsAcknowledged<T(!new), M, S(!new), Q(!new), A>(L: Language<T, M, S, Q, A>, a: System<T, S, Q, A>, action: Action<S, Q>, b: System<T, S, Q, A>)
    requires Consistent(L, a) && IsCrash(action) && Step(L, a, action, b) && Clean(a.server.disk.wal)
    ensures b.Down? && Acknowledged(b) == a.history && b.acknowledged <= Durable(b.disk) <= |b.history|
  {
    var records, v := Readable(a.server.disk.wal.lines), SnapshotVersion(a.server.disk);
    ReachedBounds(records, a.history, v);
    match action
    case CrashInCommit(id, piece) => DiskAppend(L, a.server.disk, a.history, a.sessions[id].statements, piece);
    case CrashInAutocommit(s, piece) => DiskAppend(L, a.server.disk, a.history, [s], piece);
    case CrashInCheckpoint => LaterSnapshot(records, a.history, v, |a.history|);
    case _ =>
  }

  lemma LaterSnapshot<S>(records: seq<Record<S>>, history: seq<seq<S>>, v: nat, w: nat)
    requires RecordsMatch(records, history, v) && v <= w <= |history|
    ensures RecordsMatch(records, history, w) && w <= Reached(w, records) <= |history|
  {
    ReachedBounds(records, history, w);
  }

  /** A crash of a clean log and the opening that follows give back the history, extended at most by the
      commit that was being logged; the tables are its serial outcome and the version counts its commits. */
  lemma RecoveryIsExact<T(!new), M, S(!new), Q(!new), A>(L: Language<T, M, S, Q, A>, a: System<T, S, Q, A>, action: Action<S, Q>, b: System<T, S, Q, A>, c: System<T, S, Q, A>)
    requires Lawful(L) && Agrees(L) && Consistent(L, a) && Meaningful(L, a) && DependableAction(L, a, action)
    requires IsCrash(action) && Step(L, a, action, b) && Step(L, b, Open, c) && Clean(a.server.disk.wal)
    ensures c.Up? && (c.history == a.history || (|b.history| == |a.history| + 1 && c.history == b.history))
    ensures a.history <= c.history && c.server.catalog.version == |c.history|
    ensures Serial(L.effect, L.meaning(L.empty), c.history) == Ok(L.meaning(c.server.catalog.tables))
  {
    CrashKeepsAcknowledged(L, a, action, b);
    CrashedHistory(L, a, action, b);
    ReopenedIsSerial(L, a, action, b, c);
    assert b.history[..|b.history|] == b.history;
  }

  lemma ReopenedIsSerial<T(!new), M, S(!new), Q(!new), A>(L: Language<T, M, S, Q, A>, a: System<T, S, Q, A>, action: Action<S, Q>, b: System<T, S, Q, A>, c: System<T, S, Q, A>)
    requires Lawful(L) && Agrees(L) && Consistent(L, a) && Meaningful(L, a) && DependableAction(L, a, action)
    requires Step(L, a, action, b) && OpenStep(L, b, c)
    ensures Durable(b.disk) <= |b.history| && c.history == b.history[..Durable(b.disk)]
    ensures c.server.catalog.version == |c.history|
    ensures Serial(L.effect, L.meaning(L.empty), c.history) == Ok(L.meaning(c.server.catalog.tables))
  {
    StepKeeps(L, a, action, b);
    StepMeans(L, a, action, b);
    OpenedIsSerial(L, b, c);
  }

  /** Whatever the log holds, opening gives the serial outcome of the durable commits. */
  lemma OpenedIsSerial<T(!new), M, S(!new), Q(!new), A>(L: Language<T, M, S, Q, A>, b: System<T, S, Q, A>, c: System<T, S, Q, A>)
    requires Lawful(L) && Agrees(L) && Consistent(L, b) && Meaningful(L, b) && OpenStep(L, b, c)
    ensures Durable(b.disk) <= |b.history| && c.history == b.history[..Durable(b.disk)]
    ensures c.server.catalog.version == |c.history|
    ensures Serial(L.effect, L.meaning(L.empty), c.history) == Ok(L.meaning(c.server.catalog.tables))
  {
    OpenMeans(L, b, c);
    OpenKeeps(L, b, c);
    PublishedIsSerial(L, c);
  }

  lemma CrashedHistory<T(!new), M, S(!new), Q(!new), A>(L: Language<T, M, S, Q, A>, a: System<T, S, Q, A>, action: Action<S, Q>, b: System<T, S, Q, A>)
    requires IsCrash(action) && Step(L, a, action, b)
    ensures b.Down? && b.acknowledged == |a.history| && a.history <= b.history && |b.history| <= |a.history| + 1
    ensures b.history[..|a.history|] == a.history
  {
  }

  /** No run loses an acknowledged commit, whatever crashes it suffers, as long as each crash strikes a
      log of whole records. */
  lemma {:induction false} NothingIsLost<T(!new), M, S(!new), Q(!new), A>(L: Language<T, M, S, Q, A>, states: seq<System<T, S, Q, A>>, actions: seq<Action<S, Q>>, i: nat, n: nat)
    requires Lawful(L) && IsRun(L, states, actions) && i <= n < |states|
    requires forall k :: 0 <= k < n && IsCrash(actions[k]) && states[k].Up? ==> Clean(states[k].server.disk.wal)
    ensures Acknowledged(states[i]) <= Acknowledged(states[n])
    ensures states[n].Down? ==> states[n].acknowledged <= Durable(states[n].disk)
    decreases n
  {
    if n > 0 {
      var a, action, b := states[n - 1], actions[n - 1], states[n];
      assert Step(L, a, action, b);
      NothingIsLost(L, states, actions, if i == n then n - 1 else i, n - 1);
      RunsAreSerial(L, states, actions, n - 1);
      RunsAreSerial(L, states, actions, n);
      StepLosesNothing(L, a, action, b);
    }
  }

  lemma StepLosesNothing<T(!new), M, S(!new), Q(!new), A>(L: Language<T, M, S, Q, A>, a: System<T, S, Q, A>, action: Action<S, Q>, b: System<T, S, Q, A>)
    requires Lawful(L) && Consistent(L, a) && Consistent(L, b) && Step(L, a, action, b)
    requires IsCrash(action) ==> Clean(a.server.disk.wal)
    requires a.Down? ==> a.acknowledged <= Durable(a.disk)
    ensures Acknowledged(a) <= Acknowledged(b)
    ensures b.Down? ==> b.acknowledged <= Durable(b.disk)
  {
    if IsCrash(action) {
      CrashKeepsAcknowledged(L, a, action, b);
    } else if action.Open? {
      var c, t :| Opens(L, a.disk, Ok(c)) && Same(L, c.tables, t)
                  && b == Up(Server(c.(tables := t), a.disk), map[], if c.version <= |a.history| then a.history[..c.version] else [], c.version, [t]);
      OpenReaches(L, a.disk, a.history, c);
    }
  }

  ghost predicate CrashesAreClean<T, S, Q, A>(states: seq<System<T, S, Q, A>>, actions: seq<Action<S, Q>>, n: nat)
    requires n <= |states| && n <= |actions|
  {
    forall k :: 0 <= k < n && IsCrash(actions[k]) && states[k].Up? ==> Clean(states[k].server.disk.wal)
  }

  // --------------------------------------------------------------- tears within a character

  function LogOf<T, S, Q, A>(a: System<T, S, Q, A>): Wal<Record<S>> {
    if a.Up? then a.server.disk.wal else a.disk.wal
  }

  /** The crash tears a record within a character. */
  predicate CutsText<S, Q>(action: Action<S, Q>) {
    (action.CrashInCommit? || action.CrashInAutocommit?) && CutsCharacter(action.piece)
  }

  lemma CommittedKeepsText<T(!new), M, S(!new), Q(!new), A>(L: Language<T, M, S, Q, A>, a: System<T, S, Q, A>, statements: seq<S>)
    requires a.Up? && (LogOf(a).unterminated ==> LogOf(a).lines != [])
    ensures forall schemaChanged, t ::
              var after := LogOf(Committed(a, statements, schemaChanged, t)).lines;
              (TextOnly(after) <==> TextOnly(LogOf(a).lines)) && (Unreadable(after) <==> Unreadable(LogOf(a).lines))
  {
    var piece := Full(Record(a.server.catalog.version, a.server.catalog.version + 1, statements));
    AppendIsTextIffNotCut(LogOf(a), piece);
    AppendFailsIffCut(LogOf(a), piece);
  }

  lemma StepKeepsText<T(!new), M, S(!new), Q(!new), A>(L: Language<T, M, S, Q, A>, a: System<T, S, Q, A>, action: Action<S, Q>, b: System<T, S, Q, A>)
    requires Consistent(L, a) && Step(L, a, action, b)
    ensures TextOnly(LogOf(a).lines) && !CutsText(action) ==> TextOnly(LogOf(b).lines)
    ensures b.Up? && (a.Up? ==> !Unreadable(LogOf(a).lines)) ==> !Unreadable(LogOf(b).lines)
  {
    match action
    case Commit(id) => CommittedKeepsText(L, a.(sessions := a.sessions - {id}), a.sessions[id].statements);
    case Autocommit(s) => CommittedKeepsText(L, a, [s]);
    case CrashInCommit(_, piece) => AppendIsTextIffNotCut(LogOf(a), piece);
    case CrashInAutocommit(_, piece) => AppendIsTextIffNotCut(LogOf(a), piece);
    case _ =>
  }

  ghost predicate NoneCutsText<S, Q>(actions: seq<Action<S, Q>>, n: nat)
    requires n <= |actions|
  {
    forall k :: 0 <= k < n ==> !CutsText(actions[k])
  }

  lemma StepOfRunKeepsText<T(!new), M, S(!new), Q(!new), A>(L: Language<T, M, S, Q, A>, states: seq<System<T, S, Q, A>>, actions: seq<Action<S, Q>>, n: nat)
    requires Lawful(L) && IsRun(L, states, actions) && n < |actions|
    ensures TextOnly(LogOf(states[n]).lines) && !CutsText(actions[n]) ==> TextOnly(LogOf(states[n + 1]).lines)
    ensures states[n + 1].Up? && (states[n].Up? ==> !Unreadable(LogOf(states[n]).lines)) ==> !Unreadable(LogOf(states[n + 1]).lines)
  {
    RunsAreSerial(L, states, actions, n);
    assert Step(L, states[n], actions[n], states[n + 1]);
    StepKeepsText(L, states[n], actions[n], states[n + 1]);
  }

  lemma {:induction false} RunsKeepText<T(!new), M, S(!new), Q(!new), A>(L: Language<T, M, S, Q, A>, states: seq<System<T, S, Q, A>>, actions: seq<Action<S, Q>>, n: nat)
    requires Lawful(L) && IsRun(L, states, actions) && n < |states|
    ensures NoneCutsText(actions, n) ==> TextOnly(LogOf(states[n]).lines)
    ensures states[n].Up? ==> !Unreadable(LogOf(states[n]).lines)
    decreases n
  {
    if n > 0 {
      RunsKeepText(L, states, actions, n - 1);
      StepOfRunKeepsText(L, states, actions, n - 1);
    }
  }

  lemma CrashCuts<T(!new), M, S(!new), Q(!new), A>(L: Language<T, M, S, Q, A>, a: System<T, S, Q, A>, action: Action<S, Q>, b: System<T, S, Q, A>)
    requires Step(L, a, action, b) && IsCrash(action)
    requires (LogOf(a).unterminated ==> LogOf(a).lines != []) && !Unreadable(LogOf(a).lines)
    ensures b.Down? && (Unreadable(LogOf(b).lines) <==> CutsText(action) && AllWhole(Settled(LogOf(a))))
  {
    if action.CrashInCommit? || action.CrashInAutocommit? {
      AppendFailsIffCut(LogOf(a), action.piece);
    }
  }

  /** A crash that tears a record within a character makes the database unopenable, acknowledged commits and
      all, if and only if every line before the torn one is a record; no other crash does. */
  lemma CutIsFatal<T(!new), M, S(!new), Q(!new), A>(L: Language<T, M, S, Q, A>, states: seq<System<T, S, Q, A>>, actions: seq<Action<S, Q>>, n: nat)
    requires Lawful(L) && IsRun(L, states, actions) && n < |actions| && IsCrash(actions[n])
    ensures Unreadable(LogOf(states[n + 1]).lines) <==> CutsText(actions[n]) && AllWhole(Settled(LogOf(states[n])))
    ensures var b := states[n + 1];
            Unreadable(LogOf(b).lines) ==> (forall c :: !Step(L, b, Open, c)) && Step(L, b, FailToOpen, b)
  {
    var a := states[n];
    assert Step(L, a, actions[n], states[n + 1]);
    RunsAreSerial(L, states, actions, n);
    RunsKeepText(L, states, actions, n);
    CrashCuts(L, a, actions[n], states[n + 1]);
  }

  /** A run of dependable statements opens again unless a crash tore a record within a character, and loses
      nothing when its crashes are clean. */
  lemma RunsRecover<T(!new), M, S(!new), Q(!new), A>(L: Language<T, M, S, Q, A>, states: seq<System<T, S, Q, A>>, actions: seq<Action<S, Q>>, i: nat, n: nat)
    requires Lawful(L) && Agrees(L) && IsRun(L, states, actions) && i <= n < |actions|
    requires forall k :: 0 <= k < n ==> DependableAction(L, states[k], actions[k])
    ensures actions[n] == FailToOpen ==> Unreadable(LogOf(states[n]).lines)
    ensures NoneCutsText(actions, n) ==> actions[n] != FailToOpen
    ensures CrashesAreClean(states, actions, n) ==> Acknowledged(states[i]) <= Acknowledged(states[n])
  {
    RunsAreMeaningful(L, states, actions, n);
    assert Step(L, states[n], actions[n], states[n + 1]);
    if actions[n] == FailToOpen {
      FailsIffUnreadable(L, states[n]);
      RunsKeepText(L, states, actions, n);
      TextIsReadable(LogOf(states[n]).lines);
    }
    if CrashesAreClean(states, actions, n) {
      NothingIsLost(L, states, actions, i, n);
    }
  }

  /** The tables published at any moment of such a run are the serial outcome of its commits. */
  lemma RunsArePublished<T(!new), M, S(!new), Q(!new), A>(L: Language<T, M, S, Q, A>, states: seq<System<T, S, Q, A>>, actions: seq<Action<S, Q>>, n: nat)
    requires Lawful(L) && Agrees(L) && IsRun(L, states, actions) && n < |states| && states[n].Up?
    requires forall k :: 0 <= k < n ==> DependableAction(L, states[k], actions[k])
    ensures Serial(L.effect, L.meaning(L.empty), states[n].history) == Ok(L.meaning(states[n].server.catalog.tables))
    ensures states[n].server.catalog.version == |states[n].history|
  {
    RunsAreMeaningful(L, states, actions, n);
    PublishedIsSerial(L, states[n]);
  }

  /** Published tables and the tables of open transactions stay valid in every run. */
  lemma CatalogsStayValid<T(!new), M, S(!new), Q(!new), A>(L: Language<T, M, S, Q, A>, states: seq<System<T, S, Q, A>>, actions: seq<Action<S, Q>>, n: nat)
    requires Lawful(L) && IsRun(L, states, actions) && n < |states| && states[n].Up?
    ensures L.valid(states[n].server.catalog.tables)
    ensures forall id :: id in states[n].sessions ==> L.valid(states[n].sessions[id].catalog.tables)
  {
    RunsAreSerial(L, states, actions, n);
    var a := states[n];
    forall id | id in a.sessions ensures L.valid(a.sessions[id].catalog.tables) {
      assert SessionOk(L, a.sessions[id], a.start, a.versions);
    }
  }

  // --------------------------------------------------------------------- torn tails

  /** A commit survives a later crash if and only if the log was clean when it was appended: opening does
      not cut off a torn tail, so what is appended after one can never be read back. */
  lemma CommitSurvivesIffClean<T(!new), M, S(!new), Q(!new), A>(L: Language<T, M, S, Q, A>, a: System<T, S, Q, A>, statements: seq<S>, schemaChanged: bool, t: T,
                                                                b: System<T, S, Q, A>, c: System<T, S, Q, A>)
    requires Lawful(L) && a.Up? && Consistent(L, a) && L.valid(t) && RunsAll(L.runs, a.server.catalog.tables, statements, Ok(t))
    requires b == Down(Committed(a, statements, schemaChanged, t).server.disk, |a.history| + 1, a.history + [statements])
    requires Step(L, b, Open, c)
    ensures c.history == a.history + [statements] <==> Clean(a.server.disk.wal)
  {
    var piece := Full(Record(|a.history|, |a.history| + 1, statements));
    DiskAppend(L, a.server.disk, a.history, statements, piece);
    var r, u :| Opens(L, b.disk, Ok(r)) && Same(L, r.tables, u)
                && c == Up(Server(r.(tables := u), b.disk), map[], if r.version <= |b.history| then b.history[..r.version] else [], r.version, [u]);
    OpenReaches(L, b.disk, b.history, r);
    assert b.history[..|b.history|] == b.history;
  }

  /** The serial answer to each read of a transaction that may commit. */
  lemma CommittedReadsMean<T(!new), M, S(!new), Q(!new), A>(L: Language<T, M, S, Q, A>, a: System<T, S, Q, A>, id: nat, k: nat)
    requires Agrees(L) && Consistent(L, a) && Meaningful(L, a) && a.Up? && id in a.sessions
    requires a.sessions[id].base == a.server.catalog.version && k < |a.sessions[id].seen|
    ensures var x := a.sessions[id];
            var read := x.seen[k];
            read.after <= |x.statements|
            && var own := Serial(L.effect, L.meaning(L.empty), a.history + [x.statements[..read.after]]);
               own.Ok? && read.answer == L.asks(own.value, read.query)
  {
    var x := a.sessions[id];
    assert SessionOk(L, x, a.start, a.versions) && SessionMeans(L, x);
    var n := x.seen[k].after;
    TrailMeans(L, x.trail[..n + 1], x.statements[..n]);
    PublishedMeans(L, a);
    assert (a.history + [x.statements[..n]])[..|a.history|] == a.history;
    assert a.history[..|a.history|] == a.history;
  }
}
