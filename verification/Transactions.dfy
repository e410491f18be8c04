/** Transactions, the log, checkpoints, crashes and opening, as a step machine over any kind of stored
    tables (src/sql/database.rs). A Language says what statements and reads do; SqlDurability supplies
    the one of this engine. */
module Transactions {
  import opened Wrappers
  import opened Wal

  // ---------------------------------------------------------------------- languages

  /** T is the stored form of the tables and M their meaning. runs is what live execution may make of a
      statement, replays what replay may make of its logged form, effect what both should mean wherever
      the statement is dependable. */
  datatype Language<!T, !M, !S, !Q, !A> = Language(
    valid: T -> bool,
    meaning: T -> M,
    runs: (T, S, Result<T>) -> bool,
    replays: (T, S, Result<T>) -> bool,
    isSchema: S -> bool,
    answer: (T, Q) -> A,
    effect: (M, S) -> Result<M>,
    dependable: (M, S) -> bool,
    asks: (M, Q) -> A,
    dependableRead: (T, Q) -> bool,
    empty: T)

  ghost predicate Same<T(!new), M, S(!new), Q(!new), A>(L: Language<T, M, S, Q, A>, a: T, b: T) {
    L.valid(b) && L.meaning(b) == L.meaning(a)
  }

  /** What live execution and replay keep whatever the statement is. */
  ghost predicate Lawful<T(!new), M, S(!new), Q(!new), A>(L: Language<T, M, S, Q, A>) {
    && L.valid(L.empty)
    && (forall t, s, r :: L.valid(t) && L.runs(t, s, Ok(r)) ==> L.valid(r))
    && (forall t, s, r :: L.valid(t) && L.replays(t, s, Ok(r)) ==> L.valid(r))
    && (forall t, s, a, b :: L.runs(t, s, Ok(a)) && Same(L, a, b) ==> L.runs(t, s, Ok(b)))
  }

  /** A dependable statement has its meaning's effect, live and in replay. */
  ghost predicate Agrees<T(!new), M, S(!new), Q(!new), A>(L: Language<T, M, S, Q, A>) {
    && (forall t, s, r :: L.valid(t) && L.dependable(L.meaning(t), s) && (L.runs(t, s, r) || L.replays(t, s, r)) ==>
          r.Ok? && L.effect(L.meaning(t), s) == Ok(L.meaning(r.value)))
    && (forall t, q :: L.valid(t) && L.dependableRead(t, q) ==> L.answer(t, q) == L.asks(L.meaning(t), q))
  }

  // --------------------------------------------------------------------- serial meaning

  function Apply<M, S>(effect: (M, S) -> Result<M>, m: M, statements: seq<S>): Result<M> {
    if statements == [] then Ok(m)
    else
      var before := Apply(effect, m, statements[..|statements| - 1]);
      if before.Err? then Err else effect(before.value, statements[|statements| - 1])
  }

  /** The serial execution of whole commits, one after the other. */
  function Serial<M, S>(effect: (M, S) -> Result<M>, m: M, history: seq<seq<S>>): Result<M> {
    if history == [] then Ok(m)
    else
      var before := Serial(effect, m, history[..|history| - 1]);
      if before.Err? then Err else Apply(effect, before.value, history[|history| - 1])
  }

  // -------------------------------------------------------------------------- states

  /** One commit in the log: the version it was based on, the version it made and its statements. */
  datatype Record<S> = Record(base: nat, commit: nat, statements: seq<S>)

  datatype Catalog<T> = Catalog(version: nat, schemaVersion: nat, tables: T)

  datatype Disk<T, S> = Disk(snapshot: Option<Catalog<T>>, wal: Wal<Record<S>>)

  datatype Server<T, S> = Server(catalog: Catalog<T>, disk: Disk<T, S>)

  /** A read made after some of the transaction's own statements. */
  datatype Read<Q, A> = Read(query: Q, after: nat, answer: A)

  /** An open transaction: trail holds the tables it started from and those after each of its statements. */
  datatype Session<T, S, Q, A> = Session(
    base: nat,
    catalog: Catalog<T>,
    statements: seq<S>,
    schemaChanged: bool,
    trail: seq<T>,
    seen: seq<Read<Q, A>>)

  /** history lists the statements of every commit in version order, and versions the tables published
      since the database was opened at version start. A database that is down may hold one logged commit
      beyond the acknowledged ones. */
  datatype System<T, S, Q, A> =
    | Up(server: Server<T, S>, sessions: map<nat, Session<T, S, Q, A>>, history: seq<seq<S>>, start: nat, versions: seq<T>)
    | Down(disk: Disk<T, S>, acknowledged: nat, history: seq<seq<S>>)

  // --------------------------------------------------------------------------- steps

  datatype Action<S, Q> =
    | Begin(id: nat)
    | Execute(id: nat, statement: S)
    | Query(id: nat, query: Q)
    | Commit(id: nat)
    | Rollback(id: nat)
    | Autocommit(statement: S)
    | Checkpoint
    | Crash
    | CrashInCommit(id: nat, piece: Piece<Record<S>>)
    | CrashInAutocommit(statement: S, piece: Piece<Record<S>>)
    | CrashInCheckpoint
    | Open
    | FailToOpen

  function Ran<T, S, Q, A>(x: Session<T, S, Q, A>, s: S, schema: bool, t: T): Session<T, S, Q, A> {
    x.(catalog := x.catalog.(tables := t), statements := x.statements + [s], schemaChanged := x.schemaChanged || schema,
       trail := x.trail + [t])
  }

  /** log_transaction followed by publication. */
  function Published<T, S>(server: Server<T, S>, statements: seq<S>, schemaChanged: bool, t: T): Server<T, S> {
    var v := server.catalog.version;
    Server(Catalog(v + 1, server.catalog.schemaVersion + if schemaChanged then 1 else 0, t),
           server.disk.(wal := Append(server.disk.wal, Full(Record(v, v + 1, statements)))))
  }

  function Committed<T, S, Q, A>(a: System<T, S, Q, A>, statements: seq<S>, schemaChanged: bool, t: T): System<T, S, Q, A>
    requires a.Up?
  {
    a.(server := Published(a.server, statements, schemaChanged, t), history := a.history + [statements], versions := a.versions + [t])
  }

  /** What a crash leaves when it strikes while a commit's record is being appended. */
  function Interrupted<T, S, Q, A>(a: System<T, S, Q, A>, statements: seq<S>, piece: Piece<Record<S>>): System<T, S, Q, A>
    requires a.Up?
  {
    Down(a.server.disk.(wal := Append(a.server.disk.wal, piece)), |a.history|, a.history + [statements])
  }

  predicate PieceOf<S(==)>(piece: Piece<Record<S>>, record: Record<S>) {
    piece.Partial? || piece.record == record
  }

  predicate CanCommit<T, S, Q, A>(a: System<T, S, Q, A>, id: nat) {
    a.Up? && id in a.sessions && a.sessions[id].base == a.server.catalog.version && a.sessions[id].statements != []
  }

  ghost predicate ExecuteStep<T(!new), M, S(!new), Q(!new), A>(L: Language<T, M, S, Q, A>, a: System<T, S, Q, A>, id: nat, s: S, b: System<T, S, Q, A>) {
    && a.Up? && id in a.sessions
    && exists r :: L.runs(a.sessions[id].catalog.tables, s, r)
                   && b == if r.Err? then a else a.(sessions := a.sessions[id := Ran(a.sessions[id], s, L.isSchema(s), r.value)])
  }

  /** COMMIT ends the transaction in every case; it takes effect when no other commit came between. */
  ghost predicate CommitStep<T(!new), M, S(!new), Q(!new), A>(L: Language<T, M, S, Q, A>, a: System<T, S, Q, A>, id: nat, b: System<T, S, Q, A>) {
    && a.Up? && id in a.sessions
    && var ended := a.(sessions := a.sessions - {id});
    if CanCommit(a, id) then
      var x := a.sessions[id];
      exists t :: Same(L, x.catalog.tables, t) && b == Committed(ended, x.statements, x.schemaChanged, t)
    else b == ended
  }

  ghost predicate AutocommitStep<T(!new), M, S(!new), Q(!new), A>(L: Language<T, M, S, Q, A>, a: System<T, S, Q, A>, s: S, b: System<T, S, Q, A>) {
    && a.Up?
    && exists r :: L.runs(a.server.catalog.tables, s, r)
                   && if r.Err? then b == a else exists t :: Same(L, r.value, t) && b == Committed(a, [s], L.isSchema(s), t)
  }

  /** save: the snapshot is renamed into place, then the log is archived and started anew. */
  function Saved<T, S>(server: Server<T, S>): Server<T, S> {
    server.(disk := Disk(Some(server.catalog), Wal([], false)))
  }

  function SnapshotVersion<T, S>(disk: Disk<T, S>): nat {
    if disk.snapshot.Some? then disk.snapshot.value.version else 0
  }

  /** load_catalog: the tables of the snapshot, or none. */
  ghost predicate Loads<T(!new), M, S(!new), Q(!new), A>(L: Language<T, M, S, Q, A>, disk: Disk<T, S>, c: Catalog<T>) {
    && c.version == SnapshotVersion(disk)
    && c.schemaVersion == (if disk.snapshot.Some? then disk.snapshot.value.schemaVersion else 0)
    && Same(L, if disk.snapshot.Some? then disk.snapshot.value.tables else L.empty, c.tables)
  }

  /** Statements in sequence under one of the execution relations, up to the first failure. */
  ghost predicate RunsAll<T(!new), S(!new)>(run: (T, S, Result<T>) -> bool, t: T, statements: seq<S>, r: Result<T>) {
    if statements == [] then r == Ok(t)
    else
      || (r.Err? && RunsAll(run, t, statements[..|statements| - 1], Err))
      || exists before :: RunsAll(run, t, statements[..|statements| - 1], Ok(before)) && run(before, statements[|statements| - 1], r)
  }

  function CountSchema<S>(isSchema: S -> bool, statements: seq<S>): nat {
    if statements == [] then 0
    else CountSchema(isSchema, statements[..|statements| - 1]) + if isSchema(statements[|statements| - 1]) then 1 else 0
  }

  /** One record of replay_wal: skipped when already in the snapshot, refused when it leaves a gap. */
  ghost predicate ReplaysRecord<T(!new), M, S(!new), Q(!new), A>(L: Language<T, M, S, Q, A>, c: Catalog<T>, record: Record<S>, r: Result<Catalog<T>>) {
    if record.commit <= c.version then r == Ok(c)
    else if record.base != c.version then r == Err
    else
      exists t :: RunsAll(L.replays, c.tables, record.statements, t)
                  && r == if t.Err? then Err
                          else Ok(Catalog(record.commit, c.schemaVersion + CountSchema(L.isSchema, record.statements), t.value))
  }

  ghost predicate ReplaysAll<T(!new), M, S(!new), Q(!new), A>(L: Language<T, M, S, Q, A>, c: Catalog<T>, records: seq<Record<S>>, r: Result<Catalog<T>>) {
    if records == [] then r == Ok(c)
    else
      || (r.Err? && ReplaysAll(L, c, records[..|records| - 1], Err))
      || exists before :: ReplaysAll(L, c, records[..|records| - 1], Ok(before)) && ReplaysRecord(L, before, records[|records| - 1], r)
  }

  /** open: load the snapshot and replay the readable part of the log; a line that is not text, where reading
      gets to one, is an error. */
  ghost predicate Opens<T(!new), M, S(!new), Q(!new), A>(L: Language<T, M, S, Q, A>, disk: Disk<T, S>, r: Result<Catalog<T>>) {
    if Unreadable(disk.wal.lines) then r == Err
    else exists c :: Loads(L, disk, c) && ReplaysAll(L, c, Readable(disk.wal.lines), r)
  }

  ghost predicate OpenStep<T(!new), M, S(!new), Q(!new), A>(L: Language<T, M, S, Q, A>, a: System<T, S, Q, A>, b: System<T, S, Q, A>) {
    && a.Down? && b.Up?
    && exists c, t :: Opens(L, a.disk, Ok(c)) && Same(L, c.tables, t)
                      && b == Up(Server(c.(tables := t), a.disk), map[], if c.version <= |a.history| then a.history[..c.version] else [], c.version, [t])
  }

  ghost predicate Step<T(!new), M, S(!new), Q(!new), A>(L: Language<T, M, S, Q, A>, a: System<T, S, Q, A>, action: Action<S, Q>, b: System<T, S, Q, A>) {
    match action
    case Begin(id) =>
      && a.Up? && id !in a.sessions
      && var c := a.server.catalog;
      b == a.(sessions := a.sessions[id := Session(c.version, c, [], false, [c.tables], [])])
    case Execute(id, s) => ExecuteStep(L, a, id, s, b)
    case Query(id, q) =>
      && a.Up? && id in a.sessions
      && var x := a.sessions[id];
      b == a.(sessions := a.sessions[id := x.(seen := x.seen + [Read(q, |x.statements|, L.answer(x.catalog.tables, q))])])
    case Commit(id) => CommitStep(L, a, id, b)
    case Rollback(id) => a.Up? && id in a.sessions && b == a.(sessions := a.sessions - {id})
    case Autocommit(s) => AutocommitStep(L, a, s, b)
    case Checkpoint => a.Up? && b == a.(server := Saved(a.server))
    case Crash => a.Up? && b == Down(a.server.disk, |a.history|, a.history)
    case CrashInCommit(id, piece) =>
      && CanCommit(a, id)
      && PieceOf(piece, Record(a.server.catalog.version, a.server.catalog.version + 1, a.sessions[id].statements))
      && b == Interrupted(a, a.sessions[id].statements, piece)
    case CrashInAutocommit(s, piece) =>
      && a.Up? && (exists t :: L.runs(a.server.catalog.tables, s, Ok(t)))
      && PieceOf(piece, Record(a.server.catalog.version, a.server.catalog.version + 1, [s]))
      && b == Interrupted(a, [s], piece)
    case CrashInCheckpoint =>
      a.Up? && b == Down(a.server.disk.(snapshot := Some(a.server.catalog)), |a.history|, a.history)
    case Open => OpenStep(L, a, b)
    case FailToOpen => a.Down? && Opens(L, a.disk, Err) && b == a
  }
}
