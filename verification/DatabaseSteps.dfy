/** What the contracts of SqlDatabase and SqlSession promise is a step of the transaction machine, method by
    method, and any sequence of calls is a run of it (src/sql/database.rs). */
module DatabaseSteps {
  import opened Wrappers
  import opened Syntax
  import opened Planner
  import opened Evaluator
  import opened Transactions
  import opened Serializability
  import opened SqlDurability
  import opened Database

  /** A language whose tables, execution and answers are those of this engine; SqlLanguage is one. */
  ghost predicate HostsSql(L: ReplayLanguage) {
    && (forall db :: L.valid(db) <==> ValidTables(db))
    && (forall db :: L.meaning(db) == MeaningOf(db))
    && (forall db, d, r :: Executes(db, Live(d), r) ==> L.runs(db, d, r))
    && (forall d :: L.isSchema(d) <==> IsSchemaStatement(Raw(d)))
    && (forall db, q :: L.answer(db, q) == ExecQuery(db, OptimizeQuery(q), map[]))
  }

  /** The engine's own language meets that. */
  lemma SqlHosts(L: ReplayLanguage)
    requires L == SqlLanguage()
    ensures HostsSql(L)
  {
  }

  /** ExecuteAutocommit: a commit, and a checkpoint after a schema statement. */
  lemma AutocommitIsStep(L: ReplayLanguage, a: SqlSystem, d: DurableStatement, r: Result<Db>, after: SqlServer) returns (b: SqlSystem)
    requires HostsSql(L) && a.Up? && AutocommitGives(a.server, d, r, after)
    ensures AutocommitStep(L, a, d, b)
    ensures b.Up? && b.sessions == a.sessions
    ensures after == if r.Ok? && IsSchemaStatement(Raw(d)) then Saved(b.server) else b.server
  {
    SqlRuns(L, a.server.catalog.tables, d, r);
    b := if r.Err? then a else Committed(a, [d], IsSchemaStatement(Raw(d)), r.value);
  }

  lemma SqlRuns(L: ReplayLanguage, db: Db, d: DurableStatement, r: Result<Db>)
    requires HostsSql(L) && Executes(db, Live(d), r)
    ensures L.runs(db, d, r) && L.isSchema(d) == IsSchemaStatement(Raw(d))
    ensures r.Ok? ==> Same(L, r.value, r.value)
  {
    if r.Ok? {
      ExecutedIsValid(db, Live(d), r.value);
    }
  }

  /** ExecuteInside */
  lemma ExecuteIsStep(L: ReplayLanguage, a: SqlSystem, id: nat, d: DurableStatement, r: Result<Db>) returns (b: SqlSystem)
    requires HostsSql(L) && a.Up? && id in a.sessions && Executes(a.sessions[id].catalog.tables, Live(d), r)
    ensures ExecuteStep(L, a, id, d, b)
    ensures b == if r.Err? then a else a.(sessions := a.sessions[id := Ran(a.sessions[id], d, IsSchemaStatement(Raw(d)), r.value)])
  {
    b := if r.Err? then a else a.(sessions := a.sessions[id := Ran(a.sessions[id], d, IsSchemaStatement(Raw(d)), r.value)]);
    assert L.runs(a.sessions[id].catalog.tables, d, r);
  }

  /** Commit: x is the transaction before, after the server that COMMIT leaves. */
  ghost predicate CommitGives(before: SqlServer, x: SqlTransaction, after: SqlServer) {
    if x.base == before.catalog.version && x.statements != []
    then exists t :: ValidTables(t) && MeaningOf(t) == MeaningOf(x.catalog.tables) && after == Published(before, x.statements, x.schemaChanged, t)
    else after == before
  }

  lemma CommitIsStep(L: ReplayLanguage, a: SqlSystem, id: nat, after: SqlServer) returns (b: SqlSystem)
    requires HostsSql(L) && a.Up? && id in a.sessions && CommitGives(a.server, a.sessions[id], after)
    ensures CommitStep(L, a, id, b) && b.Up? && b.server == after && b.sessions == a.sessions - {id}
  {
    var x, ended := a.sessions[id], a.(sessions := a.sessions - {id});
    b := ended;
    if CanCommit(a, id) {
      var t :| ValidTables(t) && MeaningOf(t) == MeaningOf(x.catalog.tables) && after == Published(a.server, x.statements, x.schemaChanged, t);
      b := Committed(ended, x.statements, x.schemaChanged, t);
      assert Same(L, x.catalog.tables, t);
    }
  }

  /** Open: c is the replayed catalog, before its Bloom filters are configured. */
  lemma OpenIsStep(L: ReplayLanguage, a: SqlSystem, c: SqlCatalog, server: SqlServer) returns (b: SqlSystem)
    requires HostsSql(L) && a.Down? && server.disk == a.disk
    requires Opens(L, a.disk, Ok(c)) && Same(L, c.tables, server.catalog.tables)
    requires server.catalog == c.(tables := server.catalog.tables)
    ensures OpenStep(L, a, b) && b.server == server
  {
    b := Up(server, map[], if c.version <= |a.history| then a.history[..c.version] else [], c.version, [server.catalog.tables]);
  }

  // ------------------------------------------------------------------ sequences of calls

  /** What the methods change: the database, and the transactions of its sessions. */
  datatype Host = Host(server: SqlServer, sessions: map<nat, SqlTransaction>)

  ghost predicate Shows(a: SqlSystem, h: Host) {
    a.Up? && a.server == h.server && a.sessions == h.sessions
  }

  ghost predicate ExecuteGives(before: Host, id: nat, d: DurableStatement, after: Host) {
    id in before.sessions
    && exists r :: Executes(before.sessions[id].catalog.tables, Live(d), r)
                   && after == if r.Err? then before
                               else before.(sessions := before.sessions[id := Ran(before.sessions[id], d, IsSchemaStatement(Raw(d)), r.value)])
  }

  ghost predicate QueryGives(before: Host, id: nat, q: Syntax.Query, after: Host) {
    id in before.sessions
    && var x := before.sessions[id];
    var answer := ExecQuery(x.catalog.tables, OptimizeQuery(q), map[]);
    after == before.(sessions := before.sessions[id := x.(seen := x.seen + [Read(q, |x.statements|, answer)])])
  }

  /** The methods' contracts, with the action that each method is for. */
  ghost predicate CallGives(before: Host, call: SqlAction, after: Host) {
    match call
    case Begin(id) =>
      id !in before.sessions
      && var c := before.server.catalog;
      after == before.(sessions := before.sessions[id := Session(c.version, c, [], false, [c.tables], [])])
    case Execute(id, d) => ExecuteGives(before, id, d, after)
    case Query(id, q) => QueryGives(before, id, q, after)
    case Commit(id) =>
      id in before.sessions && CommitGives(before.server, before.sessions[id], after.server) && after.sessions == before.sessions - {id}
    case Rollback(id) => id in before.sessions && after == before.(sessions := before.sessions - {id})
    case Autocommit(d) => after.sessions == before.sessions && exists r :: AutocommitGives(before.server, d, r, after.server)
    case Checkpoint => after == before.(server := Saved(before.server))
    case _ => false
  }

  lemma QueryIsStep(L: ReplayLanguage, a: SqlSystem, before: Host, id: nat, q: Syntax.Query, after: Host) returns (b: SqlSystem)
    requires HostsSql(L) && Shows(a, before) && QueryGives(before, id, q, after)
    ensures Step(L, a, Action.Query(id, q), b) && Shows(b, after)
  {
    b := a.(sessions := after.sessions);
  }

  /** Begin, Rollback and Save */
  lemma PlainCallIsStep(L: ReplayLanguage, a: SqlSystem, before: Host, call: SqlAction, after: Host) returns (b: SqlSystem)
    requires Shows(a, before) && (call.Begin? || call.Rollback? || call.Checkpoint?) && CallGives(before, call, after)
    ensures Step(L, a, call, b) && Shows(b, after)
  {
    b := a.(server := after.server, sessions := after.sessions);
  }

  lemma ExecuteCallIsStep(L: ReplayLanguage, a: SqlSystem, before: Host, id: nat, d: DurableStatement, after: Host) returns (b: SqlSystem)
    requires HostsSql(L) && Shows(a, before) && ExecuteGives(before, id, d, after)
    ensures Step(L, a, Execute(id, d), b) && Shows(b, after)
  {
    var r :| Executes(before.sessions[id].catalog.tables, Live(d), r)
             && after == if r.Err? then before
                         else before.(sessions := before.sessions[id := Ran(before.sessions[id], d, IsSchemaStatement(Raw(d)), r.value)]);
    b := ExecuteIsStep(L, a, id, d, r);
  }

  lemma SaveFollows(L: ReplayLanguage, b: SqlSystem, server: SqlServer) returns (c: SqlSystem)
    requires b.Up? && server == Saved(b.server)
    ensures Step(L, b, Checkpoint, c) && Shows(c, Host(server, b.sessions))
  {
    c := b.(server := server);
  }

  /** A run with one more step. */
  lemma StepExtends<T(!new), M, S(!new), Q(!new), A>(L: Language<T, M, S, Q, A>, states: seq<System<T, S, Q, A>>, actions: seq<Action<S, Q>>, action: Action<S, Q>, b: System<T, S, Q, A>)
    requires IsRun(L, states, actions) && Step(L, states[|actions|], action, b)
    ensures IsRun(L, states + [b], actions + [action])
  {
    var all, taken := states + [b], actions + [action];
    forall i | 0 <= i < |taken| ensures Step(L, all[i], taken[i], all[i + 1]) {
      if i < |actions| {
        assert all[i] == states[i] && all[i + 1] == states[i + 1];
      } else {
        assert all[i] == states[|actions|];
      }
    }
  }

  /** A run that ends with this host. */
  ghost predicate RunTo(L: ReplayLanguage, states: seq<SqlSystem>, actions: seq<SqlAction>, h: Host) {
    IsRun(L, states, actions) && Shows(states[|actions|], h)
  }

  lemma RunToNext(L: ReplayLanguage, states: seq<SqlSystem>, actions: seq<SqlAction>, before: Host, action: SqlAction, b: SqlSystem, after: Host)
    requires RunTo(L, states, actions, before) && Step(L, states[|actions|], action, b) && Shows(b, after)
    ensures RunTo(L, states + [b], actions + [action], after)
  {
    StepExtends(L, states, actions, action, b);
  }

  lemma AutocommitCall(L: ReplayLanguage, states: seq<SqlSystem>, actions: seq<SqlAction>, before: Host, d: DurableStatement, after: Host)
    returns (longer: seq<SqlSystem>, more: seq<SqlAction>)
    requires HostsSql(L) && RunTo(L, states, actions, before) && after.sessions == before.sessions
    requires exists r :: AutocommitGives(before.server, d, r, after.server)
    ensures RunTo(L, longer, more, after) && states <= longer
  {
    var r :| AutocommitGives(before.server, d, r, after.server);
    var b := AutocommitIsStep(L, states[|actions|], d, r, after.server);
    var between := Host(b.server, b.sessions);
    RunToNext(L, states, actions, before, Autocommit(d), b, between);
    longer, more := Settled(L, states + [b], actions + [Autocommit(d)], between, after, r.Ok? && IsSchemaStatement(Raw(d)));
  }

  /** After an autocommit the database is saved or left as it is. */
  lemma Settled(L: ReplayLanguage, states: seq<SqlSystem>, actions: seq<SqlAction>, before: Host, after: Host, saves: bool)
    returns (longer: seq<SqlSystem>, more: seq<SqlAction>)
    requires RunTo(L, states, actions, before) && after == if saves then Host(Saved(before.server), before.sessions) else before
    ensures RunTo(L, longer, more, after) && states <= longer
  {
    longer, more := states, actions;
    if saves {
      var c := SaveFollows(L, states[|actions|], after.server);
      RunToNext(L, states, actions, before, Checkpoint, c, after);
      longer, more := states + [c], actions + [Checkpoint];
    }
  }

  lemma OneStepCall(L: ReplayLanguage, a: SqlSystem, before: Host, call: SqlAction, after: Host) returns (b: SqlSystem)
    requires HostsSql(L) && Shows(a, before) && CallGives(before, call, after) && !call.Autocommit?
    ensures Step(L, a, call, b) && Shows(b, after)
  {
    if call.Execute? {
      b := ExecuteCallIsStep(L, a, before, call.id, call.statement, after);
    } else if call.Query? {
      b := QueryIsStep(L, a, before, call.id, call.query, after);
    } else if call.Commit? {
      b := CommitIsStep(L, a, call.id, after.server);
    } else {
      b := PlainCallIsStep(L, a, before, call, after);
    }
  }

  lemma OneCall(L: ReplayLanguage, states: seq<SqlSystem>, actions: seq<SqlAction>, before: Host, call: SqlAction, after: Host)
    returns (longer: seq<SqlSystem>, more: seq<SqlAction>)
    requires HostsSql(L) && RunTo(L, states, actions, before) && CallGives(before, call, after)
    ensures RunTo(L, longer, more, after) && states <= longer
  {
    if call.Autocommit? {
      longer, more := AutocommitCall(L, states, actions, before, call.statement, after);
    } else {
      var b := OneStepCall(L, states[|actions|], before, call, after);
      RunToNext(L, states, actions, before, call, b, after);
      longer, more := states + [b], actions + [call];
    }
  }

  /** One call after the other. */
  ghost predicate Calls(hosts: seq<Host>, calls: seq<SqlAction>) {
    |hosts| == |calls| + 1 && forall i :: 0 <= i < |calls| ==> CallGives(hosts[i], calls[i], hosts[i + 1])
  }

  lemma CallAt(hosts: seq<Host>, calls: seq<SqlAction>, i: nat)
    requires Calls(hosts, calls) && i < |calls|
    ensures |hosts| == |calls| + 1 && CallGives(hosts[i], calls[i], hosts[i + 1])
  {
  }

  /** Whatever is called on an open database, and in whatever order, continues the run that led to it. */
  lemma {:induction false} CallsAreRun(L: ReplayLanguage, states: seq<SqlSystem>, actions: seq<SqlAction>, hosts: seq<Host>, calls: seq<SqlAction>, n: nat)
    returns (longer: seq<SqlSystem>, more: seq<SqlAction>)
    requires HostsSql(L) && Calls(hosts, calls) && RunTo(L, states, actions, hosts[0]) && n <= |calls|
    ensures RunTo(L, longer, more, hosts[n]) && states <= longer
    decreases n
  {
    longer, more := states, actions;
    if n > 0 {
      longer, more := CallsAreRun(L, states, actions, hosts, calls, n - 1);
      CallAt(hosts, calls, n - 1);
      longer, more := OneCall(L, longer, more, hosts[n - 1], calls[n - 1], hosts[n]);
    }
  }
}
