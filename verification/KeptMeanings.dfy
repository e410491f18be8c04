/** What every statement keeps of the meaning of tables is kept in every run: in each published catalog and in each
    transaction's own, through crashes and openings (src/sql/database.rs). */
module KeptMeanings {
  import opened Wrappers
  import opened Wal
  import opened Transactions
  import opened Serializability
  import opened Durability

  /** The initial tables have the property, and every execution keeps it. */
  ghost predicate Keeps<T(!new), M, S(!new), Q(!new), A>(L: Language<T, M, S, Q, A>, holds: M -> bool) {
    && holds(L.meaning(L.empty))
    && forall t, s, r :: L.valid(t) && holds(L.meaning(t)) && (L.runs(t, s, Ok(r)) || L.replays(t, s, Ok(r))) ==> holds(L.meaning(r))
  }

  /** The same language, in which only tables with the property are valid. */
  ghost function With<T(!new), M, S(!new), Q(!new), A>(L: Language<T, M, S, Q, A>, holds: M -> bool): Language<T, M, S, Q, A> {
    L.(valid := (t: T) => L.valid(t) && holds(L.meaning(t)))
  }

  lemma WithIsLawful<T(!new), M, S(!new), Q(!new), A>(L: Language<T, M, S, Q, A>, holds: M -> bool)
    requires Lawful(L) && Keeps(L, holds)
    ensures Lawful(With(L, holds))
  {
    var K := With(L, holds);
    forall t, s, a, b | K.runs(t, s, Ok(a)) && Same(K, a, b) ensures K.runs(t, s, Ok(b)) {
      assert Same(L, a, b);
    }
  }

  lemma SameWith<T(!new), M, S(!new), Q(!new), A>(L: Language<T, M, S, Q, A>, holds: M -> bool, a: T, b: T)
    requires Same(L, a, b) && With(L, holds).valid(a)
    ensures Same(With(L, holds), a, b)
  {
  }

  lemma {:induction false} ReplaysAlike<T(!new), M, S(!new), Q(!new), A>(L: Language<T, M, S, Q, A>, holds: M -> bool, c: Catalog<T>, records: seq<Record<S>>, r: Result<Catalog<T>>)
    requires ReplaysAll(L, c, records, r)
    ensures ReplaysAll(With(L, holds), c, records, r)
    decreases records
  {
    if records != [] {
      var init, last := records[..|records| - 1], records[|records| - 1];
      if r.Err? && ReplaysAll(L, c, init, Err) {
        ReplaysAlike(L, holds, c, init, Err);
      } else {
        var before :| ReplaysAll(L, c, init, Ok(before)) && ReplaysRecord(L, before, last, r);
        ReplaysAlike(L, holds, c, init, Ok(before));
        assert ReplaysRecord(With(L, holds), before, last, r);
      }
    }
  }

  lemma OpensAlike<T(!new), M, S(!new), Q(!new), A>(L: Language<T, M, S, Q, A>, holds: M -> bool, disk: Disk<T, S>, r: Result<Catalog<T>>)
    requires Lawful(With(L, holds)) && (disk.snapshot.Some? ==> With(L, holds).valid(disk.snapshot.value.tables))
    requires Opens(L, disk, r)
    ensures Opens(With(L, holds), disk, r)
  {
    if !Unreadable(disk.wal.lines) {
      var c :| Loads(L, disk, c) && ReplaysAll(L, c, Readable(disk.wal.lines), r);
      SameWith(L, holds, if disk.snapshot.Some? then disk.snapshot.value.tables else L.empty, c.tables);
      assert Loads(With(L, holds), disk, c);
      ReplaysAlike(L, holds, c, Readable(disk.wal.lines), r);
    }
  }

  lemma OpenStepWith<T(!new), M, S(!new), Q(!new), A>(L: Language<T, M, S, Q, A>, holds: M -> bool, a: System<T, S, Q, A>, b: System<T, S, Q, A>)
    requires Lawful(With(L, holds)) && Consistent(With(L, holds), a) && OpenStep(L, a, b)
    ensures OpenStep(With(L, holds), a, b)
  {
    var c, t :| Opens(L, a.disk, Ok(c)) && Same(L, c.tables, t)
                && b == Up(Server(c.(tables := t), a.disk), map[], if c.version <= |a.history| then a.history[..c.version] else [], c.version, [t]);
    OpensAlike(L, holds, a.disk, Ok(c));
    OpenReaches(With(L, holds), a.disk, a.history, c);
    SameWith(L, holds, c.tables, t);
  }

  lemma CommitStepWith<T(!new), M, S(!new), Q(!new), A>(L: Language<T, M, S, Q, A>, holds: M -> bool, a: System<T, S, Q, A>, id: nat, b: System<T, S, Q, A>)
    requires Consistent(With(L, holds), a) && CommitStep(L, a, id, b)
    ensures CommitStep(With(L, holds), a, id, b)
  {
    var x := a.sessions[id];
    assert SessionOk(With(L, holds), x, a.start, a.versions);
    if CanCommit(a, id) {
      var t :| Same(L, x.catalog.tables, t) && b == Committed(a.(sessions := a.sessions - {id}), x.statements, x.schemaChanged, t);
      SameWith(L, holds, x.catalog.tables, t);
    }
  }

  lemma AutocommitStepWith<T(!new), M, S(!new), Q(!new), A>(L: Language<T, M, S, Q, A>, holds: M -> bool, a: System<T, S, Q, A>, s: S, b: System<T, S, Q, A>)
    requires Lawful(L) && Keeps(L, holds) && Consistent(With(L, holds), a) && AutocommitStep(L, a, s, b)
    ensures AutocommitStep(With(L, holds), a, s, b)
  {
    var r :| L.runs(a.server.catalog.tables, s, r)
             && if r.Err? then b == a else exists t :: Same(L, r.value, t) && b == Committed(a, [s], L.isSchema(s), t);
    if r.Ok? {
      var t :| Same(L, r.value, t) && b == Committed(a, [s], L.isSchema(s), t);
      assert L.runs(a.server.catalog.tables, s, Ok(r.value));
      SameWith(L, holds, r.value, t);
    }
  }

  lemma ExecuteStepWith<T(!new), M, S(!new), Q(!new), A>(L: Language<T, M, S, Q, A>, holds: M -> bool, a: System<T, S, Q, A>, id: nat, s: S, b: System<T, S, Q, A>)
    requires ExecuteStep(L, a, id, s, b)
    ensures ExecuteStep(With(L, holds), a, id, s, b)
  {
    var r :| L.runs(a.sessions[id].catalog.tables, s, r)
             && b == if r.Err? then a else a.(sessions := a.sessions[id := Ran(a.sessions[id], s, L.isSchema(s), r.value)]);
    assert With(L, holds).runs(a.sessions[id].catalog.tables, s, r);
  }

  lemma StepWith<T(!new), M, S(!new), Q(!new), A>(L: Language<T, M, S, Q, A>, holds: M -> bool, a: System<T, S, Q, A>, action: Action<S, Q>, b: System<T, S, Q, A>)
    requires Lawful(L) && Keeps(L, holds) && Lawful(With(L, holds)) && Consistent(With(L, holds), a) && Step(L, a, action, b)
    ensures Step(With(L, holds), a, action, b)
  {
    match action
    case Execute(id, s) => ExecuteStepWith(L, holds, a, id, s, b);
    case Commit(id) => CommitStepWith(L, holds, a, id, b);
    case Autocommit(s) => AutocommitStepWith(L, holds, a, s, b);
    case Open => OpenStepWith(L, holds, a, b);
    case FailToOpen => OpensAlike(L, holds, a.disk, Err);
    case _ =>
  }

  lemma {:induction false} RunWith<T(!new), M, S(!new), Q(!new), A>(L: Language<T, M, S, Q, A>, holds: M -> bool, states: seq<System<T, S, Q, A>>, actions: seq<Action<S, Q>>, n: nat)
    requires Lawful(L) && Keeps(L, holds) && IsRun(L, states, actions) && n <= |actions|
    ensures IsRun(With(L, holds), states[..n + 1], actions[..n])
    decreases n
  {
    if n > 0 {
      RunWith(L, holds, states, actions, n - 1);
      WithIsLawful(L, holds);
      RunsAreSerial(With(L, holds), states[..n], actions[..n - 1], n - 1);
      assert Step(L, states[n - 1], actions[n - 1], states[n]);
      StepWith(L, holds, states[n - 1], actions[n - 1], states[n]);
      OneMoreStep(With(L, holds), states, actions, n - 1);
    }
  }

  lemma OneMoreStep<T(!new), M, S(!new), Q(!new), A>(L: Language<T, M, S, Q, A>, states: seq<System<T, S, Q, A>>, actions: seq<Action<S, Q>>, n: nat)
    requires |states| == |actions| + 1 && n < |actions| && IsRun(L, states[..n + 1], actions[..n])
    requires Step(L, states[n], actions[n], states[n + 1])
    ensures IsRun(L, states[..n + 2], actions[..n + 1])
  {
    var some, taken := states[..n + 2], actions[..n + 1];
    assert states[..n + 1][0] == some[0];
    forall i | 0 <= i < |taken| ensures Step(L, some[i], taken[i], some[i + 1]) {
      if i < n {
        assert Step(L, states[..n + 1][i], actions[..n][i], states[..n + 1][i + 1]);
      }
    }
  }

  /** Whatever every statement keeps, live and in replay, holds of every published catalog and of every catalog of
      an open transaction. */
  lemma HoldsInRuns<T(!new), M, S(!new), Q(!new), A>(L: Language<T, M, S, Q, A>, holds: M -> bool, states: seq<System<T, S, Q, A>>, actions: seq<Action<S, Q>>, n: nat)
    requires Lawful(L) && Keeps(L, holds) && IsRun(L, states, actions) && n < |states| && states[n].Up?
    ensures holds(L.meaning(states[n].server.catalog.tables))
    ensures forall id :: id in states[n].sessions ==> holds(L.meaning(states[n].sessions[id].catalog.tables))
  {
    RunWith(L, holds, states, actions, n);
    WithIsLawful(L, holds);
    CatalogsStayValid(With(L, holds), states[..n + 1], actions[..n], n);
  }
}
