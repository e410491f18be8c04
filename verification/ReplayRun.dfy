/** A whole run after which the database cannot be opened: create a table and an index, insert a row, save,
    delete by a condition that only the optimizer makes harmless, crash (src/sql/database.rs). */
module ReplayRun {
  import opened Wrappers
  import opened Wal
  import opened Transactions
  import opened Serializability
  import opened Durability
  import opened Replays

  // ------------------------------------------------------- the run, in any language

  /** Open, three autocommits, a checkpoint, one more autocommit, and a crash. */
  function Actions<S, Q>(s: seq<S>): seq<Action<S, Q>>
    requires |s| == 4
  {
    [Open, Autocommit(s[0]), Autocommit(s[1]), Autocommit(s[2]), Checkpoint, Autocommit(s[3]), Crash]
  }

  /** A database with nothing but its last tables in the snapshot and one record in the log. */
  ghost predicate LeavesOneRecord<T(!new), M, S(!new), Q(!new), A>(L: Language<T, M, S, Q, A>, a: System<T, S, Q, A>, t: T, s: S) {
    && a.Down? && a.acknowledged == 4
    && a.disk.snapshot.Some? && a.disk.snapshot.value.version == 3 && a.disk.snapshot.value.tables == t
    && a.disk.wal == Wal([Whole(Record(3, 4, [s]))], false)
  }

  lemma AutocommitTo<T(!new), M, S(!new), Q(!new), A>(L: Language<T, M, S, Q, A>, a: System<T, S, Q, A>, s: S, t: T) returns (b: System<T, S, Q, A>)
    requires a.Up? && L.runs(a.server.catalog.tables, s, Ok(t)) && L.valid(t)
    ensures Step(L, a, Autocommit(s), b) && b == Committed(a, [s], L.isSchema(s), t)
  {
    b := Committed(a, [s], L.isSchema(s), t);
    var r := Ok(t);
    assert L.runs(a.server.catalog.tables, s, r) && Same(L, r.value, t);
  }

  lemma OpenEmpty<T(!new), M, S(!new), Q(!new), A>(L: Language<T, M, S, Q, A>, a: System<T, S, Q, A>) returns (b: System<T, S, Q, A>)
    requires L.valid(L.empty) && a == Initial()
    ensures Step(L, a, Open, b) && b.Up? && b.server.catalog == Catalog(0, 0, L.empty) && b.server.disk == a.disk && b.history == []
  {
    var c := Catalog(0, 0, L.empty);
    assert Loads(L, a.disk, c) && ReplaysAll(L, c, [], Ok(c));
    assert Opens(L, a.disk, Ok(c)) && Same(L, c.tables, L.empty);
    b := Up(Server(c.(tables := L.empty), a.disk), map[], a.history[..0], 0, [L.empty]);
  }

  /** Three autocommits on an empty database. */
  lemma ThreeCommits<T(!new), M, S(!new), Q(!new), A>(L: Language<T, M, S, Q, A>, s: seq<S>, t: seq<T>) returns (states: seq<System<T, S, Q, A>>)
    requires L.valid(L.empty) && |s| == |t| == 4
    requires L.runs(L.empty, s[0], Ok(t[0])) && L.runs(t[0], s[1], Ok(t[1])) && L.runs(t[1], s[2], Ok(t[2]))
    requires L.valid(t[0]) && L.valid(t[1]) && L.valid(t[2])
    ensures |states| == 5 && states[0] == Initial()
    ensures forall i :: 0 <= i < 4 ==> Step(L, states[i], Actions<S, Q>(s)[i], states[i + 1])
    ensures states[4].Up? && states[4].server.catalog.version == |states[4].history| == 3 && states[4].server.catalog.tables == t[2]
  {
    var a0: System<T, S, Q, A> := Initial();
    var a1 := OpenEmpty(L, a0);
    var a2 := AutocommitTo(L, a1, s[0], t[0]);
    var a3 := AutocommitTo(L, a2, s[1], t[1]);
    var a4 := AutocommitTo(L, a3, s[2], t[2]);
    states := [a0, a1, a2, a3, a4];
  }

  /** A checkpoint, one more commit, and a crash. */
  lemma OneMore<T(!new), M, S(!new), Q(!new), A>(L: Language<T, M, S, Q, A>, a: System<T, S, Q, A>, s: S, t: T, next: T) returns (states: seq<System<T, S, Q, A>>)
    requires a.Up? && a.server.catalog.version == |a.history| == 3 && a.server.catalog.tables == t
    requires L.runs(t, s, Ok(next)) && L.valid(next)
    ensures |states| == 3 && Step(L, a, Checkpoint, states[0]) && Step(L, states[0], Autocommit(s), states[1]) && Step(L, states[1], Crash, states[2])
    ensures LeavesOneRecord(L, states[2], t, s) && states[1].Up? && Clean(states[1].server.disk.wal)
  {
    var saved := a.(server := Saved(a.server));
    var committed := AutocommitTo(L, saved, s, next);
    assert committed.server.disk.wal.lines == [] + [Whole(Record(3, 4, [s]))];
    states := [saved, committed, Down(committed.server.disk, |committed.history|, committed.history)];
  }

  /** Statements that run one after the other make such a run. */
  lemma RunOf<T(!new), M, S(!new), Q(!new), A>(L: Language<T, M, S, Q, A>, s: seq<S>, t: seq<T>) returns (states: seq<System<T, S, Q, A>>)
    requires L.valid(L.empty) && |s| == |t| == 4
    requires L.runs(L.empty, s[0], Ok(t[0])) && L.runs(t[0], s[1], Ok(t[1])) && L.runs(t[1], s[2], Ok(t[2])) && L.runs(t[2], s[3], Ok(t[3]))
    requires forall i :: 0 <= i < 4 ==> L.valid(t[i])
    ensures IsRun(L, states, Actions(s)) && LeavesOneRecord(L, states[7], t[2], s[3])
    ensures states[6].Up? && Clean(states[6].server.disk.wal)
  {
    var first := ThreeCommits(L, s, t);
    var last := OneMore(L, first[4], s[3], t[2], t[3]);
    Joined(L, first, last, Actions<S, Q>(s));
    states := first + last;
  }

  lemma Joined<T(!new), M, S(!new), Q(!new), A>(L: Language<T, M, S, Q, A>, first: seq<System<T, S, Q, A>>, last: seq<System<T, S, Q, A>>, actions: seq<Action<S, Q>>)
    requires |first| == 5 && |last| == 3 && |actions| == 7 && first[0] == Initial()
    requires forall i :: 0 <= i < 4 ==> Step(L, first[i], actions[i], first[i + 1])
    requires Step(L, first[4], actions[4], last[0]) && Step(L, last[0], actions[5], last[1]) && Step(L, last[1], actions[6], last[2])
    ensures IsRun(L, first + last, actions)
  {
    var states := first + last;
    forall i | 0 <= i < |actions| ensures Step(L, states[i], actions[i], states[i + 1]) {
      if i < 4 {
        assert states[i] == first[i] && states[i + 1] == first[i + 1];
      } else if i == 4 {
        assert states[4] == first[4] && states[5] == last[0];
      } else {
        assert states[i] == last[i - 5] && states[i + 1] == last[i - 4];
      }
    }
  }

  /** The last statement is accepted on the tables of the snapshot, and every replay of it fails there. */
  lemma OneRecordNeverOpens<T(!new), M, S(!new), Q(!new), A>(L: Language<T, M, S, Q, A>, a: System<T, S, Q, A>, t: T, s: S, next: T)
    requires Lawful(L) && LeavesOneRecord(L, a, t, s) && L.valid(t)
    requires L.runs(t, s, Ok(next)) && forall u :: Same(L, t, u) ==> L.replays(u, s, Err) && forall r :: L.replays(u, s, r) ==> r.Err?
    ensures forall b :: !Step(L, a, Open, b)
    ensures Step(L, a, FailToOpen, a)
  {
    var records, trail := [Record(3, 4, [s])], [t, next];
    assert a.disk.wal.lines[1..] == [];
    assert Readable(a.disk.wal.lines) == [Record(3, 4, [s])] + [];
    assert Same(L, t, t) && FailsAsWritten(L, t, s);
    assert Judged(L, t, s, next);
    assert AcceptedOn(L, [s], trail);
    assert Fails(L, [s], trail) by {
      assert FailsAsWritten(L, trail[0], [s][0]);
    }
    assert Accepted(L, t, 3, records, [trail]);
    OpensIffNothingFails(L, a.disk, records, [trail]);
    assert SomeFails(L, records, [trail], 1);
  }

  /** A run of acknowledged commits and one crash on a clean log, after which only failing to open is left. */
  ghost predicate EndsUnopenable<T(!new), M, S(!new), Q(!new), A(!new)>(L: Language<T, M, S, Q, A>, states: seq<System<T, S, Q, A>>, actions: seq<Action<S, Q>>) {
    && IsRun(L, states, actions) && |states| == 8 && states[7].Down? && states[7].acknowledged == 4
    && states[6].Up? && Clean(states[6].server.disk.wal)
    && (forall b :: !Step(L, states[7], Open, b))
    && Step(L, states[7], FailToOpen, states[7])
  }

  /** Four statements that run one after the other on an empty database, the last of which cannot be replayed. */
  ghost predicate Unreplayable<T(!new), M, S(!new), Q(!new), A>(L: Language<T, M, S, Q, A>, s: seq<S>, t: seq<T>) {
    && |s| == |t| == 4 && (forall i :: 0 <= i < 4 ==> L.valid(t[i]))
    && L.runs(L.empty, s[0], Ok(t[0])) && L.runs(t[0], s[1], Ok(t[1])) && L.runs(t[1], s[2], Ok(t[2])) && L.runs(t[2], s[3], Ok(t[3]))
    && forall u :: Same(L, t[2], u) ==> L.replays(u, s[3], Err) && forall r :: L.replays(u, s[3], r) ==> r.Err?
  }

  lemma UnopenableRun<T(!new), M, S(!new), Q(!new), A(!new)>(L: Language<T, M, S, Q, A>, s: seq<S>, t: seq<T>) returns (states: seq<System<T, S, Q, A>>, actions: seq<Action<S, Q>>)
    requires Lawful(L) && Unreplayable(L, s, t)
    ensures EndsUnopenable(L, states, actions)
  {
    states := RunOf(L, s, t);
    actions := Actions<S, Q>(s);
    OneRecordNeverOpens(L, states[7], t[2], s[3], t[3]);
  }

  // ------------------------------------------------- a run that ends within a character

  /** A commit is acknowledged and saved, and a crash tears the record of the next one within a character: all
      that is left is to fail to open. */
  ghost predicate EndsTorn<T(!new), M, S(!new), Q(!new), A(!new)>(L: Language<T, M, S, Q, A>, states: seq<System<T, S, Q, A>>, actions: seq<Action<S, Q>>) {
    && IsRun(L, states, actions) && |states| == 5 && CutsText(actions[3]) && states[4].Down? && states[4].acknowledged == 1
    && states[3].Up? && Clean(states[3].server.disk.wal)
    && (forall b :: !Step(L, states[4], Open, b))
    && Step(L, states[4], FailToOpen, states[4])
  }

  lemma TornRun<T(!new), M, S(!new), Q(!new), A(!new)>(L: Language<T, M, S, Q, A>, first: S, t: T, second: S, u: T)
    returns (states: seq<System<T, S, Q, A>>, actions: seq<Action<S, Q>>)
    requires Lawful(L) && L.runs(L.empty, first, Ok(t)) && L.valid(t) && L.runs(t, second, Ok(u))
    ensures EndsTorn(L, states, actions)
  {
    var a0: System<T, S, Q, A> := Initial();
    var a1 := OpenEmpty(L, a0);
    var a2 := AutocommitTo(L, a1, first, t);
    var a3 := a2.(server := Saved(a2.server));
    var a4 := Interrupted(a3, [second], Partial(true));
    states, actions := [a0, a1, a2, a3, a4], [Open, Autocommit(first), Checkpoint, CrashInAutocommit(second, Partial(true))];
    assert Step(L, a3, actions[3], a4);
    assert IsRun(L, states, actions);
    CutIsFatal(L, states, actions, 3);
  }
}
