/** When a database opens: replay runs each logged statement as it was written, and that succeeds exactly when
    no statement fails, so written, on the tables where it had been accepted (src/sql/database.rs). */
module Replays {
  import opened Wrappers
  import opened Wal
  import opened Transactions
  import opened Serializability

  /** Replay can fail on these tables, in whatever store they are. */
  ghost predicate FailsAsWritten<T(!new), M, S(!new), Q(!new), A>(L: Language<T, M, S, Q, A>, t: T, s: S) {
    exists u :: Same(L, t, u) && L.replays(u, s, Err)
  }

  /** Stores of the same tables agree on a statement: replay has an outcome, it fails on all of them or on
      none, and when it succeeds it does what live execution did. */
  ghost predicate Judged<T(!new), M, S(!new), Q(!new), A>(L: Language<T, M, S, Q, A>, t: T, s: S, next: T) {
    && (forall u :: Same(L, t, u) ==> exists r :: L.replays(u, s, r))
    && (forall u, r :: Same(L, t, u) && L.replays(u, s, r) ==>
          (r.Err? <==> FailsAsWritten(L, t, s)) && (r.Ok? ==> Same(L, next, r.value)))
  }

  /** One verdict for all stores of the tables. */
  lemma JudgedByVerdict<T(!new), M, S(!new), Q(!new), A>(L: Language<T, M, S, Q, A>, t: T, s: S, next: T, fails: bool)
    requires L.valid(t) && forall u :: Same(L, t, u) ==> exists r :: L.replays(u, s, r)
    requires forall u, r :: Same(L, t, u) && L.replays(u, s, r) ==> (r.Err? <==> fails) && (r.Ok? ==> Same(L, next, r.value))
    ensures Judged(L, t, s, next) && (FailsAsWritten(L, t, s) <==> fails)
  {
    assert Same(L, t, t);
  }

  /** The tables on which each statement of a record was accepted, and that it left. */
  ghost predicate AcceptedOn<T(!new), M, S(!new), Q(!new), A>(L: Language<T, M, S, Q, A>, statements: seq<S>, trail: seq<T>) {
    Trail(L.runs, trail, statements)
    && forall k :: 0 <= k < |statements| ==> Judged(L, trail[k], statements[k], trail[k + 1])
  }

  ghost predicate Fails<T(!new), M, S(!new), Q(!new), A>(L: Language<T, M, S, Q, A>, statements: seq<S>, trail: seq<T>)
    requires |trail| == |statements| + 1
  {
    exists k :: 0 <= k < |statements| && FailsAsWritten(L, trail[k], statements[k])
  }

  // ------------------------------------------------------------------ one record

  lemma {:induction false} StatementsDecided<T(!new), M, S(!new), Q(!new), A>(L: Language<T, M, S, Q, A>, u: T, statements: seq<S>, trail: seq<T>, r: Result<T>)
    requires AcceptedOn(L, statements, trail) && Same(L, trail[0], u) && RunsAll(L.replays, u, statements, r)
    ensures r.Err? <==> Fails(L, statements, trail)
    ensures r.Ok? ==> Same(L, trail[|statements|], r.value)
    decreases statements
  {
    if statements != [] {
      var n := |statements| - 1;
      FewerAccepted(L, statements, trail);
      if r.Err? && RunsAll(L.replays, u, statements[..n], Err) {
        StatementsDecided(L, u, statements[..n], trail[..n + 1], Err);
        FailsNext(L, statements, trail);
      } else {
        var before :| RunsAll(L.replays, u, statements[..n], Ok(before)) && L.replays(before, statements[n], r);
        StatementsDecided(L, u, statements[..n], trail[..n + 1], Ok(before));
        FailsNext(L, statements, trail);
        assert Judged(L, trail[n], statements[n], trail[n + 1]) && Same(L, trail[n], before);
      }
    }
  }

  lemma FewerAccepted<T(!new), M, S(!new), Q(!new), A>(L: Language<T, M, S, Q, A>, statements: seq<S>, trail: seq<T>)
    requires AcceptedOn(L, statements, trail) && statements != []
    ensures AcceptedOn(L, statements[..|statements| - 1], trail[..|statements|])
  {
    var n := |statements| - 1;
    forall k | 0 <= k < n
      ensures L.runs(trail[..n + 1][k], statements[..n][k], Ok(trail[..n + 1][k + 1]))
      ensures Judged(L, trail[..n + 1][k], statements[..n][k], trail[..n + 1][k + 1])
    {
      assert L.runs(trail[k], statements[k], Ok(trail[k + 1])) && Judged(L, trail[k], statements[k], trail[k + 1]);
    }
  }

  lemma FailsNext<T(!new), M, S(!new), Q(!new), A>(L: Language<T, M, S, Q, A>, statements: seq<S>, trail: seq<T>)
    requires |trail| == |statements| + 1 && statements != []
    ensures var n := |statements| - 1;
            Fails(L, statements, trail) <==> Fails(L, statements[..n], trail[..n + 1]) || FailsAsWritten(L, trail[n], statements[n])
  {
    var n := |statements| - 1;
    forall k | 0 <= k < n ensures trail[..n + 1][k] == trail[k] && statements[..n][k] == statements[k] {
    }
    if Fails(L, statements, trail) && !FailsAsWritten(L, trail[n], statements[n]) {
      var k :| 0 <= k < |statements| && FailsAsWritten(L, trail[k], statements[k]);
      assert FailsAsWritten(L, trail[..n + 1][k], statements[..n][k]);
    }
    if Fails(L, statements[..n], trail[..n + 1]) {
      var k :| 0 <= k < n && FailsAsWritten(L, trail[..n + 1][k], statements[..n][k]);
      assert FailsAsWritten(L, trail[k], statements[k]);
    }
  }

  /** Replaying the statements comes to some end. */
  lemma {:induction false} StatementsEnd<T(!new), M, S(!new), Q(!new), A>(L: Language<T, M, S, Q, A>, u: T, statements: seq<S>, trail: seq<T>) returns (r: Result<T>)
    requires AcceptedOn(L, statements, trail) && Same(L, trail[0], u)
    ensures RunsAll(L.replays, u, statements, r)
    decreases statements
  {
    if statements == [] {
      r := Ok(u);
    } else {
      var n := |statements| - 1;
      FewerAccepted(L, statements, trail);
      var before := StatementsEnd(L, u, statements[..n], trail[..n + 1]);
      if before.Err? {
        r := Err;
      } else {
        StatementsDecided(L, u, statements[..n], trail[..n + 1], before);
        assert Judged(L, trail[n], statements[n], trail[n + 1]) && Same(L, trail[n], before.value);
        r :| L.replays(before.value, statements[n], r);
      }
    }
  }

  // ------------------------------------------------------------------------ the log

  /** Each record follows the snapshot or the record before, in versions and in tables. */
  ghost predicate Accepted<T(!new), M, S(!new), Q(!new), A>(L: Language<T, M, S, Q, A>, start: T, v: nat, records: seq<Record<S>>, trails: seq<seq<T>>) {
    && |trails| == |records|
    && (forall i :: 0 <= i < |records| ==>
          records[i].base == v + i && records[i].commit == v + i + 1 && AcceptedOn(L, records[i].statements, trails[i]))
    && (forall i :: 0 <= i < |records| ==> Same(L, TablesAt(start, records, trails, i), trails[i][0]) && Same(L, trails[i][0], TablesAt(start, records, trails, i)))
  }

  /** The tables before record i. */
  function TablesAt<T, S>(start: T, records: seq<Record<S>>, trails: seq<seq<T>>, i: nat): T
    requires |trails| == |records| && i <= |records|
  {
    if i == 0 || trails[i - 1] == [] then start else trails[i - 1][|trails[i - 1]| - 1]
  }

  ghost predicate SomeFails<T(!new), M, S(!new), Q(!new), A>(L: Language<T, M, S, Q, A>, records: seq<Record<S>>, trails: seq<seq<T>>, n: nat)
    requires n <= |records| == |trails| && forall i :: 0 <= i < |records| ==> |trails[i]| == |records[i].statements| + 1
  {
    exists i :: 0 <= i < n && Fails(L, records[i].statements, trails[i])
  }

  lemma SameThrough<T(!new), M, S(!new), Q(!new), A>(L: Language<T, M, S, Q, A>, a: T, b: T, c: T)
    requires Same(L, a, b) && Same(L, a, c)
    ensures Same(L, b, c)
  {
  }

  /** A record of the log, replayed on the tables before it. */
  lemma RecordDecided<T(!new), M, S(!new), Q(!new), A>(L: Language<T, M, S, Q, A>, c: Catalog<T>, record: Record<S>, trail: seq<T>, r: Result<Catalog<T>>)
    requires record.base == c.version && record.commit == c.version + 1
    requires AcceptedOn(L, record.statements, trail) && Same(L, trail[0], c.tables) && ReplaysRecord(L, c, record, r)
    ensures r.Err? <==> Fails(L, record.statements, trail)
    ensures r.Ok? ==> r.value.version == record.commit && Same(L, trail[|record.statements|], r.value.tables)
  {
    var t :| RunsAll(L.replays, c.tables, record.statements, t)
             && r == if t.Err? then Err
                     else Ok(Catalog(record.commit, c.schemaVersion + CountSchema(L.isSchema, record.statements), t.value));
    StatementsDecided(L, c.tables, record.statements, trail, t);
  }

  lemma SomeFailsNext<T(!new), M, S(!new), Q(!new), A>(L: Language<T, M, S, Q, A>, records: seq<Record<S>>, trails: seq<seq<T>>, n: nat)
    requires n < |records| == |trails| && forall i :: 0 <= i < |records| ==> |trails[i]| == |records[i].statements| + 1
    ensures SomeFails(L, records, trails, n + 1) <==> SomeFails(L, records, trails, n) || Fails(L, records[n].statements, trails[n])
  {
  }

  lemma NextRecordDecided<T(!new), M, S(!new), Q(!new), A>(L: Language<T, M, S, Q, A>, v: nat, start: T, records: seq<Record<S>>, trails: seq<seq<T>>, n: nat, before: Catalog<T>, r: Result<Catalog<T>>)
    requires n < |records| && Accepted(L, start, v, records, trails)
    requires before.version == v + n && Same(L, TablesAt(start, records, trails, n), before.tables) && ReplaysRecord(L, before, records[n], r)
    ensures r.Err? <==> Fails(L, records[n].statements, trails[n])
    ensures r.Ok? ==> r.value.version == v + n + 1 && Same(L, TablesAt(start, records, trails, n + 1), r.value.tables)
  {
    SameThrough(L, TablesAt(start, records, trails, n), trails[n][0], before.tables);
    RecordDecided(L, before, records[n], trails[n], r);
  }

  lemma {:induction false} LogDecided<T(!new), M, S(!new), Q(!new), A>(L: Language<T, M, S, Q, A>, c: Catalog<T>, start: T, records: seq<Record<S>>, trails: seq<seq<T>>, n: nat, r: Result<Catalog<T>>)
    requires n <= |records| && Accepted(L, start, c.version, records, trails) && Same(L, start, c.tables)
    requires ReplaysAll(L, c, records[..n], r)
    ensures r.Err? <==> SomeFails(L, records, trails, n)
    ensures r.Ok? ==> r.value.version == c.version + n && Same(L, TablesAt(start, records, trails, n), r.value.tables)
    decreases n
  {
    if n > 0 {
      var last := n - 1;
      ReplaysCases(L, c, records, last, r);
      SomeFailsNext(L, records, trails, last);
      if r.Err? && ReplaysAll(L, c, records[..last], Err) {
        LogDecided(L, c, start, records, trails, last, Err);
      } else {
        var before :| ReplaysAll(L, c, records[..last], Ok(before)) && ReplaysRecord(L, before, records[last], r);
        LogDecided(L, c, start, records, trails, last, Ok(before));
        NextRecordDecided(L, c.version, start, records, trails, last, before, r);
      }
    }
  }

  lemma {:induction false} LogEnds<T(!new), M, S(!new), Q(!new), A>(L: Language<T, M, S, Q, A>, c: Catalog<T>, start: T, records: seq<Record<S>>, trails: seq<seq<T>>, n: nat) returns (r: Result<Catalog<T>>)
    requires n <= |records| && Accepted(L, start, c.version, records, trails) && Same(L, start, c.tables)
    ensures ReplaysAll(L, c, records[..n], r)
    decreases n
  {
    if n == 0 {
      r := Ok(c);
    } else {
      var last := n - 1;
      assert records[..n][..last] == records[..last] && records[..n][last] == records[last];
      var before := LogEnds(L, c, start, records, trails, last);
      if before.Err? {
        r := Err;
      } else {
        LogDecided(L, c, start, records, trails, last, before);
        SameThrough(L, TablesAt(start, records, trails, last), trails[last][0], before.value.tables);
        var t := StatementsEnd(L, before.value.tables, records[last].statements, trails[last]);
        r := if t.Err? then Err
             else Ok(Catalog(records[last].commit, before.value.schemaVersion + CountSchema(L.isSchema, records[last].statements), t.value));
        assert ReplaysRecord(L, before.value, records[last], r);
      }
    }
  }

  function StartOf<T, M, S, Q, A>(L: Language<T, M, S, Q, A>, disk: Disk<T, S>): T {
    if disk.snapshot.Some? then disk.snapshot.value.tables else L.empty
  }

  lemma OpensSomehow<T(!new), M, S(!new), Q(!new), A>(L: Language<T, M, S, Q, A>, disk: Disk<T, S>, records: seq<Record<S>>, trails: seq<seq<T>>) returns (r: Result<Catalog<T>>)
    requires Lawful(L) && records == Readable(disk.wal.lines) && !Unreadable(disk.wal.lines)
    requires disk.snapshot.Some? ==> L.valid(disk.snapshot.value.tables)
    requires Accepted(L, StartOf(L, disk), SnapshotVersion(disk), records, trails)
    ensures Opens(L, disk, r)
  {
    var start := StartOf(L, disk);
    var c0 := Catalog(SnapshotVersion(disk), if disk.snapshot.Some? then disk.snapshot.value.schemaVersion else 0, start);
    assert records[..|records|] == records && Loads(L, disk, c0);
    r := LogEnds(L, c0, start, records, trails, |records|);
  }

  lemma OpeningDecided<T(!new), M, S(!new), Q(!new), A>(L: Language<T, M, S, Q, A>, disk: Disk<T, S>, records: seq<Record<S>>, trails: seq<seq<T>>, r: Result<Catalog<T>>)
    requires Lawful(L) && records == Readable(disk.wal.lines) && !Unreadable(disk.wal.lines) && Opens(L, disk, r)
    requires disk.snapshot.Some? ==> L.valid(disk.snapshot.value.tables)
    requires Accepted(L, StartOf(L, disk), SnapshotVersion(disk), records, trails)
    ensures r.Err? <==> SomeFails(L, records, trails, |records|)
  {
    var c :| Loads(L, disk, c) && ReplaysAll(L, c, Readable(disk.wal.lines), r);
    assert records[..|records|] == records;
    LogDecided(L, c, StartOf(L, disk), records, trails, |records|, r);
  }

  /** A database opens if and only if reading its log gets to no line that is not text and no logged statement
      fails, as written, on the tables where it was accepted; otherwise opening it fails. */
  lemma OpensIffNothingFails<T(!new), M, S(!new), Q(!new), A>(L: Language<T, M, S, Q, A>, disk: Disk<T, S>, records: seq<Record<S>>, trails: seq<seq<T>>)
    requires Lawful(L) && records == Readable(disk.wal.lines)
    requires disk.snapshot.Some? ==> L.valid(disk.snapshot.value.tables)
    requires Accepted(L, StartOf(L, disk), SnapshotVersion(disk), records, trails)
    ensures (exists c :: Opens(L, disk, Ok(c))) <==> !Unreadable(disk.wal.lines) && !SomeFails(L, records, trails, |records|)
    ensures Opens(L, disk, Err) <==> Unreadable(disk.wal.lines) || SomeFails(L, records, trails, |records|)
  {
    if !Unreadable(disk.wal.lines) {
      var some := OpensSomehow(L, disk, records, trails);
      forall r | Opens(L, disk, r) ensures r.Err? <==> SomeFails(L, records, trails, |records|) {
        OpeningDecided(L, disk, records, trails, r);
      }
    }
  }

  // ---------------------------------------------------- statements with a verdict of their own

  /** A verdict that decides replay on valid tables for the statements it is about. */
  ghost predicate Decides<T(!new), M, S(!new), Q(!new), A>(L: Language<T, M, S, Q, A>, about: (T, S, T) -> bool, fails: (T, S) -> bool) {
    forall t, s, next :: L.valid(t) && about(t, s, next) ==> Judged(L, t, s, next) && (FailsAsWritten(L, t, s) <==> fails(t, s))
  }

  /** A log of such statements, each record after the snapshot or the record before. */
  ghost predicate LoggedAs<T(!new), M, S(!new), Q(!new), A>(L: Language<T, M, S, Q, A>, about: (T, S, T) -> bool, start: T, v: nat, records: seq<Record<S>>, trails: seq<seq<T>>) {
    && |trails| == |records|
    && (forall i :: 0 <= i < |records| ==>
          records[i].base == v + i && records[i].commit == v + i + 1 && RanAs(L, about, records[i].statements, trails[i]))
    && (forall i :: 0 <= i < |records| ==> Same(L, TablesAt(start, records, trails, i), trails[i][0]) && Same(L, trails[i][0], TablesAt(start, records, trails, i)))
  }

  ghost predicate RanAs<T(!new), M, S(!new), Q(!new), A>(L: Language<T, M, S, Q, A>, about: (T, S, T) -> bool, statements: seq<S>, trail: seq<T>) {
    Trail(L.runs, trail, statements)
    && forall k :: 0 <= k < |statements| ==> L.valid(trail[k]) && about(trail[k], statements[k], trail[k + 1])
  }

  ghost predicate SomeVerdict<T, S>(fails: (T, S) -> bool, records: seq<Record<S>>, trails: seq<seq<T>>)
    requires |records| == |trails| && forall i :: 0 <= i < |records| ==> |trails[i]| == |records[i].statements| + 1
  {
    exists i, k :: 0 <= i < |records| && 0 <= k < |records[i].statements| && fails(trails[i][k], records[i].statements[k])
  }

  lemma LoggedIsAccepted<T(!new), M, S(!new), Q(!new), A>(L: Language<T, M, S, Q, A>, about: (T, S, T) -> bool, fails: (T, S) -> bool, start: T, v: nat, records: seq<Record<S>>, trails: seq<seq<T>>)
    requires Decides(L, about, fails) && LoggedAs(L, about, start, v, records, trails)
    ensures Accepted(L, start, v, records, trails)
    ensures SomeFails(L, records, trails, |records|) <==> SomeVerdict(fails, records, trails)
  {
    forall i, k | 0 <= i < |records| && 0 <= k < |records[i].statements|
      ensures Judged(L, trails[i][k], records[i].statements[k], trails[i][k + 1])
      ensures FailsAsWritten(L, trails[i][k], records[i].statements[k]) <==> fails(trails[i][k], records[i].statements[k])
    {
      assert RanAs(L, about, records[i].statements, trails[i]);
      assert L.valid(trails[i][k]) && about(trails[i][k], records[i].statements[k], trails[i][k + 1]);
    }
    forall i | 0 <= i < |records| ensures AcceptedOn(L, records[i].statements, trails[i]) {
      assert RanAs(L, about, records[i].statements, trails[i]);
    }
    if SomeFails(L, records, trails, |records|) {
      var i :| 0 <= i < |records| && Fails(L, records[i].statements, trails[i]);
      var k :| 0 <= k < |records[i].statements| && FailsAsWritten(L, trails[i][k], records[i].statements[k]);
      assert fails(trails[i][k], records[i].statements[k]);
    }
    if SomeVerdict(fails, records, trails) {
      var i, k :| 0 <= i < |records| && 0 <= k < |records[i].statements| && fails(trails[i][k], records[i].statements[k]);
      assert FailsAsWritten(L, trails[i][k], records[i].statements[k]);
      assert Fails(L, records[i].statements, trails[i]);
    }
  }

  /** Opening such a log succeeds if and only if reading it gets to no line that is not text and the verdict on no
      logged statement is failure. */
  lemma OpensIffNoVerdict<T(!new), M, S(!new), Q(!new), A>(L: Language<T, M, S, Q, A>, about: (T, S, T) -> bool, fails: (T, S) -> bool, disk: Disk<T, S>, records: seq<Record<S>>, trails: seq<seq<T>>)
    requires Lawful(L) && Decides(L, about, fails) && records == Readable(disk.wal.lines)
    requires disk.snapshot.Some? ==> L.valid(disk.snapshot.value.tables)
    requires LoggedAs(L, about, StartOf(L, disk), SnapshotVersion(disk), records, trails)
    ensures (exists c :: Opens(L, disk, Ok(c))) <==> !Unreadable(disk.wal.lines) && !SomeVerdict(fails, records, trails)
    ensures Opens(L, disk, Err) <==> Unreadable(disk.wal.lines) || SomeVerdict(fails, records, trails)
  {
    LoggedIsAccepted(L, about, fails, StartOf(L, disk), SnapshotVersion(disk), records, trails);
    OpensIffNothingFails(L, disk, records, trails);
  }
}
