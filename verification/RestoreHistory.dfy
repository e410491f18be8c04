/** Point-in-time restore as a whole: from segments that hold records of one history, in any split, to the
    databases that the restored directory opens to (src/recovery.rs). */
module RestoreHistory {
  import opened Wrappers
  import opened Wal
  import opened Transactions
  import opened Durability
  import opened Restore

  // --------------------------------------------------------- records of one history

  /** What was committed, one entry a number from 1, and when. */
  datatype Past<P> = Past(payloads: seq<P>, times: seq<nat>)

  ghost predicate IsRecordOf<P>(e: Entry<P>, past: Past<P>) {
    && |past.times| == |past.payloads|
    && 0 < e.id <= |past.payloads|
    && e.base == e.id - 1 && e.payload == past.payloads[e.id - 1] && e.time == past.times[e.id - 1]
  }

  /** Whatever else the segments hold, their records are records of this past. */
  ghost predicate RecordsOf<P(!new)>(lines: seq<SegmentLine<P>>, past: Past<P>) {
    forall e :: Sound(e) in lines ==> IsRecordOf(e, past)
  }

  /** Number id is somewhere in the segments. */
  ghost predicate Holds<P(!new)>(lines: seq<SegmentLine<P>>, id: nat) {
    exists e :: Sound(e) in lines && e.id == id
  }

  lemma CollectedOf<P(!new)>(lines: seq<SegmentLine<P>>, past: Past<P>)
    requires RecordsOf(lines, past)
    ensures Chained(Collected(lines))
    ensures forall id :: id in Collected(lines) <==> Holds(lines, id)
    ensures forall id :: id in Collected(lines) ==> IsRecordOf(Collected(lines)[id], past) && Collected(lines)[id].id == id
  {
    CollectedAre(lines);
    forall id | Holds(lines, id) ensures id in Collected(lines) {
      var e :| Sound(e) in lines && e.id == id;
      var i :| 0 <= i < |lines| && lines[i] == Sound(e);
    }
    forall id | id in Collected(lines) ensures Holds(lines, id) && IsRecordOf(Collected(lines)[id], past) {
      assert Sound(Collected(lines)[id]) in lines;
    }
  }

  /** Segments of one past that hold the same numbers give the same records, however these are split, ordered
      or duplicated. */
  lemma SplitsDoNotMatter<P(!new)>(a: seq<SegmentLine<P>>, b: seq<SegmentLine<P>>, past: Past<P>)
    requires RecordsOf(a, past) && RecordsOf(b, past) && forall id :: Holds(a, id) <==> Holds(b, id)
    ensures Collected(a) == Collected(b)
  {
    CollectedOf(a, past);
    CollectedOf(b, past);
    forall id ensures (id in Collected(a) <==> id in Collected(b)) && (id in Collected(a) ==> Collected(a)[id] == Collected(b)[id]) {
      assert Holds(a, id) <==> Holds(b, id);
    }
  }

  // ------------------------------------------------------------------ what is reached

  /** The part of the past that a bound asks for, as far as the segments hold it. */
  ghost predicate EndsAt<P(!new)>(lines: seq<SegmentLine<P>>, past: Past<P>, base: nat, bound: Bound, end: nat)
    requires |past.times| == |past.payloads|
  {
    base <= end <= |past.payloads|
    && match bound
       case UpTo(limit) => end == limit
       case UntilTime(cutoff) =>
         && (forall k :: base <= k < end ==> past.times[k] <= cutoff)
         && (Holds(lines, end + 1) ==> end < |past.times| && past.times[end] > cutoff)
       case NoBound => forall id: nat :: Holds(lines, id) ==> id <= end
  }

  lemma WrittenAt<P>(records: Records<P>, base: nat, written: seq<Entry<P>>, i: nat)
    requires Consecutive(written, records, base) && i < |written|
    ensures base + i + 1 in records && records[base + i + 1] == written[i]
  {
    assert base + 1 + i in records;
  }

  lemma WrittenAreRecords<P(!new)>(lines: seq<SegmentLine<P>>, past: Past<P>, base: nat, written: seq<Entry<P>>)
    requires RecordsOf(lines, past) && Consecutive(written, Collected(lines), base)
    ensures forall i :: 0 <= i < |written| ==> IsRecordOf(written[i], past) && written[i].id == base + i + 1
  {
    CollectedOf(lines, past);
    var records := Collected(lines);
    forall i | 0 <= i < |written| ensures IsRecordOf(written[i], past) && written[i].id == base + i + 1 {
      WrittenAt(records, base, written, i);
    }
  }

  /** What a restore writes is the past from the base on. */
  lemma WrittenIsPast<P(!new)>(lines: seq<SegmentLine<P>>, past: Past<P>, base: nat, bound: Bound, written: seq<Entry<P>>, end: nat)
    requires RecordsOf(lines, past) && |past.times| == |past.payloads| && base <= |past.payloads|
    requires Reaches(Collected(lines), base, bound, written, end)
    ensures end == base + |written| && EndsAt(lines, past, base, bound, end)
    ensures forall i :: 0 <= i < |written| ==>
              written[i].id == base + i + 1 && written[i].base == base + i && written[i].payload == past.payloads[base + i]
  {
    WrittenAreRecords(lines, past, base, written);
    if |written| > 0 {
      assert IsRecordOf(written[|written| - 1], past);
    }
    CollectedOf(lines, past);
    if bound.UntilTime? {
      PrefixOfPast(lines, past, base, bound.cutoff, |written|);
    }
  }

  lemma PrefixOfPast<P(!new)>(lines: seq<SegmentLine<P>>, past: Past<P>, base: nat, cutoff: nat, n: nat)
    requires RecordsOf(lines, past) && |past.times| == |past.payloads| && base + n <= |past.payloads|
    requires LongestPrefix(Collected(lines), base, cutoff, n)
    ensures EndsAt(lines, past, base, UntilTime(cutoff), base + n)
  {
    var records := Collected(lines);
    CollectedOf(lines, past);
    forall k | base <= k < base + n ensures past.times[k] <= cutoff {
      assert k + 1 in records && records[k + 1].time <= cutoff;
    }
  }

  /** When the segments hold everything after the base, the end is that of the past itself: the requested
      number, the commit before the first one that is too late, or the last. */
  lemma EndIsExact<P(!new)>(lines: seq<SegmentLine<P>>, past: Past<P>, base: nat, bound: Bound, end: nat)
    requires |past.times| == |past.payloads| && EndsAt(lines, past, base, bound, end)
    requires forall id :: base < id <= |past.payloads| ==> Holds(lines, id)
    ensures bound.UntilTime? ==>
              (forall k :: base <= k < end ==> past.times[k] <= bound.cutoff) && (end < |past.times| ==> past.times[end] > bound.cutoff)
    ensures bound.NoBound? ==> end == |past.payloads|
  {
    assert end < |past.payloads| ==> Holds(lines, end + 1);
  }

  /** Restore to a point finds nothing missing exactly when the segments hold every number up to it. */
  lemma CompleteIffHeld<P(!new)>(lines: seq<SegmentLine<P>>, past: Past<P>, base: nat, limit: nat)
    requires RecordsOf(lines, past)
    ensures Complete(Collected(lines), base, limit) <==> forall id :: base < id <= limit ==> Holds(lines, id)
  {
    CollectedOf(lines, past);
  }

  /** Restore without a point finds no gap when the segments hold every number after the base. */
  lemma HeldHasNoGap<P(!new)>(lines: seq<SegmentLine<P>>, past: Past<P>, base: nat, bound: Bound)
    requires RecordsOf(lines, past) && forall id :: base < id <= |past.payloads| ==> Holds(lines, id)
    ensures NoGap(Collected(lines), base, bound)
  {
    var records := Collected(lines);
    CollectedOf(lines, past);
    forall id: nat, k: nat | Considered(records, base, bound, id) && base < k < id ensures Considered(records, base, bound, k) {
      assert IsRecordOf(records[id], past);
      assert Holds(lines, k);
    }
  }

  // ------------------------------------------------------------------------ the whole

  function BaseVersion<T>(snapshot: Option<Catalog<T>>): nat {
    if snapshot.Some? then snapshot.value.version else 0
  }

  lemma PartOfHistory<S>(written: seq<Entry<seq<S>>>, history: seq<seq<S>>, base: nat)
    requires base + |written| <= |history|
    requires forall i :: 0 <= i < |written| ==> written[i].id == base + i + 1 && written[i].base == base + i && written[i].payload == history[base + i]
    ensures FromHistory(written, history, base)
  {
  }

  lemma CommitsReached<T(!new), M, S(!new), Q(!new), A>(
    L: Language<T, M, S, Q, A>, snapshot: Option<Catalog<T>>, lines: seq<SegmentLine<seq<S>>>, bound: Bound,
    commits: Past<seq<S>>, written: seq<Entry<seq<S>>>, end: nat, r: Result<Catalog<T>>)
    requires Lawful(L) && Agrees(L) && DependableHistory(L, commits.payloads)
    requires |commits.times| == |commits.payloads| && RecordsOf(lines, commits)
    requires snapshot.Some? ==> L.valid(snapshot.value.tables)
    requires SnapshotMeans(L, Disk(snapshot, Wal([], false)), commits.payloads)
    requires BaseVersion(snapshot) <= |commits.payloads|
    requires Reaches(Collected(lines), BaseVersion(snapshot), bound, written, end)
    requires Opens(L, Disk(snapshot, Wal(SqlLines(written), false)), r)
    ensures EndsAt(lines, commits, BaseVersion(snapshot), bound, end)
    ensures r.Ok? && r.value.version == end && Outcome(L, commits.payloads, end) == Ok(L.meaning(r.value.tables))
  {
    WrittenIsPast(lines, commits, BaseVersion(snapshot), bound, written, end);
    PartOfHistory(written, commits.payloads, BaseVersion(snapshot));
    RestoredSqlOpens(L, snapshot, written, commits.payloads, r);
  }

  lemma OperationsReached(snapshot: K.KvSnapshot, lines: seq<SegmentLine<K.Operation>>, bound: Bound,
                          operations: Past<K.Operation>, written: seq<Entry<K.Operation>>, end: nat)
    requires |operations.times| == |operations.payloads| && RecordsOf(lines, operations)
    requires snapshot.sequence <= |operations.payloads|
    requires K.ApplyAll(map[], K.EntryOperations(snapshot.entries)) == K.ApplyAll(map[], operations.payloads[..snapshot.sequence])
    requires Reaches(Collected(lines), snapshot.sequence, bound, written, end)
    ensures EndsAt(lines, operations, snapshot.sequence, bound, end)
    ensures K.Recovered(K.KvDisk(Some(snapshot), Wal(KvLines(written), false), [])) == K.ApplyAll(map[], operations.payloads[..end])
  {
    WrittenIsPast(lines, operations, snapshot.sequence, bound, written, end);
    RestoredKvOpens(snapshot, written, operations.payloads);
  }

  /** A successful restore followed by opening: each engine holds exactly the first part of its history that
      ends where the target says. */
  lemma RestoreIsExact<T(!new), M, S(!new), Q(!new), A>(
    L: Language<T, M, S, Q, A>, snapshot: Option<Catalog<T>>, kvSnapshot: K.KvSnapshot,
    sqlSegments: seq<seq<SegmentLine<seq<S>>>>, kvSegments: seq<seq<SegmentLine<K.Operation>>>, target: Target,
    commits: Past<seq<S>>, operations: Past<K.Operation>, restored: Restored<S>, r: Result<Catalog<T>>)
    requires Lawful(L) && Agrees(L) && DependableHistory(L, commits.payloads)
    requires |commits.times| == |commits.payloads| && RecordsOf(AllLines(sqlSegments), commits)
    requires |operations.times| == |operations.payloads| && RecordsOf(AllLines(kvSegments), operations)
    requires snapshot.Some? ==> L.valid(snapshot.value.tables)
    requires SnapshotMeans(L, Disk(snapshot, Wal([], false)), commits.payloads)
    requires BaseVersion(snapshot) <= |commits.payloads| && kvSnapshot.sequence <= |operations.payloads|
    requires K.ApplyAll(map[], K.EntryOperations(kvSnapshot.entries)) == K.ApplyAll(map[], operations.payloads[..kvSnapshot.sequence])
    requires Reaches(Collected(AllLines(sqlSegments)), BaseVersion(snapshot), BoundFor(target, true), restored.sqlWal, restored.sql)
    requires Reaches(Collected(AllLines(kvSegments)), kvSnapshot.sequence, BoundFor(target, false), restored.kvWal, restored.kv)
    requires Opens(L, Disk(snapshot, Wal(SqlLines(restored.sqlWal), false)), r)
    ensures EndsAt(AllLines(sqlSegments), commits, BaseVersion(snapshot), BoundFor(target, true), restored.sql)
    ensures r.Ok? && r.value.version == restored.sql && Outcome(L, commits.payloads, restored.sql) == Ok(L.meaning(r.value.tables))
    ensures EndsAt(AllLines(kvSegments), operations, kvSnapshot.sequence, BoundFor(target, false), restored.kv)
    ensures K.Recovered(K.KvDisk(Some(kvSnapshot), Wal(KvLines(restored.kvWal), false), []))
         == K.ApplyAll(map[], operations.payloads[..restored.kv])
  {
    CommitsReached(L, snapshot, AllLines(sqlSegments), BoundFor(target, true), commits, restored.sqlWal, restored.sql, r);
    OperationsReached(kvSnapshot, AllLines(kvSegments), BoundFor(target, false), operations, restored.kvWal, restored.kv);
  }
}
