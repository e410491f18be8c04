/** Point-in-time restore: which records a restore selects, when it succeeds, and what opening its result
    gives (src/recovery.rs). */
module Restore {
  import opened Wrappers
  import opened Wal
  import opened Transactions
  import opened Serializability
  import opened Durability
  import K = KvLog

  /** A record of either log: a commit over its base version, or a key-value operation over the sequence
      number before its own. */
  datatype Entry<P> = Entry(base: nat, id: nat, time: nat, payload: P)

  /** A line of an archived or backed-up segment: a record, a record whose checksum fails, other text, or bytes
      that are not text. */
  datatype SegmentLine<P> = Sound(entry: Entry<P>) | Corrupt | Other | Garbled

  type Records<P> = map<nat, Entry<P>>

  // --------------------------------------------------------------------- collection

  /** Reading a segment ends, without an error, at the first line that is not text. */
  function TextOf<P>(segment: seq<SegmentLine<P>>): seq<SegmentLine<P>> {
    if segment == [] || segment[0].Garbled? then [] else [segment[0]] + TextOf(segment[1..])
  }

  lemma {:induction false} TextIsPrefix<P>(segment: seq<SegmentLine<P>>, n: nat)
    requires n <= |segment| && forall j :: 0 <= j < n ==> !segment[j].Garbled?
    ensures segment[..n] <= TextOf(segment)
    ensures n == |segment| || segment[n].Garbled? ==> TextOf(segment) == segment[..n]
    decreases n
  {
    if n > 0 {
      TextIsPrefix(segment[1..], n - 1);
      assert segment[..n] == [segment[0]] + segment[1..][..n - 1];
    }
  }

  /** The lines of all segments in the order in which they are read. */
  function AllLines<P>(segments: seq<seq<SegmentLine<P>>>): seq<SegmentLine<P>> {
    if segments == [] then [] else AllLines(segments[..|segments| - 1]) + TextOf(segments[|segments| - 1])
  }

  /** The first record of each id. */
  function Collected<P>(lines: seq<SegmentLine<P>>): Records<P> {
    if lines == [] then map[]
    else
      var before, last := Collected(lines[..|lines| - 1]), lines[|lines| - 1];
      if last.Sound? && last.entry.id !in before then before[last.entry.id := last.entry] else before
  }

  ghost predicate NoneCorrupt<P>(lines: seq<SegmentLine<P>>) {
    forall i :: 0 <= i < |lines| ==> !lines[i].Corrupt?
  }

  lemma CollectedNext<P>(lines: seq<SegmentLine<P>>, more: seq<SegmentLine<P>>, j: nat)
    requires j < |more|
    ensures Collected(lines + more[..j + 1])
         == (var before := Collected(lines + more[..j]);
             if more[j].Sound? && more[j].entry.id !in before then before[more[j].entry.id := more[j].entry] else before)
  {
    var longer := lines + more[..j + 1];
    assert longer[..|longer| - 1] == lines + more[..j];
  }

  lemma NoneCorruptNext<P>(lines: seq<SegmentLine<P>>, more: seq<SegmentLine<P>>, j: nat)
    requires j < |more| && NoneCorrupt(lines + more[..j])
    ensures NoneCorrupt(lines + more[..j + 1]) <==> !more[j].Corrupt?
  {
    var longer := lines + more[..j + 1];
    assert longer == (lines + more[..j]) + [more[j]];
    assert longer[|lines| + j] == more[j];
  }

  lemma CorruptIsRead<P>(lines: seq<SegmentLine<P>>, more: seq<SegmentLine<P>>, j: nat)
    requires j < |more| && more[j].Corrupt? && forall k :: 0 <= k < j ==> !more[k].Garbled?
    ensures !NoneCorrupt(lines + TextOf(more))
  {
    TextIsPrefix(more, j + 1);
    assert TextOf(more)[j] == more[..j + 1][j];
    assert (lines + TextOf(more))[|lines| + j].Corrupt?;
  }

  /** The lines of one segment, up to the first that is not text. */
  method CollectLines<P>(before: Records<P>, ghost done: seq<SegmentLine<P>>, lines: seq<SegmentLine<P>>) returns (r: Result<Records<P>>)
    requires NoneCorrupt(done) && before == Collected(done)
    ensures r.Ok? <==> NoneCorrupt(done + TextOf(lines))
    ensures r.Ok? ==> r.value == Collected(done + TextOf(lines))
  {
    var records, j := before, 0;
    assert done + lines[..0] == done;
    while j < |lines| && !lines[j].Garbled?
      invariant j <= |lines| && forall k :: 0 <= k < j ==> !lines[k].Garbled?
      invariant NoneCorrupt(done + lines[..j]) && records == Collected(done + lines[..j])
    {
      CollectedNext(done, lines, j);
      NoneCorruptNext(done, lines, j);
      if lines[j].Corrupt? {
        CorruptIsRead(done, lines, j);
        return Err;
      }
      if lines[j].Sound? && lines[j].entry.id !in records {
        records := records[lines[j].entry.id := lines[j].entry];
      }
      j := j + 1;
    }
    TextIsPrefix(lines, j);
    r := Ok(records);
  }

  /** collect_sql_records and collect_kv_records: a failed checksum in a line that is read is an error; otherwise
      the first record of each id is kept. */
  method CollectRecords<P>(segments: seq<seq<SegmentLine<P>>>) returns (r: Result<Records<P>>)
    ensures r.Ok? <==> NoneCorrupt(AllLines(segments))
    ensures r.Ok? ==> r.value == Collected(AllLines(segments))
  {
    var records: Records<P> := map[];
    for i := 0 to |segments|
      invariant NoneCorrupt(AllLines(segments[..i])) && records == Collected(AllLines(segments[..i]))
    {
      assert segments[..i + 1][..i] == segments[..i];
      AllLinesGrow(segments, i + 1);
      var more := CollectLines(records, AllLines(segments[..i]), segments[i]);
      if more.Err? {
        return Err;
      }
      records := more.value;
    }
    assert segments[..|segments|] == segments;
    r := Ok(records);
  }

  lemma {:induction false} AllLinesGrow<P>(segments: seq<seq<SegmentLine<P>>>, n: nat)
    requires n <= |segments|
    ensures AllLines(segments[..n]) <= AllLines(segments)
    decreases |segments|
  {
    if n < |segments| {
      AllLinesGrow(segments[..|segments| - 1], n);
      assert segments[..|segments| - 1][..n] == segments[..n];
    } else {
      assert segments[..n] == segments;
    }
  }

  /** Copies of a record agree, as they do when all segments come from one database. */
  ghost predicate OneLineage<P>(lines: seq<SegmentLine<P>>) {
    forall i, j :: 0 <= i < |lines| && 0 <= j < |lines| && lines[i].Sound? && lines[j].Sound? && lines[i].entry.id == lines[j].entry.id ==>
      lines[i].entry == lines[j].entry
  }

  lemma {:induction false} CollectedAre<P>(lines: seq<SegmentLine<P>>)
    ensures forall id :: id in Collected(lines) ==> Sound(Collected(lines)[id]) in lines && Collected(lines)[id].id == id
    ensures forall i :: 0 <= i < |lines| && lines[i].Sound? ==> lines[i].entry.id in Collected(lines)
    decreases lines
  {
    if lines != [] {
      CollectedAre(lines[..|lines| - 1]);
    }
  }

  /** How records are split, ordered or duplicated across segments makes no difference. */
  lemma SegmentsDoNotMatter<P>(a: seq<seq<SegmentLine<P>>>, b: seq<seq<SegmentLine<P>>>)
    requires OneLineage(AllLines(a)) && OneLineage(AllLines(b))
    requires forall e :: Sound(e) in AllLines(a) <==> Sound(e) in AllLines(b)
    ensures Collected(AllLines(a)) == Collected(AllLines(b))
  {
    var x, y := AllLines(a), AllLines(b);
    CollectedAre(x);
    CollectedAre(y);
    forall id ensures (id in Collected(x) <==> id in Collected(y)) && (id in Collected(x) ==> Collected(x)[id] == Collected(y)[id]) {
      if id in Collected(x) {
        assert Sound(Collected(x)[id]) in y;
      }
      if id in Collected(y) {
        assert Sound(Collected(y)[id]) in x;
      }
    }
  }

  // ----------------------------------------------------------------------- selection

  datatype Target = Latest | Timestamp(cutoff: nat) | Point(sql: nat, kv: nat)

  /** What bounds the records of one engine. */
  datatype Bound = NoBound | UntilTime(cutoff: nat) | UpTo(limit: nat)

  /** Ids are consecutive: each record is based on the one before it. */
  ghost predicate Chained<P>(records: Records<P>) {
    forall id :: id in records ==> records[id].id == id && records[id].base + 1 == id
  }

  predicate IsLate<P>(records: Records<P>, base: nat, bound: Bound, id: nat) {
    id in records && id > base && bound.UntilTime? && records[id].time > bound.cutoff
  }

  /** The records that restore looks at: after the base, within the bound, and before the first late one. */
  predicate Considered<P>(records: Records<P>, base: nat, bound: Bound, id: nat) {
    && id in records && id > base
    && (bound.UpTo? ==> id <= bound.limit)
    && !exists late :: late in records && late <= id && IsLate(records, base, bound, late)
  }

  /** No considered record is missing before another one. */
  ghost predicate NoGap<P>(records: Records<P>, base: nat, bound: Bound) {
    forall id: nat, k: nat :: Considered(records, base, bound, id) && base < k < id ==> Considered(records, base, bound, k)
  }

  lemma {:induction false} LeastExists(ids: set<nat>) returns (least: nat)
    requires ids != {}
    ensures least in ids && forall id :: id in ids ==> least <= id
    decreases ids
  {
    var id :| id in ids;
    if ids == {id} {
      least := id;
    } else {
      assert ids == (ids - {id}) + {id};
      least := LeastExists(ids - {id});
      least := if id < least then id else least;
      assert forall x :: x in ids ==> x == id || x in ids - {id};
    }
  }

  method Least(ids: set<nat>) returns (least: nat)
    requires ids != {}
    ensures least in ids && forall id :: id in ids ==> least <= id
  {
    ghost var witness_ := LeastExists(ids);
    least :| least in ids && forall id :: id in ids ==> least <= id;
  }

  /** The records base + 1, base + 2 and so on. */
  ghost predicate Consecutive<P>(written: seq<Entry<P>>, records: Records<P>, base: nat) {
    forall i :: 0 <= i < |written| ==> base + 1 + i in records && written[i] == records[base + 1 + i]
  }

  /** The loop of restore over one engine's records in the order of their ids: late records end it, records
      beyond the requested point are passed over, and a gap is an error. */
  method SelectRecords<P>(records: Records<P>, base: nat, bound: Bound) returns (r: Result<seq<Entry<P>>>)
    requires Chained(records)
    ensures r.Ok? <==> NoGap(records, base, bound)
    ensures r.Ok? ==> Consecutive(r.value, records, base)
    ensures r.Ok? ==> forall id: nat :: Considered(records, base, bound, id) <==> base < id <= base + |r.value|
  {
    var written: seq<Entry<P>>, todo := [], records.Keys;
    while todo != {}
      invariant todo <= records.Keys && forall x, y :: x in todo && y in records && y !in todo ==> y < x
      invariant Consecutive(written, records, base)
      invariant forall id :: id in records && id !in todo ==> !IsLate(records, base, bound, id)
      invariant forall id: nat :: id !in todo ==> (Considered(records, base, bound, id) <==> base < id <= base + |written|)
      invariant forall k: nat :: base < k <= base + |written| ==> k in records && k !in todo
      decreases todo
    {
      var id := Least(todo);
      assert |written| > 0 ==> base + |written| in records && base + |written| !in todo;
      todo := todo - {id};
      var record := records[id];
      if id > base {
        if bound.UntilTime? && record.time > bound.cutoff {
          LateEnds(records, base, bound, id, |written|);
          return Ok(written);
        }
        if !(bound.UpTo? && id > bound.limit) {
          assert Considered(records, base, bound, id);
          if record.base != base + |written| {
            GapFound(records, base, bound, id, |written|);
            return Err;
          }
          written := written + [record];
        }
      }
    }
    r := Ok(written);
  }

  lemma LateEnds<P>(records: Records<P>, base: nat, bound: Bound, id: nat, n: nat)
    requires IsLate(records, base, bound, id)
    requires forall k: nat :: k < id ==> (Considered(records, base, bound, k) <==> base < k <= base + n)
    requires base + n < id
    ensures forall k: nat :: Considered(records, base, bound, k) <==> base < k <= base + n
    ensures NoGap(records, base, bound)
  {
  }

  lemma GapFound<P>(records: Records<P>, base: nat, bound: Bound, id: nat, n: nat)
    requires Considered(records, base, bound, id) && Chained(records) && records[id].base != base + n
    requires forall k: nat :: k < id ==> (Considered(records, base, bound, k) <==> base < k <= base + n)
    requires base + n < id
    ensures !NoGap(records, base, bound)
  {
    assert !Considered(records, base, bound, base + n + 1);
  }

  // -------------------------------------------------------------------- what is reached

  /** No commit or sequence number up to the limit is missing. */
  ghost predicate Complete<P>(records: Records<P>, base: nat, limit: nat) {
    forall k: nat :: base < k <= limit ==> k in records
  }

  /** The restored version is the requested one exactly when nothing up to it is missing. */
  lemma PointReached<P>(records: Records<P>, base: nat, limit: nat, n: nat)
    requires base <= limit
    requires forall id: nat :: Considered(records, base, UpTo(limit), id) <==> base < id <= base + n
    ensures base + n == limit <==> Complete(records, base, limit)
  {
    forall id: nat ensures Considered(records, base, UpTo(limit), id) <==> id in records && base < id <= limit {
    }
    assert n > 0 ==> Considered(records, base, UpTo(limit), base + n);
    if Complete(records, base, limit) && base < limit {
      assert Considered(records, base, UpTo(limit), limit);
    }
    if base + n == limit {
      forall k: nat | base < k <= limit ensures k in records {
        assert Considered(records, base, UpTo(limit), k);
      }
    }
  }

  /** The first n records after the base are not later than the cutoff, and the next one, if there is one, is. */
  ghost predicate LongestPrefix<P>(records: Records<P>, base: nat, cutoff: nat, n: nat) {
    && (forall k: nat :: base < k <= base + n ==> k in records && records[k].time <= cutoff)
    && (base + n + 1 in records ==> records[base + n + 1].time > cutoff)
  }

  lemma TimestampReached<P>(records: Records<P>, base: nat, cutoff: nat, n: nat)
    requires forall id: nat :: Considered(records, base, UntilTime(cutoff), id) <==> base < id <= base + n
    ensures LongestPrefix(records, base, cutoff, n)
  {
    var bound := UntilTime(cutoff);
    forall k: nat | base < k <= base + n ensures k in records && records[k].time <= cutoff {
      assert Considered(records, base, bound, k);
      assert !IsLate(records, base, bound, k);
    }
    if base + n + 1 in records {
      assert !Considered(records, base, bound, base + n + 1);
      var late :| late in records && late <= base + n + 1 && IsLate(records, base, bound, late);
    }
  }

  // ------------------------------------------------------------------------- restore

  datatype Restored<S> = Restored(sql: nat, kv: nat, sqlWal: seq<Entry<seq<S>>>, kvWal: seq<Entry<K.Operation>>)

  function BoundFor(target: Target, sql: bool): Bound {
    match target
    case Latest => NoBound
    case Timestamp(cutoff) => UntilTime(cutoff)
    case Point(commit, sequence) => UpTo(if sql then commit else sequence)
  }

  /** The target is not before the base snapshots. */
  predicate AfterBase(target: Target, sqlBase: nat, kvBase: nat, baseTime: nat) {
    && (target.Timestamp? ==> baseTime == 0 || baseTime <= target.cutoff)
    && (target.Point? ==> sqlBase <= target.sql && kvBase <= target.kv)
  }

  /** The records written for one engine, which are consecutive, and the number that they end at: the requested
      one, the last not later than the cutoff, or the last of all. */
  ghost predicate Reaches<P>(records: Records<P>, base: nat, bound: Bound, written: seq<Entry<P>>, end: nat) {
    && Consecutive(written, records, base) && end == base + |written|
    && match bound
       case UpTo(limit) => end == limit
       case UntilTime(cutoff) => LongestPrefix(records, base, cutoff, |written|)
       case NoBound => forall id :: id in records ==> id <= end
  }

  /** A restore with its parts: the base point, the time of the base snapshots, and the segments of the backup
      and of the archive. */
  method Restore<S>(sqlBase: nat, kvBase: nat, baseTime: nat, sqlSegments: seq<seq<SegmentLine<seq<S>>>>,
                    kvSegments: seq<seq<SegmentLine<K.Operation>>>, target: Target) returns (r: Result<Restored<S>>)
    requires Chained(Collected(AllLines(sqlSegments))) && Chained(Collected(AllLines(kvSegments)))
    ensures var sql, kv := Collected(AllLines(sqlSegments)), Collected(AllLines(kvSegments));
            var sound := AfterBase(target, sqlBase, kvBase, baseTime) && NoneCorrupt(AllLines(sqlSegments)) && NoneCorrupt(AllLines(kvSegments));
            match target
            case Point(commit, sequence) =>
              r.Ok? <==> sound && Complete(sql, sqlBase, commit) && Complete(kv, kvBase, sequence)
            case _ =>
              r.Ok? <==> sound && NoGap(sql, sqlBase, BoundFor(target, true)) && NoGap(kv, kvBase, BoundFor(target, false))
    ensures r.Ok? ==> Reaches(Collected(AllLines(sqlSegments)), sqlBase, BoundFor(target, true), r.value.sqlWal, r.value.sql)
    ensures r.Ok? ==> Reaches(Collected(AllLines(kvSegments)), kvBase, BoundFor(target, false), r.value.kvWal, r.value.kv)
  {
    if !AfterBase(target, sqlBase, kvBase, baseTime) {
      return Err;
    }
    var sqlRecords := CollectRecords(sqlSegments);
    if sqlRecords.Err? {
      return Err;
    }
    var kvRecords := CollectRecords(kvSegments);
    if kvRecords.Err? {
      return Err;
    }
    if target.Point? {
      CompleteHasNoGap(sqlRecords.value, sqlBase, target.sql);
      CompleteHasNoGap(kvRecords.value, kvBase, target.kv);
    }
    var sqlWal := SelectRecords(sqlRecords.value, sqlBase, BoundFor(target, true));
    if sqlWal.Err? {
      return Err;
    }
    var kvWal := SelectRecords(kvRecords.value, kvBase, BoundFor(target, false));
    if kvWal.Err? {
      return Err;
    }
    BoundReached(sqlRecords.value, sqlBase, BoundFor(target, true), |sqlWal.value|);
    BoundReached(kvRecords.value, kvBase, BoundFor(target, false), |kvWal.value|);
    var restored := Restored(sqlBase + |sqlWal.value|, kvBase + |kvWal.value|, sqlWal.value, kvWal.value);
    if target.Point? && (restored.sql != target.sql || restored.kv != target.kv) {
      return Err;
    }
    r := Ok(restored);
  }

  lemma CompleteHasNoGap<P>(records: Records<P>, base: nat, limit: nat)
    ensures Complete(records, base, limit) ==> NoGap(records, base, UpTo(limit))
  {
  }

  lemma BoundReached<P>(records: Records<P>, base: nat, bound: Bound, n: nat)
    requires bound.UpTo? ==> base <= bound.limit
    requires forall id: nat :: Considered(records, base, bound, id) <==> base < id <= base + n
    ensures bound.UpTo? ==> (base + n == bound.limit <==> Complete(records, base, bound.limit))
    ensures bound.UntilTime? ==> LongestPrefix(records, base, bound.cutoff, n)
    ensures bound.NoBound? ==> forall id :: id in records ==> id <= base + n
  {
    match bound
    case UpTo(limit) => PointReached(records, base, limit, n);
    case UntilTime(cutoff) => TimestampReached(records, base, cutoff, n);
    case NoBound =>
      forall id | id in records ensures id <= base + n {
        assert id > base ==> Considered(records, base, bound, id);
      }
  }

  // ------------------------------------------------------------- opening what was restored

  /** The restored log: the selected records, one whole line each. */
  function SqlLines<S>(written: seq<Entry<seq<S>>>): (r: seq<Line<Record<S>>>)
    ensures |r| == |written|
  {
    seq(|written|, i requires 0 <= i < |written| => Whole(Record(written[i].base, written[i].id, written[i].payload)))
  }

  lemma {:induction false} WholeLinesRead<R>(lines: seq<Line<R>>)
    requires forall i :: 0 <= i < |lines| ==> lines[i].Whole?
    ensures |Readable(lines)| == |lines| && forall i :: 0 <= i < |lines| ==> Readable(lines)[i] == lines[i].record
    ensures !Unreadable(lines)
    decreases lines
  {
    if lines != [] {
      WholeLinesRead(lines[1..]);
    }
  }

  /** The selected records are the commits of this history that follow the base. */
  ghost predicate FromHistory<S>(written: seq<Entry<seq<S>>>, history: seq<seq<S>>, base: nat) {
    base + |written| <= |history|
    && forall i :: 0 <= i < |written| ==>
         written[i].base == base + i && written[i].id == base + i + 1 && written[i].payload == history[base + i]
  }

  lemma RestoredRecords<S>(records: seq<Record<S>>, written: seq<Entry<seq<S>>>, history: seq<seq<S>>, base: nat)
    requires FromHistory(written, history, base) && |records| == |written|
    requires forall i :: 0 <= i < |records| ==> records[i] == Record(written[i].base, written[i].id, written[i].payload)
    ensures RecordsMatch(records, history[..base + |written|], base)
    ensures LastVersion(records, base) == base + |written|
  {
  }

  lemma RestoredDisk<T(!new), M, S(!new), Q(!new), A>(L: Language<T, M, S, Q, A>, snapshot: Option<Catalog<T>>, written: seq<Entry<seq<S>>>, history: seq<seq<S>>)
    requires snapshot.Some? ==> L.valid(snapshot.value.tables)
    requires FromHistory(written, history, SnapshotVersion(Disk(snapshot, Wal(SqlLines(written), false))))
    ensures var disk := Disk(snapshot, Wal(SqlLines(written), false));
            var n := SnapshotVersion(disk) + |written|;
            DiskOk(L, disk, history[..n]) && Durable(disk) == n
  {
    var disk := Disk(snapshot, Wal(SqlLines(written), false));
    var n := SnapshotVersion(disk) + |written|;
    WholeLinesRead(disk.wal.lines);
    RestoredRecords(Readable(disk.wal.lines), written, history, SnapshotVersion(disk));
    ReachedBounds(Readable(disk.wal.lines), history[..n], SnapshotVersion(disk));
  }

  /** Opening a restored directory gives the serial outcome of exactly the restored commits. */
  lemma RestoredSqlOpens<T(!new), M, S(!new), Q(!new), A>(L: Language<T, M, S, Q, A>, snapshot: Option<Catalog<T>>, written: seq<Entry<seq<S>>>, history: seq<seq<S>>, r: Result<Catalog<T>>)
    requires Lawful(L) && Agrees(L) && DependableHistory(L, history)
    requires var disk := Disk(snapshot, Wal(SqlLines(written), false));
             FromHistory(written, history, SnapshotVersion(disk)) && SnapshotMeans(L, disk, history) && Opens(L, disk, r)
    requires snapshot.Some? ==> L.valid(snapshot.value.tables)
    ensures r.Ok? && r.value.version == (if snapshot.Some? then snapshot.value.version else 0) + |written| <= |history|
    ensures Outcome(L, history, r.value.version) == Ok(L.meaning(r.value.tables))
  {
    var disk := Disk(snapshot, Wal(SqlLines(written), false));
    var n := SnapshotVersion(disk) + |written|;
    RestoredDisk(L, snapshot, written, history);
    HistoryPrefix(L, history, n);
    WholeLinesRead(disk.wal.lines);
    OpensMeans(L, disk, history[..n], r);
  }

  function KvLines(written: seq<Entry<K.Operation>>): (r: seq<Line<K.KvRecord>>)
    ensures |r| == |written|
  {
    seq(|written|, i requires 0 <= i < |written| => Whole(K.KvRecord(written[i].id, written[i].payload)))
  }

  lemma {:induction false} WholeLinesLegible(lines: seq<Line<K.KvRecord>>)
    requires forall i :: 0 <= i < |lines| ==> lines[i].Whole?
    ensures |K.Legible(lines)| == |lines| && forall i :: 0 <= i < |lines| ==> K.Legible(lines)[i] == lines[i].record
    decreases lines
  {
    if lines != [] {
      WholeLinesLegible(lines[..|lines| - 1]);
    }
  }

  /** Opening a restored store gives the data after exactly the restored operations. */
  lemma RestoredKvOpens(snapshot: K.KvSnapshot, written: seq<Entry<K.Operation>>, history: seq<K.Operation>)
    requires snapshot.sequence + |written| <= |history|
    requires forall i :: 0 <= i < |written| ==> written[i].payload == history[snapshot.sequence + i]
    requires K.ApplyAll(map[], K.EntryOperations(snapshot.entries)) == K.ApplyAll(map[], history[..snapshot.sequence])
    ensures K.Recovered(K.KvDisk(Some(snapshot), Wal(KvLines(written), false), []))
         == K.ApplyAll(map[], history[..snapshot.sequence + |written|])
  {
    var lines, n := KvLines(written), snapshot.sequence;
    WholeLinesLegible(lines);
    var logged := K.OperationsOf(K.Legible(lines));
    assert logged == history[n..n + |written|];
    assert history[..n + |written|] == history[..n] + logged;
    K.ApplySplit(map[], K.EntryOperations(snapshot.entries), logged);
    K.ApplySplit(map[], history[..n], logged);
  }
}
