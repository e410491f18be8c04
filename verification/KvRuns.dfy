/** Whole runs of the key-value store: calls one after another, and crashes in the middle of any of them
    (src/kvstore.rs, src/persistence.rs). */
module KvRuns {
  import opened Wrappers
  import opened Wal
  import opened KvLog

  datatype Store =
    | Running(disk: KvDisk, pending: seq<Operation>, next: nat, data: Data)
    | Stopped(disk: KvDisk)

  datatype Call =
    | WriteAsync(key: string, value: string)
    | WriteSync(op: Operation)
    | FlushQueue
    | TakeSnapshot(entries: seq<(string, string)>)
    | CrashIdle
    | CrashWriting(op: Operation, piece: Piece<KvRecord>)
    | CrashFlushing(written: seq<Operation>, op: Operation, piece: Piece<KvRecord>)
    | CrashArchiving(entries: seq<(string, string)>)
    | Reopen
    | FailToReopen

  /** A piece of the record that was being written. */
  predicate PieceOf(piece: Piece<KvRecord>, record: KvRecord) {
    piece.Partial? || piece == NoNewline(record) || piece == Full(record)
  }

  /** The files when the snapshot has been renamed into place and the log not yet archived. */
  function SnapshotInPlace(a: Store, entries: seq<(string, string)>): KvDisk
    requires a.Running? && a.next > 0
  {
    Renamed(Logged(a.disk, a.next, a.pending), a.next + |a.pending|, entries)
  }

  function AppendPiece(disk: KvDisk, piece: Piece<KvRecord>): KvDisk {
    disk.(wal := Append(disk.wal, piece))
  }

  /** A crash leaves only the files. */
  ghost predicate Crashes(a: Store, call: Call, disk: KvDisk)
    requires a.Running? && a.next > 0
  {
    match call
    case CrashIdle => disk == a.disk
    case CrashWriting(op, piece) =>
      PieceOf(piece, KvRecord(a.next, op)) && disk == AppendPiece(a.disk, piece)
    case CrashFlushing(written, op, piece) =>
      && written + [op] <= a.pending && PieceOf(piece, KvRecord(a.next + |written|, op))
      && disk == AppendPiece(Logged(a.disk, a.next, written), piece)
    case CrashArchiving(entries) => Lists(entries, a.data) && disk == SnapshotInPlace(a, entries)
    case _ => false
  }

  ghost predicate Step(a: Store, call: Call, b: Store) {
    match call
    case FailToReopen => a.Stopped? && !TextOnly(a.disk.wal.lines) && b == a
    case Reopen => a.Stopped? && TextOnly(a.disk.wal.lines) && b == Running(a.disk, [], LastSequence(a.disk) + 1, Recovered(a.disk))
    case WriteAsync(key, value) =>
      a.Running? && b == a.(pending := a.pending + [Set(key, value)], data := a.data[key := value])
    case WriteSync(op) =>
      a.Running? && b == a.(disk := LogOne(a.disk, a.next, op), next := a.next + 1, data := ApplyOne(a.data, op))
    case FlushQueue =>
      a.Running? && b == a.(disk := Logged(a.disk, a.next, a.pending), pending := [], next := a.next + |a.pending|)
    case TakeSnapshot(entries) =>
      && a.Running? && a.next > 0 && Lists(entries, a.data)
      && b == a.(disk := Archived(SnapshotInPlace(a, entries)), pending := [], next := a.next + |a.pending|)
    case _ => a.Running? && a.next > 0 && b.Stopped? && Crashes(a, call, b.disk)
  }

  ghost predicate IsRun(states: seq<Store>, calls: seq<Call>) {
    && |states| == |calls| + 1
    && states[0] == Stopped(KvDisk(None, Wal([], false), []))
    && forall i :: 0 <= i < |calls| ==> Step(states[i], calls[i], states[i + 1])
  }

  /** No synchronous write goes ahead of a queued one that it does not commute with. */
  ghost predicate InOrder(a: Store, call: Call) {
    a.Running? && (call.WriteSync? || call.CrashWriting?) ==> !Overtakes(a.pending, call.op)
  }

  /** No crash leaves an unterminated line behind. */
  predicate LeavesWholeLines(call: Call) {
    call.CrashWriting? || call.CrashFlushing? ==> call.piece.Full?
  }

  ghost predicate Sound(s: Store) {
    && Whole(s.disk)
    && (s.Running? ==>
          && AllSets(s.pending) && s.next > 0
          && s.data == ApplyAll(Recovered(s.disk), s.pending)
          && SequencesContinue(s.disk, s.next))
  }

  // ---------------------------------------------------------------------- what a crash leaves

  /** What a reopened store holds: the writes that are in the log and a first part of the queue, and the
      synchronous write that was under way if its record is complete. */
  function Surviving(a: Store, call: Call): Data
    requires a.Running?
  {
    match call
    case CrashWriting(op, piece) => if piece.Partial? then Recovered(a.disk) else ApplyOne(Recovered(a.disk), op)
    case CrashFlushing(written, op, piece) => ApplyAll(Recovered(a.disk), if piece.Partial? then written else written + [op])
    case CrashArchiving(_) => a.data
    case _ => Recovered(a.disk)
  }

  /** Appending a piece of one record adds its operation or changes nothing. */
  lemma PieceRecovers(disk: KvDisk, piece: Piece<KvRecord>, record: KvRecord)
    requires !disk.wal.unterminated && PieceOf(piece, record)
    ensures Recovered(AppendPiece(disk, piece))
         == if piece.Partial? then Recovered(disk) else ApplyOne(Recovered(disk), record.operation)
  {
    RecoveredAppend(disk, record);
    LegibleAppend(disk.wal, piece);
    LegibleAppend(disk.wal, Full(record));
  }

  lemma PartialFlush(disk: KvDisk, next: nat, written: seq<Operation>, op: Operation, piece: Piece<KvRecord>)
    requires !disk.wal.unterminated && PieceOf(piece, KvRecord(next + |written|, op))
    ensures Recovered(AppendPiece(Logged(disk, next, written), piece))
         == ApplyAll(Recovered(disk), if piece.Partial? then written else written + [op])
  {
    LoggedIsApplied(disk, next, written);
    PieceRecovers(Logged(disk, next, written), piece, KvRecord(next + |written|, op));
    ApplyLast(Recovered(disk), written, op);
  }

  lemma RenamedRecovers(a: Store, entries: seq<(string, string)>)
    requires Sound(a) && a.Running? && Lists(entries, a.data)
    ensures Recovered(SnapshotInPlace(a, entries)) == a.data
  {
    LoggedIsApplied(a.disk, a.next, a.pending);
    FlushedOperations(Logged(a.disk, a.next, a.pending), SnapshotInPlace(a, entries), entries);
    ListedBack(entries, a.data);
  }

  /** The crash tears a record within a character. */
  predicate CutsText(call: Call) {
    (call.CrashWriting? || call.CrashFlushing?) && CutsCharacter(call.piece)
  }

  /** What a crash leaves is text unless it cuts a character. */
  lemma CrashLeavesText(a: Store, call: Call, b: Store)
    requires Sound(a) && Step(a, call, b) && a.Running? && b.Stopped?
    ensures TextOnly(b.disk.wal.lines) <==> !CutsText(call)
  {
    match call
    case CrashWriting(op, piece) => AppendIsTextIffNotCut(a.disk.wal, piece);
    case CrashFlushing(written, op, piece) =>
      LoggedIsApplied(a.disk, a.next, written);
      AppendIsTextIffNotCut(Logged(a.disk, a.next, written).wal, piece);
    case CrashArchiving(entries) => LoggedIsApplied(a.disk, a.next, a.pending);
    case _ =>
  }

  lemma CrashedWriting(a: Store, call: Call, disk: KvDisk)
    requires a.Running? && a.next > 0 && !a.disk.wal.unterminated && Crashes(a, call, disk) && !call.CrashArchiving?
    ensures Recovered(disk) == Surviving(a, call)
  {
    match call
    case CrashWriting(op, piece) => PieceRecovers(a.disk, piece, KvRecord(a.next, op));
    case CrashFlushing(written, op, piece) => PartialFlush(a.disk, a.next, written, op, piece);
    case _ =>
  }

  lemma CrashSurvives(a: Store, call: Call, b: Store)
    requires Sound(a) && Step(a, call, b) && a.Running? && b.Stopped?
    ensures Recovered(b.disk) == Surviving(a, call)
  {
    if call.CrashArchiving? {
      RenamedRecovers(a, call.entries);
    } else {
      CrashedWriting(a, call, b.disk);
    }
  }

  // --------------------------------------------------------------------------- the invariant

  /** Files whose records continue up to some number. */
  ghost predicate Whole(disk: KvDisk) {
    !disk.wal.unterminated && SequencesContinue(disk, LastSequence(disk) + 1)
  }

  lemma WholeFiles(disk: KvDisk, next: nat)
    requires !disk.wal.unterminated && SequencesContinue(disk, next)
    ensures Whole(disk)
  {
  }

  lemma OneMoreIsWhole(disk: KvDisk, next: nat, op: Operation, piece: Piece<KvRecord>)
    requires !disk.wal.unterminated && SequencesContinue(disk, next)
    requires piece.Full? && PieceOf(piece, KvRecord(next, op))
    ensures Whole(AppendPiece(disk, piece))
  {
    LogOneIsApplied(disk, next, op);
    WholeFiles(LogOne(disk, next, op), next + 1);
  }

  lemma ArchivingLeavesWhole(a: Store, entries: seq<(string, string)>)
    requires a.Running? && a.next > 0 && Whole(a.disk) && SequencesContinue(a.disk, a.next)
    ensures Whole(SnapshotInPlace(a, entries))
  {
    LoggedIsApplied(a.disk, a.next, a.pending);
    RenamedSequences(Logged(a.disk, a.next, a.pending), a.next + |a.pending|, entries);
    WholeFiles(SnapshotInPlace(a, entries), a.next + |a.pending|);
  }

  lemma LoggedAndOne(disk: KvDisk, next: nat, written: seq<Operation>, op: Operation, view: KvDisk -> Data, keeps: (KvDisk, nat) -> bool)
    requires !disk.wal.unterminated && Follows(view, keeps) && keeps(disk, next)
    ensures var after := LogOne(Logged(disk, next, written), next + |written|, op);
            !after.wal.unterminated && keeps(after, next + |written| + 1)
  {
    LoggedFollows(disk, next, written, view, keeps);
  }

  lemma FlushingLeavesWhole(disk: KvDisk, next: nat, written: seq<Operation>, op: Operation, piece: Piece<KvRecord>)
    requires !disk.wal.unterminated && SequencesContinue(disk, next)
    requires piece.Full? && PieceOf(piece, KvRecord(next + |written|, op))
    ensures Whole(AppendPiece(Logged(disk, next, written), piece))
  {
    var view, keeps := (d: KvDisk) => Recovered(d), (d: KvDisk, s: nat) => SequencesContinue(d, s);
    RecoveredFollows(view, keeps);
    LoggedAndOne(disk, next, written, op, view, keeps);
    WholeFiles(AppendPiece(Logged(disk, next, written), piece), next + |written| + 1);
  }

  lemma CrashLeavesWhole(a: Store, call: Call, disk: KvDisk)
    requires a.Running? && a.next > 0 && Crashes(a, call, disk) && LeavesWholeLines(call)
    requires Whole(a.disk) && SequencesContinue(a.disk, a.next)
    ensures Whole(disk)
  {
    match call
    case CrashWriting(op, piece) => OneMoreIsWhole(a.disk, a.next, op, piece);
    case CrashFlushing(written, op, piece) => FlushingLeavesWhole(a.disk, a.next, written, op, piece);
    case CrashArchiving(entries) => ArchivingLeavesWhole(a, entries);
    case CrashIdle =>
  }

  lemma CrashKeepsSound(a: Store, call: Call, b: Store)
    requires Sound(a) && Step(a, call, b) && a.Running? && b.Stopped? && LeavesWholeLines(call)
    ensures Sound(b)
  {
    CrashLeavesWhole(a, call, b.disk);
  }

  lemma WriteKeepsSound(a: Store, call: Call, b: Store)
    requires Sound(a) && Step(a, call, b) && InOrder(a, call) && (call.WriteAsync? || call.WriteSync?)
    ensures Sound(b)
  {
    if call.WriteAsync? {
      assert b.pending[..|a.pending|] == a.pending;
    } else {
      LogOneIsApplied(a.disk, a.next, call.op);
      OvertakingIsExact(Recovered(a.disk), a.pending, call.op);
    }
  }

  lemma SnapshotKeepsSound(a: Store, entries: seq<(string, string)>, b: Store)
    requires Sound(a) && Step(a, TakeSnapshot(entries), b)
    ensures Sound(b)
  {
    var flushed, next := Logged(a.disk, a.next, a.pending), a.next + |a.pending|;
    LoggedIsApplied(a.disk, a.next, a.pending);
    RenamedSequences(flushed, next, entries);
    ArchivedSequences(Renamed(flushed, next, entries), next);
    ListedBack(entries, a.data);
    assert RecoveredOperations(b.disk) == EntryOperations(entries);
  }

  lemma StepKeepsSound(a: Store, call: Call, b: Store)
    requires Sound(a) && Step(a, call, b) && InOrder(a, call) && LeavesWholeLines(call)
    ensures Sound(b)
  {
    match call
    case Reopen =>
    case FailToReopen =>
    case WriteAsync(_, _) => WriteKeepsSound(a, call, b);
    case WriteSync(_) => WriteKeepsSound(a, call, b);
    case FlushQueue => LoggedIsApplied(a.disk, a.next, a.pending);
    case TakeSnapshot(entries) => SnapshotKeepsSound(a, entries, b);
    case _ => CrashKeepsSound(a, call, b);
  }

  lemma {:induction false} RunsAreSound(states: seq<Store>, calls: seq<Call>, n: nat)
    requires IsRun(states, calls) && n < |states|
    requires forall i :: 0 <= i < n ==> InOrder(states[i], calls[i]) && LeavesWholeLines(calls[i])
    ensures Sound(states[n])
  {
    if n > 0 {
      RunsAreSound(states, calls, n - 1);
      StepKeepsSound(states[n - 1], calls[n - 1], states[n]);
    }
  }

  // ------------------------------------------------------------------------- main theorems

  /** In every run without overtaking, with crashes anywhere that leave whole lines, memory is what the log
      gives once the queue has been written. */
  lemma MemoryIsLogThenQueue(states: seq<Store>, calls: seq<Call>, n: nat)
    requires IsRun(states, calls) && n < |states| && states[n].Running?
    requires forall i :: 0 <= i < n ==> InOrder(states[i], calls[i]) && LeavesWholeLines(calls[i])
    ensures states[n].data == ApplyAll(Recovered(states[n].disk), states[n].pending)
    ensures states[n].pending == [] ==> Recovered(states[n].disk) == states[n].data
  {
    RunsAreSound(states, calls, n);
  }

  /** After such a run a crash at any point, even one that tears the last line, loses at most an end of the
      queue: everything synchronous survives, everything flushed survives, and between the rename of a
      snapshot and the archiving of the log nothing at all is lost. The next open finds exactly that, unless
      the line was torn within a character. */
  lemma CrashLosesOnlyTheQueue(states: seq<Store>, calls: seq<Call>, n: nat)
    requires IsRun(states, calls) && n < |calls| && states[n].Running? && states[n + 1].Stopped?
    requires forall i :: 0 <= i < n ==> InOrder(states[i], calls[i]) && LeavesWholeLines(calls[i])
    ensures Recovered(states[n + 1].disk) == Surviving(states[n], calls[n])
    ensures n + 1 < |calls| && !CutsText(calls[n]) ==> states[n + 2].Running? && states[n + 2].data == Surviving(states[n], calls[n])
    ensures states[n].pending == [] && !calls[n].CrashWriting? ==> Surviving(states[n], calls[n]) == states[n].data
    ensures calls[n].CrashFlushing? ==> calls[n].written + [calls[n].op] <= states[n].pending
  {
    RunsAreSound(states, calls, n);
    assert Step(states[n], calls[n], states[n + 1]);
    CrashSurvives(states[n], calls[n], states[n + 1]);
    CrashLeavesText(states[n], calls[n], states[n + 1]);
    if n + 1 < |calls| {
      assert Step(states[n + 1], calls[n + 1], states[n + 2]);
    }
  }

  /** The log and its archive always hold the records 1, 2, 3 and so on without a gap, through crashes,
      restarts and snapshots. */
  lemma NoSequenceIsMissing(states: seq<Store>, calls: seq<Call>, n: nat)
    requires IsRun(states, calls) && n < |states|
    requires forall i :: 0 <= i < n ==> InOrder(states[i], calls[i]) && LeavesWholeLines(calls[i])
    ensures forall i :: 0 <= i < |AllRecords(states[n].disk)| ==> AllRecords(states[n].disk)[i].sequence == i + 1
    ensures LastSequence(states[n].disk) == |AllRecords(states[n].disk)|
  {
    RunsAreSound(states, calls, n);
  }

  lemma {:induction false} StaysStopped(states: seq<Store>, calls: seq<Call>, n: nat, m: nat)
    requires IsRun(states, calls) && n <= m < |states| && states[n].Stopped? && !TextOnly(states[n].disk.wal.lines)
    ensures states[m] == states[n]
    decreases m
  {
    if n < m {
      StaysStopped(states, calls, n, m - 1);
      assert Step(states[m - 1], calls[m - 1], states[m]);
    }
  }

  /** A crash that tears a record within a character ends the store: recovery fails at that line, whatever else
      the log and the snapshot hold, and no later call changes that. */
  lemma CutEndsTheStore(states: seq<Store>, calls: seq<Call>, n: nat, m: nat)
    requires IsRun(states, calls) && n < m < |states| && states[n].Running? && CutsText(calls[n])
    requires forall i :: 0 <= i < n ==> InOrder(states[i], calls[i]) && LeavesWholeLines(calls[i])
    ensures states[m].Stopped? && states[m] == states[n + 1]
    ensures m < |calls| ==> calls[m] == FailToReopen
  {
    RunsAreSound(states, calls, n);
    assert Step(states[n], calls[n], states[n + 1]);
    CrashLeavesText(states[n], calls[n], states[n + 1]);
    StaysStopped(states, calls, n + 1, m);
    if m < |calls| {
      assert Step(states[m], calls[m], states[m + 1]);
    }
  }
}
