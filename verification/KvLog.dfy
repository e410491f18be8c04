/** The key-value store, its log and its snapshots (src/kvstore.rs, src/persistence.rs). */
module KvLog {
  import opened Wrappers
  import opened Wal

  datatype Operation = Set(key: string, value: string) | Delete(key: string) | Clear

  type Data = map<string, string>

  function ApplyOne(m: Data, op: Operation): Data {
    match op
    case Set(key, value) => m[key := value]
    case Delete(key) => m - {key}
    case Clear => map[]
  }

  function ApplyAll(m: Data, ops: seq<Operation>): Data {
    if ops == [] then m else ApplyOne(ApplyAll(m, ops[..|ops| - 1]), ops[|ops| - 1])
  }

  lemma {:induction false} ApplySplit(m: Data, a: seq<Operation>, b: seq<Operation>)
    ensures ApplyAll(m, a + b) == ApplyAll(ApplyAll(m, a), b)
    decreases b
  {
    if b == [] {
      assert a + b == a;
    } else {
      ApplySplit(m, a, b[..|b| - 1]);
      assert (a + b)[..|a + b| - 1] == a + b[..|b| - 1];
    }
  }

  lemma ApplyNext(m: Data, ops: seq<Operation>, i: nat)
    requires i < |ops|
    ensures ApplyAll(m, ops[..i + 1]) == ApplyOne(ApplyAll(m, ops[..i]), ops[i])
  {
    assert ops[..i + 1][..i] == ops[..i];
  }

  // ------------------------------------------------------------- replaying a log twice

  /** What a log does to one key: its last word on it, if it says anything. */
  datatype Fate = Untouched | Gone | Holds(value: string)

  function FateOf(ops: seq<Operation>, key: string): Fate {
    if ops == [] then Untouched
    else
      var last := ops[|ops| - 1];
      if last.Set? && last.key == key then Holds(last.value)
      else if last.Clear? || (last.Delete? && last.key == key) then Gone
      else FateOf(ops[..|ops| - 1], key)
  }

  predicate KeyAfter(before: Data, fate: Fate, after: Data, key: string) {
    match fate
    case Untouched => (key in after <==> key in before) && (key in after ==> after[key] == before[key])
    case Gone => key !in after
    case Holds(value) => key in after && after[key] == value
  }

  lemma {:induction false} FateDecides(m: Data, ops: seq<Operation>, key: string)
    ensures KeyAfter(m, FateOf(ops, key), ApplyAll(m, ops), key)
    decreases ops
  {
    if ops != [] {
      FateDecides(m, ops[..|ops| - 1], key);
    }
  }

  lemma SameFates(a: Data, b: Data, x: seq<Operation>, y: seq<Operation>)
    requires forall key :: FateOf(x, key) == FateOf(y, key) && (FateOf(x, key) == Untouched ==> KeyAfter(a, Untouched, b, key))
    ensures ApplyAll(a, x) == ApplyAll(b, y)
  {
    forall key
      ensures key in ApplyAll(a, x) <==> key in ApplyAll(b, y)
      ensures key in ApplyAll(a, x) ==> ApplyAll(a, x)[key] == ApplyAll(b, y)[key]
    {
      FateDecides(a, x, key);
      FateDecides(b, y, key);
    }
  }

  /** Replaying a log onto its own result changes nothing, whatever it was first applied to. */
  lemma ReplayIsIdempotent(m: Data, ops: seq<Operation>)
    ensures ApplyAll(ApplyAll(m, ops), ops) == ApplyAll(m, ops)
  {
    forall key ensures FateOf(ops, key) == Untouched ==> KeyAfter(ApplyAll(m, ops), Untouched, m, key) {
      FateDecides(m, ops, key);
    }
    SameFates(ApplyAll(m, ops), m, ops, ops);
  }

  // -------------------------------------------------------------- queued operations

  /** Only set_async queues. */
  ghost predicate AllSets(ops: seq<Operation>) {
    forall i :: 0 <= i < |ops| ==> ops[i].Set?
  }

  /** A logged operation goes into the file before queued ones that memory saw first. */
  predicate Overtakes(pending: seq<Operation>, op: Operation) {
    match op
    case Set(key, value) => FateOf(pending, key) != Untouched && FateOf(pending, key) != Holds(value)
    case Delete(key) => FateOf(pending, key) != Untouched
    case Clear => pending != []
  }

  lemma {:induction false} SetsHold(pending: seq<Operation>, key: string)
    requires AllSets(pending)
    ensures FateOf(pending, key) != Gone
    ensures pending != [] ==> FateOf(pending, pending[|pending| - 1].key).Holds?
    decreases pending
  {
    if pending != [] {
      SetsHold(pending[..|pending| - 1], key);
    }
  }

  /** Logging an operation ahead of the queue comes to the same as logging it after the queue if and only
      if it does not overtake a queued write. */
  lemma OvertakingIsExact(m: Data, pending: seq<Operation>, op: Operation)
    requires AllSets(pending)
    ensures ApplyAll(ApplyOne(m, op), pending) == ApplyOne(ApplyAll(m, pending), op) <==> !Overtakes(pending, op)
  {
    var early, late := ApplyAll(ApplyOne(m, op), pending), ApplyOne(ApplyAll(m, pending), op);
    forall key
      ensures KeyAfter(ApplyOne(m, op), FateOf(pending, key), early, key)
      ensures KeyAfter(m, FateOf(pending, key), ApplyAll(m, pending), key)
      ensures FateOf(pending, key) != Gone
    {
      FateDecides(ApplyOne(m, op), pending, key);
      FateDecides(m, pending, key);
      SetsHold(pending, key);
    }
    if Overtakes(pending, op) {
      var key := if op.Clear? then pending[|pending| - 1].key else op.key;
      SetsHold(pending, key);
      assert (key in early) != (key in late) || early[key] != late[key];
    } else {
      forall key ensures (key in early <==> key in late) && (key in early ==> early[key] == late[key]) {
        assert KeyAfter(ApplyOne(m, op), FateOf(pending, key), early, key);
        assert KeyAfter(m, FateOf(pending, key), ApplyAll(m, pending), key);
      }
    }
  }

  // ----------------------------------------------------------------------- the files

  datatype KvRecord = KvRecord(sequence: nat, operation: Operation)

  datatype KvSnapshot = KvSnapshot(sequence: nat, entries: seq<(string, string)>)

  datatype KvDisk = KvDisk(snapshot: Option<KvSnapshot>, wal: Wal<KvRecord>, archive: seq<Line<KvRecord>>)

  /** recover skips a line that is not a record, and goes on. */
  function Legible(lines: seq<Line<KvRecord>>): seq<KvRecord> {
    if lines == [] then []
    else Legible(lines[..|lines| - 1]) + if lines[|lines| - 1].Whole? then [lines[|lines| - 1].record] else []
  }

  function OperationsOf(records: seq<KvRecord>): (r: seq<Operation>)
    ensures |r| == |records|
  {
    seq(|records|, i requires 0 <= i < |records| => records[i].operation)
  }

  function EntryOperations(entries: seq<(string, string)>): (r: seq<Operation>)
    ensures |r| == |entries|
  {
    seq(|entries|, i requires 0 <= i < |entries| => Set(entries[i].0, entries[i].1))
  }

  function RecoveredOperations(disk: KvDisk): seq<Operation> {
    (if disk.snapshot.Some? then EntryOperations(disk.snapshot.value.entries) else []) + OperationsOf(Legible(disk.wal.lines))
  }

  /** The data that a reopened store starts with. */
  function Recovered(disk: KvDisk): Data {
    ApplyAll(map[], RecoveredOperations(disk))
  }

  lemma LegibleAppend(wal: Wal<KvRecord>, piece: Piece<KvRecord>)
    requires wal.unterminated ==> wal.lines != []
    ensures !wal.unterminated ==>
              Legible(Append(wal, piece).lines) == Legible(wal.lines) + if piece.Partial? then [] else [piece.record]
    ensures wal.unterminated ==> Legible(Append(wal, piece).lines) == Legible(wal.lines[..|wal.lines| - 1])
  {
    var after := Append(wal, piece);
    assert after.lines[..|after.lines| - 1] == if wal.unterminated then wal.lines[..|wal.lines| - 1] else wal.lines;
  }

  lemma RecoveredAppend(disk: KvDisk, record: KvRecord)
    requires !disk.wal.unterminated
    ensures Recovered(disk.(wal := Append(disk.wal, Full(record)))) == ApplyOne(Recovered(disk), record.operation)
    ensures Recovered(disk.(wal := Append(disk.wal, Partial(true)))) == Recovered(disk.(wal := Append(disk.wal, Partial(false)))) == Recovered(disk)
  {
    var before, after := RecoveredOperations(disk), RecoveredOperations(disk.(wal := Append(disk.wal, Full(record))));
    LegibleAppend(disk.wal, Full(record));
    LegibleAppend(disk.wal, Partial(true));
    LegibleAppend(disk.wal, Partial(false));
    assert after == before + [record.operation];
    assert after[..|after| - 1] == before;
    assert Legible(disk.wal.lines) + [] == Legible(disk.wal.lines);
  }

  // --------------------------------------------------------- snapshots of a map's entries

  /** A listing of a map: each entry once, in any order. */
  ghost predicate Lists(entries: seq<(string, string)>, m: Data) {
    && (forall i :: 0 <= i < |entries| ==> entries[i].0 in m && m[entries[i].0] == entries[i].1)
    && (forall key :: key in m ==> exists i :: 0 <= i < |entries| && entries[i].0 == key)
  }

  lemma {:induction false} ListedFate(entries: seq<(string, string)>, m: Data, key: string)
    requires forall i :: 0 <= i < |entries| ==> entries[i].0 in m && m[entries[i].0] == entries[i].1
    ensures FateOf(EntryOperations(entries), key)
         == if exists i :: 0 <= i < |entries| && entries[i].0 == key then Holds(m[key]) else Untouched
    decreases entries
  {
    if entries != [] {
      var last := |entries| - 1;
      ListedFate(entries[..last], m, key);
      assert EntryOperations(entries)[..last] == EntryOperations(entries[..last]);
      assert (exists i :: 0 <= i < |entries| && entries[i].0 == key) <==>
             (entries[last].0 == key || exists i :: 0 <= i < last && entries[..last][i].0 == key);
    }
  }

  lemma ListedBack(entries: seq<(string, string)>, m: Data)
    requires Lists(entries, m)
    ensures ApplyAll(map[], EntryOperations(entries)) == m
  {
    forall key ensures KeyAfter(map[], FateOf(EntryOperations(entries), key), m, key) {
      ListedFate(entries, m, key);
    }
    forall key
      ensures key in m <==> key in ApplyAll(map[], EntryOperations(entries))
      ensures key in m ==> m[key] == ApplyAll(map[], EntryOperations(entries))[key]
    {
      FateDecides(map[], EntryOperations(entries), key);
      assert KeyAfter(map[], FateOf(EntryOperations(entries), key), m, key);
    }
  }

  // ------------------------------------------------------------- what calls do to the files

  function LogOne(disk: KvDisk, sequence: nat, op: Operation): KvDisk {
    disk.(wal := Append(disk.wal, Full(KvRecord(sequence, op))))
  }

  /** The files after these operations were appended as records, the first with the given sequence number. */
  function Logged(disk: KvDisk, next: nat, ops: seq<Operation>): KvDisk
    decreases ops
  {
    if ops == [] then disk
    else Logged(LogOne(disk, next, ops[0]), next + 1, ops[1..])
  }

  function Renamed(disk: KvDisk, next: nat, entries: seq<(string, string)>): KvDisk
    requires next > 0
  {
    disk.(snapshot := Some(KvSnapshot(next - 1, entries)))
  }

  function Archived(disk: KvDisk): KvDisk {
    disk.(archive := disk.archive + disk.wal.lines, wal := Wal([], false))
  }

  lemma LogOneIsApplied(disk: KvDisk, sequence: nat, op: Operation)
    requires !disk.wal.unterminated
    ensures !LogOne(disk, sequence, op).wal.unterminated
    ensures Recovered(LogOne(disk, sequence, op)) == ApplyOne(Recovered(disk), op)
    ensures SequencesContinue(disk, sequence) ==> SequencesContinue(LogOne(disk, sequence, op), sequence + 1)
  {
    RecoveredAppend(disk, KvRecord(sequence, op));
    SequenceAppend(disk, sequence, op);
  }

  lemma ApplyLast(m: Data, ops: seq<Operation>, op: Operation)
    ensures ApplyAll(m, ops + [op]) == ApplyOne(ApplyAll(m, ops), op)
  {
    assert (ops + [op])[..|ops|] == ops;
  }

  lemma ApplyFirst(m: Data, ops: seq<Operation>)
    requires ops != []
    ensures ApplyAll(m, ops) == ApplyAll(ApplyOne(m, ops[0]), ops[1..])
  {
    ApplySplit(m, ops[..1], ops[1..]);
    assert ops == ops[..1] + ops[1..] && ops[..1][..0] == [];
  }

  /** What every record adds to: a view of the files that follows the operations, and a property of the files
      and the next sequence number that every record keeps. */
  ghost predicate Follows(view: KvDisk -> Data, keeps: (KvDisk, nat) -> bool) {
    forall disk: KvDisk, sequence: nat, op: Operation {:trigger LogOne(disk, sequence, op)} :: !disk.wal.unterminated ==>
      && view(LogOne(disk, sequence, op)) == ApplyOne(view(disk), op)
      && (keeps(disk, sequence) ==> keeps(LogOne(disk, sequence, op), sequence + 1))
  }

  lemma {:induction false} LoggedFollows(disk: KvDisk, next: nat, ops: seq<Operation>, view: KvDisk -> Data, keeps: (KvDisk, nat) -> bool)
    requires !disk.wal.unterminated && Follows(view, keeps)
    ensures !Logged(disk, next, ops).wal.unterminated
    ensures view(Logged(disk, next, ops)) == ApplyAll(view(disk), ops)
    ensures keeps(disk, next) ==> keeps(Logged(disk, next, ops), next + |ops|)
    decreases ops
  {
    if ops != [] {
      LoggedFollows(LogOne(disk, next, ops[0]), next + 1, ops[1..], view, keeps);
      ApplyFirst(view(disk), ops);
    }
  }

  lemma RecoveredFollows(view: KvDisk -> Data, keeps: (KvDisk, nat) -> bool)
    requires forall disk :: view(disk) == Recovered(disk)
    requires forall disk, next :: keeps(disk, next) <==> SequencesContinue(disk, next)
    ensures Follows(view, keeps)
  {
    forall d: KvDisk, s: nat, op: Operation | !d.wal.unterminated
      ensures view(LogOne(d, s, op)) == ApplyOne(view(d), op)
      ensures keeps(d, s) ==> keeps(LogOne(d, s, op), s + 1)
    {
      LogOneIsApplied(d, s, op);
    }
  }

  lemma LoggedIsApplied(disk: KvDisk, next: nat, ops: seq<Operation>)
    requires !disk.wal.unterminated
    ensures !Logged(disk, next, ops).wal.unterminated
    ensures Recovered(Logged(disk, next, ops)) == ApplyAll(Recovered(disk), ops)
    ensures SequencesContinue(disk, next) ==> SequencesContinue(Logged(disk, next, ops), next + |ops|)
  {
    var view, keeps := (d: KvDisk) => Recovered(d), (d: KvDisk, s: nat) => SequencesContinue(d, s);
    RecoveredFollows(view, keeps);
    LoggedFollows(disk, next, ops, view, keeps);
  }

  lemma LoggedStep(disk: KvDisk, next: nat, ops: seq<Operation>, i: nat)
    requires i < |ops|
    ensures Logged(disk, next, ops[i..]) == Logged(LogOne(disk, next, ops[i]), next + 1, ops[i + 1..])
  {
    assert ops[i..][1..] == ops[i + 1..];
  }

  // -------------------------------------------------------------------- the manager

  function MaxSequence(records: seq<KvRecord>): nat {
    if records == [] then 0
    else
      var before, last := MaxSequence(records[..|records| - 1]), records[|records| - 1].sequence;
      if before < last then last else before
  }

  /** The lines before the first one that is not text. */
  function Scanned<R>(lines: seq<Line<R>>): seq<Line<R>> {
    if lines == [] || lines[0].Garbled? then [] else [lines[0]] + Scanned(lines[1..])
  }

  lemma {:induction false} TextIsScanned<R>(lines: seq<Line<R>>)
    requires TextOnly(lines)
    ensures Scanned(lines) == lines
    decreases lines
  {
    if lines != [] {
      TextIsScanned(lines[1..]);
    }
  }

  lemma {:induction false} ScannedNext<R>(lines: seq<Line<R>>, i: nat)
    requires i < |lines| && lines[i].Garbled? && forall j :: 0 <= j < i ==> !lines[j].Garbled?
    ensures Scanned(lines) == lines[..i]
    decreases i
  {
    if i > 0 {
      ScannedNext(lines[1..], i - 1);
      assert lines[..i] == [lines[0]] + lines[1..][..i - 1];
    }
  }

  /** scan_max_sequence */
  function LastSequence(disk: KvDisk): nat {
    var inSnapshot, inWal := if disk.snapshot.Some? then disk.snapshot.value.sequence else 0, MaxSequence(Legible(Scanned(disk.wal.lines)));
    if inSnapshot < inWal then inWal else inSnapshot
  }

  class PersistenceManager {
    var disk: KvDisk
    var pending: seq<Operation>
    var nextSequence: nat

    ghost predicate Valid()
      reads this
    {
      nextSequence > 0 && (disk.wal.unterminated ==> disk.wal.lines != [])
    }

    constructor (files: KvDisk)
      requires files.wal.unterminated ==> files.wal.lines != []
      ensures Valid() && disk == files && pending == [] && nextSequence == LastSequence(files) + 1
    {
      disk, pending, nextSequence := files, [], LastSequence(files) + 1;
    }

    /** scan_max_sequence over the lines of the log, one by one, as far as they are text. */
    static method ScanMaxSequence(files: KvDisk) returns (greatest: nat)
      ensures greatest == LastSequence(files)
    {
      var inWal: nat, i := 0, 0;
      while i < |files.wal.lines| && !files.wal.lines[i].Garbled?
        invariant i <= |files.wal.lines| && forall j :: 0 <= j < i ==> !files.wal.lines[j].Garbled?
        invariant inWal == MaxSequence(Legible(files.wal.lines[..i]))
      {
        assert files.wal.lines[..i + 1][..i] == files.wal.lines[..i];
        if files.wal.lines[i].Whole? {
          var before, record := Legible(files.wal.lines[..i]), files.wal.lines[i].record;
          assert (before + [record])[..|before|] == before;
          inWal := if inWal < record.sequence then record.sequence else inWal;
        } else {
          assert Legible(files.wal.lines[..i]) + [] == Legible(files.wal.lines[..i]);
        }
        i := i + 1;
      }
      if i < |files.wal.lines| {
        ScannedNext(files.wal.lines, i);
      } else {
        assert files.wal.lines[..i] == files.wal.lines;
        TextIsScanned(files.wal.lines);
      }
      var inSnapshot := if files.snapshot.Some? then files.snapshot.value.sequence else 0;
      greatest := if inSnapshot < inWal then inWal else inSnapshot;
    }

    method LogOperationAsync(op: Operation)
      modifies this`pending
      ensures pending == old(pending) + [op]
    {
      pending := pending + [op];
    }

    /** log_operation_sync: recovery finds the operation, behind all others, when the log ended with a newline. */
    method LogOperationSync(op: Operation)
      requires Valid()
      modifies this`disk, this`nextSequence
      ensures Valid() && nextSequence == old(nextSequence) + 1
      ensures disk == LogOne(old(disk), old(nextSequence), op)
      ensures !old(disk).wal.unterminated ==> Recovered(disk) == ApplyOne(Recovered(old(disk)), op)
    {
      if !disk.wal.unterminated {
        LogOneIsApplied(disk, nextSequence, op);
      }
      disk := disk.(wal := Append(disk.wal, Full(KvRecord(nextSequence, op))));
      nextSequence := nextSequence + 1;
    }

    /** flush: the queue goes into the log in order. */
    method Flush()
      requires Valid()
      modifies this
      ensures Valid() && pending == []
      ensures disk == Logged(old(disk), old(nextSequence), old(pending)) && nextSequence == old(nextSequence) + |old(pending)|
    {
      var ops := pending;
      pending := [];
      for i := 0 to |ops|
        modifies this`disk, this`nextSequence
        invariant Valid() && nextSequence == old(nextSequence) + i
        invariant Logged(disk, nextSequence, ops[i..]) == Logged(old(disk), old(nextSequence), ops)
      {
        LoggedStep(disk, nextSequence, ops, i);
        LogOperationSync(ops[i]);
      }
    }

    /** create_snapshot: after a flush, the snapshot is renamed into place and the log is archived. between
        is what a crash in the middle of the two leaves behind. */
    method CreateSnapshot(entries: seq<(string, string)>) returns (ghost between: KvDisk)
      requires Valid()
      modifies this
      ensures Valid() && pending == [] && nextSequence == old(nextSequence) + |old(pending)|
      ensures between == Renamed(Logged(old(disk), old(nextSequence), old(pending)), nextSequence, entries)
      ensures disk == Archived(between)
    {
      Flush();
      disk := disk.(snapshot := Some(KvSnapshot(nextSequence - 1, entries)));
      between := disk;
      disk := disk.(archive := disk.archive + disk.wal.lines, wal := Wal([], false));
    }

    /** recover: the operations to replay, snapshot first. A torn line is skipped; a line that is not text is an
        error. */
    method Recover() returns (r: Result<seq<Operation>>)
      ensures r.Ok? <==> TextOnly(disk.wal.lines)
      ensures r.Ok? ==> r.value == RecoveredOperations(disk)
    {
      var operations := if disk.snapshot.Some? then EntryOperations(disk.snapshot.value.entries) else [];
      ghost var first := operations;
      var lines := disk.wal.lines;
      for i := 0 to |lines|
        invariant operations == first + OperationsOf(Legible(lines[..i])) && TextOnly(lines[..i])
      {
        if lines[i].Garbled? {
          return Err;
        }
        NextOperation(lines, i);
        ghost var before := OperationsOf(Legible(lines[..i]));
        if lines[i].Whole? {
          assert (first + before) + [lines[i].record.operation] == first + (before + [lines[i].record.operation]);
          operations := operations + [lines[i].record.operation];
        } else {
          assert before + [] == before;
        }
      }
      assert lines[..|lines|] == lines;
      r := Ok(operations);
    }
  }

  lemma NextOperation(lines: seq<Line<KvRecord>>, i: nat)
    requires i < |lines|
    ensures OperationsOf(Legible(lines[..i + 1]))
         == OperationsOf(Legible(lines[..i])) + if lines[i].Whole? then [lines[i].record.operation] else []
  {
    assert lines[..i + 1][..i] == lines[..i];
  }

  /** Replaying the old log over a snapshot of its own outcome gives that snapshot again. */
  ghost predicate OperationsApply(between: KvDisk, entries: seq<Operation>, outcome: Data) {
    ApplyAll(map[], entries) == outcome ==> Recovered(between) == outcome
  }

  lemma FlushedOperations(flushed: KvDisk, between: KvDisk, entries: seq<(string, string)>)
    requires between.wal == flushed.wal && between.snapshot.Some? && between.snapshot.value.entries == entries
    ensures OperationsApply(between, EntryOperations(entries), Recovered(flushed))
  {
    var logged := OperationsOf(Legible(flushed.wal.lines));
    var first := if flushed.snapshot.Some? then EntryOperations(flushed.snapshot.value.entries) else [];
    ApplySplit(map[], first, logged);
    ApplySplit(map[], EntryOperations(entries), logged);
    ReplayIsIdempotent(ApplyAll(map[], first), logged);
  }

  // ---------------------------------------------------------------------- sequences

  /** All records ever logged, archived ones first. */
  function AllRecords(disk: KvDisk): seq<KvRecord> {
    Legible(disk.archive) + Legible(disk.wal.lines)
  }

  /** The log is text, the logged records carry the sequence numbers 1, 2, 3 and so on without a gap, the next
      one continues them, and a restart would find the same next number. */
  ghost predicate SequencesContinue(disk: KvDisk, next: nat) {
    && TextOnly(disk.wal.lines)
    && (forall i :: 0 <= i < |AllRecords(disk)| ==> AllRecords(disk)[i].sequence == i + 1)
    && next == |AllRecords(disk)| + 1
    && LastSequence(disk) == next - 1
  }

  lemma {:induction false} MaxOfRising(records: seq<KvRecord>, start: nat)
    requires forall i :: 0 <= i < |records| ==> records[i].sequence == start + i + 1
    ensures MaxSequence(records) == if records == [] then 0 else start + |records|
    decreases records
  {
    if records != [] {
      MaxOfRising(records[..|records| - 1], start);
    }
  }

  lemma SequenceAppend(disk: KvDisk, next: nat, op: Operation)
    requires !disk.wal.unterminated
    ensures SequencesContinue(disk, next) ==> SequencesContinue(disk.(wal := Append(disk.wal, Full(KvRecord(next, op)))), next + 1)
  {
    var after := disk.(wal := Append(disk.wal, Full(KvRecord(next, op))));
    LegibleAppend(disk.wal, Full(KvRecord(next, op)));
    AppendIsTextIffNotCut(disk.wal, Full(KvRecord(next, op)));
    if SequencesContinue(disk, next) {
      TextIsScanned(disk.wal.lines);
      TextIsScanned(after.wal.lines);
      assert AllRecords(after) == AllRecords(disk) + [KvRecord(next, op)];
      assert forall i :: 0 <= i < |Legible(after.wal.lines)| ==>
               Legible(after.wal.lines)[i] == AllRecords(after)[|Legible(disk.archive)| + i];
      MaxOfRising(Legible(after.wal.lines), |Legible(disk.archive)|);
    }
  }

  lemma RenamedSequences(disk: KvDisk, next: nat, entries: seq<(string, string)>)
    requires next > 0
    ensures SequencesContinue(disk, next) ==> SequencesContinue(Renamed(disk, next, entries), next)
  {
  }

  lemma {:induction false} LegibleSplit(a: seq<Line<KvRecord>>, b: seq<Line<KvRecord>>)
    ensures Legible(a + b) == Legible(a) + Legible(b)
    decreases b
  {
    if b == [] {
      assert a + b == a;
    } else {
      LegibleSplit(a, b[..|b| - 1]);
      assert (a + b)[..|a + b| - 1] == a + b[..|b| - 1];
    }
  }

  lemma ArchivedSequences(disk: KvDisk, next: nat)
    requires disk.snapshot.Some? && disk.snapshot.value.sequence == next - 1
    ensures SequencesContinue(disk, next) ==> SequencesContinue(Archived(disk), next)
  {
    LegibleSplit(disk.archive, disk.wal.lines);
    assert AllRecords(Archived(disk)) == AllRecords(disk);
  }

  // -------------------------------------------------------------------------- the store

  class KVStore {
    const manager: PersistenceManager
    var data: Data

    ghost predicate Valid()
      reads this, manager
    {
      manager.Valid() && AllSets(manager.pending)
    }

    /** Memory is what the log will give once the queue has been written. */
    ghost predicate Agrees()
      reads this, manager
    {
      data == ApplyAll(Recovered(manager.disk), manager.pending)
    }

    /** open: the recovered operations are replayed one by one; it fails exactly when the log is not text. */
    static method Open(files: PersistenceManager) returns (r: Result<KVStore>)
      requires files.Valid() && files.pending == []
      ensures r.Ok? <==> TextOnly(files.disk.wal.lines)
      ensures r.Ok? ==> fresh(r.value) && r.value.manager == files && r.value.Valid() && r.value.Agrees() && r.value.data == Recovered(files.disk)
    {
      var operations := files.Recover();
      if operations.Err? {
        return Err;
      }
      var store := new KVStore(files, operations.value);
      r := Ok(store);
    }

    constructor (files: PersistenceManager, operations: seq<Operation>)
      ensures manager == files && data == ApplyAll(map[], operations)
    {
      manager, data := files, map[];
      new;
      for i := 0 to |operations|
        modifies this`data
        invariant data == ApplyAll(map[], operations[..i])
      {
        ApplyNext(map[], operations, i);
        data := ApplyOne(data, operations[i]);
      }
      assert operations[..|operations|] == operations;
    }

    /** What every synchronous write does: log first, then memory. Memory and log still agree exactly when
        the write overtakes nothing. */
    method LogAndApply(op: Operation)
      requires Valid() && !manager.disk.wal.unterminated
      modifies this`data, manager
      ensures Valid() && !manager.disk.wal.unterminated && manager.pending == old(manager.pending)
      ensures data == ApplyOne(old(data), op)
      ensures manager.disk == LogOne(old(manager.disk), old(manager.nextSequence), op)
      ensures Recovered(manager.disk) == ApplyOne(Recovered(old(manager.disk)), op)
      ensures old(Agrees()) ==> (Agrees() <==> !Overtakes(old(manager.pending), op))
    {
      OvertakingIsExact(Recovered(manager.disk), manager.pending, op);
      LogOneIsApplied(manager.disk, manager.nextSequence, op);
      manager.LogOperationSync(op);
      data := ApplyOne(data, op);
    }

    method Set(key: string, value: string)
      requires Valid() && !manager.disk.wal.unterminated
      modifies this`data, manager
      ensures Valid() && data == old(data)[key := value]
      ensures old(Agrees()) ==> (Agrees() <==> !Overtakes(old(manager.pending), Operation.Set(key, value)))
    {
      LogAndApply(Operation.Set(key, value));
    }

    method Delete(key: string) returns (existed: bool)
      requires Valid() && !manager.disk.wal.unterminated
      modifies this`data, manager
      ensures Valid() && data == old(data) - {key} && (existed <==> key in old(data))
      ensures old(Agrees()) ==> (Agrees() <==> !Overtakes(old(manager.pending), Operation.Delete(key)))
    {
      existed := key in data;
      LogAndApply(Operation.Delete(key));
    }

    method Clear()
      requires Valid() && !manager.disk.wal.unterminated
      modifies this`data, manager
      ensures Valid() && data == map[]
      ensures old(Agrees()) ==> (Agrees() <==> old(manager.pending) == [])
    {
      LogAndApply(Operation.Clear);
    }

    /** set_async always keeps memory and log in agreement. */
    method SetAsync(key: string, value: string)
      requires Valid()
      modifies this`data, manager`pending
      ensures Valid() && data == old(data)[key := value]
      ensures old(Agrees()) ==> Agrees()
    {
      assert (manager.pending + [Operation.Set(key, value)])[..|manager.pending|] == manager.pending;
      manager.LogOperationAsync(Operation.Set(key, value));
      data := data[key := value];
    }

    /** After a flush, a crash at any moment recovers what memory holds. */
    method Flush()
      requires Valid() && !manager.disk.wal.unterminated
      modifies manager
      ensures Valid() && manager.pending == [] && data == old(data)
      ensures manager.disk == Logged(old(manager.disk), old(manager.nextSequence), old(manager.pending))
      ensures old(Agrees()) ==> Agrees() && Recovered(manager.disk) == data
    {
      LoggedIsApplied(manager.disk, manager.nextSequence, manager.pending);
      manager.Flush();
    }

    /** snapshot: with agreement before, a crash recovers what memory holds after the rename and before the
        archiving as well as after both. After both it does so in any case. */
    method Snapshot(entries: seq<(string, string)>) returns (ghost between: KvDisk)
      requires Valid() && !manager.disk.wal.unterminated && Lists(entries, data)
      modifies manager
      ensures Valid() && data == old(data) && Agrees() && Recovered(manager.disk) == data
      ensures old(Agrees()) ==> Recovered(between) == data
    {
      ListedBack(entries, data);
      LoggedIsApplied(manager.disk, manager.nextSequence, manager.pending);
      ghost var flushed := Logged(manager.disk, manager.nextSequence, manager.pending);
      between := manager.CreateSnapshot(entries);
      FlushedOperations(flushed, between, entries);
      assert RecoveredOperations(manager.disk) == EntryOperations(entries);
    }
  }

  /** A record synced onto an unterminated last line cannot be read back, and the record that line may have
      held is lost with it; onto a terminated log it always can. */
  lemma SyncedSurvivesIffTerminated(disk: KvDisk, sequence: nat, op: Operation)
    requires disk.wal.unterminated ==> disk.wal.lines != []
    requires forall i :: 0 <= i < |Legible(disk.wal.lines)| ==> Legible(disk.wal.lines)[i].sequence < sequence
    ensures KvRecord(sequence, op) in Legible(Append(disk.wal, Full(KvRecord(sequence, op))).lines) <==> !disk.wal.unterminated
  {
    var record := KvRecord(sequence, op);
    LegibleAppend(disk.wal, Full(record));
    if disk.wal.unterminated {
      var init := disk.wal.lines[..|disk.wal.lines| - 1];
      assert forall i :: 0 <= i < |Legible(init)| ==> Legible(init)[i] == Legible(disk.wal.lines)[i];
    }
  }
}
