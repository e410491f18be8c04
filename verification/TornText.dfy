/** Which crashes tear a log line within a character: the byte at which an append stops, the text of the record,
    and what opening makes of it (src/sql/database.rs, src/persistence.rs). */
module TornText {
  import opened Wal
  import opened Transactions
  import opened Serializability
  import opened Durability
  import opened Utf8

  /** The text of a record, written without its newline. */
  type Writer<!R> = R -> seq<CodePoint>

  /** What reaches the file when n bytes of the line and its newline do. */
  function PieceAt<R>(write: Writer<R>, record: R, n: nat): Piece<R> {
    var bytes := Encode(write(record));
    if n < |bytes| then Partial(!IsText(bytes[..n]))
    else if n == |bytes| then NoNewline(record)
    else Full(record)
  }

  /** Some cut of a record is not text if and only if the record has a character outside ASCII. */
  lemma CutIffNotAscii<R>(write: Writer<R>, record: R)
    ensures (exists n: nat :: CutsCharacter(PieceAt(write, record, n))) <==> !IsAscii(write(record))
  {
    var s := write(record);
    EveryCutIsTextIffAscii(s);
    if !IsAscii(s) {
      var n := OtherIsCut(s);
      PrefixIsTextIffBoundary(s, n);
      assert CutsCharacter(PieceAt(write, record, n));
    }
    forall n: nat | IsAscii(s) ensures !CutsCharacter(PieceAt(write, record, n)) {
      if n < |Encode(s)| {
        assert IsText(Encode(s)[..n]);
      }
    }
  }

  /** The record that was being written when this crash struck. */
  function Interrupts<T, S, Q, A>(a: System<T, S, Q, A>, action: Action<S, Q>): Record<S>
    requires a.Up? && (action.CrashInAutocommit? || (action.CrashInCommit? && action.id in a.sessions))
  {
    var v := a.server.catalog.version;
    Record(v, v + 1, if action.CrashInAutocommit? then [action.statement] else a.sessions[action.id].statements)
  }

  predicate IsTorn<T, S, Q, A>(a: System<T, S, Q, A>, action: Action<S, Q>) {
    a.Up? && (action.CrashInAutocommit? || (action.CrashInCommit? && action.id in a.sessions))
  }

  /** The torn records of a run, each cut at some byte, were ASCII. */
  ghost predicate TornAreAscii<T, S, Q, A>(write: Writer<Record<S>>, states: seq<System<T, S, Q, A>>, actions: seq<Action<S, Q>>, n: nat)
    requires n <= |actions| && n <= |states|
  {
    forall k :: 0 <= k < n && IsTorn(states[k], actions[k]) ==>
      && IsAscii(write(Interrupts(states[k], actions[k])))
      && exists m: nat :: actions[k].piece == PieceAt(write, Interrupts(states[k], actions[k]), m)
  }

  /** A run of dependable statements opens after every crash when the records that crashes tore were ASCII. */
  lemma AsciiRunsOpen<T(!new), M, S(!new), Q(!new), A>(L: Language<T, M, S, Q, A>, write: Writer<Record<S>>, states: seq<System<T, S, Q, A>>, actions: seq<Action<S, Q>>, n: nat)
    requires Lawful(L) && Agrees(L) && IsRun(L, states, actions) && n < |actions|
    requires forall k :: 0 <= k < n ==> DependableAction(L, states[k], actions[k])
    requires TornAreAscii(write, states, actions, n)
    ensures actions[n] != FailToOpen
  {
    forall k | 0 <= k < n ensures !CutsText(actions[k]) {
      assert Step(L, states[k], actions[k], states[k + 1]);
      if CutsText(actions[k]) {
        CutIffNotAscii(write, Interrupts(states[k], actions[k]));
      }
    }
    RunsRecover(L, states, actions, n, n);
  }
}
