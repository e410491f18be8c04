/** The write-ahead log as a file of lines, and what replay can read of it (log_transaction and replay_wal
    in src/sql/database.rs, log_operation_sync in src/persistence.rs). */
module Wal {
  /** A line is a record of type R whose checksum holds, other text, or bytes that are not UTF-8. */
  datatype Line<R> = Whole(record: R) | Torn | Garbled

  /** unterminated: the last line has no newline, so the next append continues it. */
  datatype Wal<R> = Wal(lines: seq<Line<R>>, unterminated: bool)

  /** How much of an append reaches the file: some bytes of the record, the last of them perhaps in the middle
      of a character, all but its newline, or all. */
  datatype Piece<R> = Partial(cut: bool) | NoNewline(record: R) | Full(record: R)

  predicate CutsCharacter<R>(piece: Piece<R>) {
    piece.Partial? && piece.cut
  }

  function LineOf<R>(piece: Piece<R>): Line<R> {
    match piece
    case Partial(cut) => if cut then Garbled else Torn
    case NoNewline(record) => Whole(record)
    case Full(record) => Whole(record)
  }

  /** What an unterminated line becomes when it is continued. */
  function Continued<R>(line: Line<R>, piece: Piece<R>): Line<R> {
    if line.Garbled? || CutsCharacter(piece) then Garbled else Torn
  }

  /** A file opened for append continues an unterminated last line, and spoils it. */
  function Append<R>(wal: Wal<R>, piece: Piece<R>): Wal<R> {
    var last := |wal.lines| - 1;
    Wal(if wal.unterminated && wal.lines != [] then wal.lines[..last] + [Continued(wal.lines[last], piece)] else wal.lines + [LineOf(piece)],
        !piece.Full?)
  }

  /** Only whole, terminated lines. */
  predicate Clean<R>(wal: Wal<R>) {
    !wal.unterminated && forall i :: 0 <= i < |wal.lines| ==> wal.lines[i].Whole?
  }

  /** Replay stops at the first line that is not a record. */
  function Readable<R>(lines: seq<Line<R>>): seq<R> {
    if lines == [] || !lines[0].Whole? then [] else [lines[0].record] + Readable(lines[1..])
  }

  lemma {:induction false} ReadableAppend<R>(lines: seq<Line<R>>, line: Line<R>)
    ensures (forall i :: 0 <= i < |lines| ==> lines[i].Whole?) && line.Whole? ==>
              Readable(lines + [line]) == Readable(lines) + [line.record]
    ensures !line.Whole? || (exists i :: 0 <= i < |lines| && !lines[i].Whole?) ==> Readable(lines + [line]) == Readable(lines)
    decreases lines
  {
    if lines != [] {
      assert (lines + [line])[1..] == lines[1..] + [line];
      ReadableAppend(lines[1..], line);
    }
  }

  /** What can be read of the first n lines, when they are all whole. */
  lemma {:induction false} ReadablePrefix<R>(lines: seq<Line<R>>, n: nat)
    requires n <= |lines| && forall i :: 0 <= i < n ==> lines[i].Whole?
    ensures |Readable(lines[..n])| == n && Readable(lines[..n]) <= Readable(lines)
    ensures n < |lines| && lines[n].Whole? ==> Readable(lines[..n + 1]) == Readable(lines[..n]) + [lines[n].record]
    ensures n == |lines| || !lines[n].Whole? ==> Readable(lines) == Readable(lines[..n])
    decreases n
  {
    if n > 0 {
      ReadablePrefix(lines[1..], n - 1);
      assert lines[..n][1..] == lines[1..][..n - 1];
      if n < |lines| {
        assert lines[..n + 1][1..] == lines[1..][..n];
      }
    }
  }

  /** The last line was written in full except for its newline. */
  predicate LastAtRisk<R>(wal: Wal<R>) {
    wal.unterminated && forall i :: 0 <= i < |wal.lines| ==> wal.lines[i].Whole?
  }

  /** An append onto a clean log adds its record when all of the record arrives; onto any other log it never
      adds a record, and it loses the last one when that line was whole and unterminated. */
  lemma AppendReads<R>(wal: Wal<R>, piece: Piece<R>)
    requires wal.unterminated ==> wal.lines != []
    ensures var before, after := Readable(wal.lines), Readable(Append(wal, piece).lines);
            if Clean(wal) then after == before + (if piece.Partial? then [] else [piece.record])
            else if LastAtRisk(wal) then before != [] && after == before[..|before| - 1]
            else after == before
  {
    if wal.unterminated {
      var last := |wal.lines| - 1;
      assert wal.lines == wal.lines[..last] + [wal.lines[last]];
      ReadableAppend(wal.lines[..last], wal.lines[last]);
      ReadableAppend(wal.lines[..last], Continued(wal.lines[last], piece));
    } else {
      ReadableAppend(wal.lines, LineOf(piece));
    }
  }

  // ------------------------------------------------------------- lines that are not text

  predicate AllWhole<R>(lines: seq<Line<R>>) {
    forall i :: 0 <= i < |lines| ==> lines[i].Whole?
  }

  predicate TextOnly<R>(lines: seq<Line<R>>) {
    forall i :: 0 <= i < |lines| ==> !lines[i].Garbled?
  }

  /** Replay reaches a line that is not text, and fails. */
  predicate Unreadable<R>(lines: seq<Line<R>>) {
    var n := |Readable(lines)|;
    n < |lines| && lines[n].Garbled?
  }

  lemma {:induction false} ReadsUpTo<R>(lines: seq<Line<R>>)
    ensures var n := |Readable(lines)|;
            n <= |lines| && AllWhole(lines[..n]) && (n < |lines| ==> !lines[n].Whole?)
    decreases lines
  {
    if lines != [] && lines[0].Whole? {
      ReadsUpTo(lines[1..]);
      var n := |Readable(lines[1..])|;
      assert lines[..n + 1] == [lines[0]] + lines[1..][..n];
    }
  }

  lemma TextIsReadable<R>(lines: seq<Line<R>>)
    ensures TextOnly(lines) || AllWhole(lines) ==> !Unreadable(lines)
  {
    ReadsUpTo(lines);
  }

  /** The lines before the one that the next append makes or continues. */
  function Settled<R>(wal: Wal<R>): seq<Line<R>> {
    if wal.unterminated && wal.lines != [] then wal.lines[..|wal.lines| - 1] else wal.lines
  }

  lemma {:induction false} UnreadableWith<R>(lines: seq<Line<R>>, line: Line<R>)
    ensures Unreadable(lines + [line]) <==> Unreadable(lines) || (AllWhole(lines) && line.Garbled?)
    decreases lines
  {
    if lines == [] {
      assert [line][1..] == [];
    } else if lines[0].Whole? {
      assert (lines + [line])[1..] == lines[1..] + [line];
      UnreadableWith(lines[1..], line);
      assert forall i :: 0 < i < |lines| ==> lines[i] == lines[1..][i - 1];
    }
  }

  /** An append makes a log unreadable if and only if it ends within a character and everything before it is a
      record. */
  lemma AppendFailsIffCut<R>(wal: Wal<R>, piece: Piece<R>)
    requires wal.unterminated ==> wal.lines != []
    ensures Unreadable(Append(wal, piece).lines)
       <==> Unreadable(wal.lines) || (CutsCharacter(piece) && AllWhole(Settled(wal)))
  {
    if wal.unterminated {
      var last := |wal.lines| - 1;
      assert wal.lines == wal.lines[..last] + [wal.lines[last]];
      UnreadableWith(wal.lines[..last], wal.lines[last]);
      UnreadableWith(wal.lines[..last], Continued(wal.lines[last], piece));
    } else {
      UnreadableWith(wal.lines, LineOf(piece));
    }
  }

  lemma AppendIsTextIffNotCut<R>(wal: Wal<R>, piece: Piece<R>)
    requires wal.unterminated ==> wal.lines != []
    ensures TextOnly(Append(wal, piece).lines) <==> TextOnly(wal.lines) && !CutsCharacter(piece)
  {
    var after := Append(wal, piece).lines;
    var last := |after| - 1;
    assert forall i :: 0 <= i < last ==> after[i] == wal.lines[i];
    assert after[last] == if wal.unterminated then Continued(wal.lines[last], piece) else LineOf(piece);
    assert forall i :: 0 <= i < |wal.lines| && i != last ==> wal.lines[i] == after[i];
  }
}
