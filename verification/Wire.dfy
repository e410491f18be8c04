/** Length-encoded integers and binary result rows (src/wire/protocol.rs), as the MySQL Client/Server Protocol
    describes them under "Protocol::LengthEncodedInteger" and "Binary Protocol Resultset Row". */
module Wire {
  import opened Wrappers

  type Byte = b: int | 0 <= b < 256

  // -------------------------------------------------------------------- little endian

  function Power256(n: nat): (p: nat)
    ensures p > 0
  {
    if n == 0 then 1 else 256 * Power256(n - 1)
  }

  function LittleEndian(v: nat, n: nat): (r: seq<Byte>)
    ensures |r| == n
  {
    if n == 0 then [] else [v % 256] + LittleEndian(v / 256, n - 1)
  }

  function FromLittleEndian(bytes: seq<Byte>): nat {
    if bytes == [] then 0 else bytes[0] + 256 * FromLittleEndian(bytes[1..])
  }

  lemma {:induction false} LittleEndianReads(v: nat, n: nat)
    requires v < Power256(n)
    ensures FromLittleEndian(LittleEndian(v, n)) == v
    decreases n
  {
    if n > 0 {
      LittleEndianReads(v / 256, n - 1);
      assert LittleEndian(v, n)[1..] == LittleEndian(v / 256, n - 1);
    }
  }

  lemma Powers()
    ensures Power256(2) == 0x1_0000 && Power256(3) == 0x100_0000 && Power256(8) == 0x1_0000_0000_0000_0000
  {
    assert Power256(1) == 256;
    assert Power256(4) == 256 * Power256(3) && Power256(5) == 256 * Power256(4) && Power256(6) == 256 * Power256(5);
    assert Power256(7) == 256 * Power256(6);
  }

  // ------------------------------------------------------------ length-encoded integers

  type U64 = v: int | 0 <= v < 0x1_0000_0000_0000_0000

  /** encode_lenenc_int */
  function EncodeLenenc(v: U64): seq<Byte> {
    if v < 251 then [v]
    else if v < 0x1_0000 then [0xFC] + LittleEndian(v, 2)
    else if v < 0x100_0000 then [0xFD] + LittleEndian(v, 3)
    else [0xFE] + LittleEndian(v, 8)
  }

  /** How many bytes follow the first one. */
  function FollowingBytes(first: Byte): nat {
    if first == 0xFC then 2 else if first == 0xFD then 3 else if first == 0xFE then 8 else 0
  }

  /** read_lenenc_int from a position: the value and the position behind it. */
  function ReadLenenc(data: seq<Byte>, pos: nat): (r: Option<(nat, nat)>)
    ensures r.Some? ==> pos < r.value.1 <= |data|
  {
    if pos >= |data| then None
    else
      var n := FollowingBytes(data[pos]);
      if pos + 1 + n > |data| then None
      else if n == 0 then Some((data[pos], pos + 1))
      else Some((FromLittleEndian(data[pos + 1..pos + 1 + n]), pos + 1 + n))
  }

  /** Every 64-bit value is read back, wherever it stands. */
  lemma LenencRoundTrip(before: seq<Byte>, v: U64, after: seq<Byte>)
    ensures ReadLenenc(before + EncodeLenenc(v) + after, |before|) == Some((v, |before| + |EncodeLenenc(v)|))
  {
    Powers();
    var data, code := before + EncodeLenenc(v) + after, EncodeLenenc(v);
    assert data[|before|] == code[0];
    var n := FollowingBytes(code[0]);
    assert |code| == n + 1;
    if n > 0 {
      assert data[|before| + 1..|before| + 1 + n] == code[1..];
      assert code[1..] == LittleEndian(v, n);
      LittleEndianReads(v, n);
    }
  }

  /** read_lenenc_int with its advancing position. */
  method ReadLenencInt(data: seq<Byte>, start: nat) returns (value: Option<nat>, pos: nat)
    ensures value == (if ReadLenenc(data, start).Some? then Some(ReadLenenc(data, start).value.0) else None)
    ensures value.Some? ==> pos == ReadLenenc(data, start).value.1
  {
    pos := start;
    if pos >= |data| {
      return None, pos;
    }
    var first := data[pos];
    pos := pos + 1;
    if first == 0xFC {
      if |data| - pos < 2 {
        return None, pos;
      }
      value := Some((data[pos] as int) + 256 * (data[pos + 1] as int));
      Bytes2(data, pos);
      pos := pos + 2;
    } else if first == 0xFD {
      if |data| - pos < 3 {
        return None, pos;
      }
      value := Some((data[pos] as int) + 256 * (data[pos + 1] as int) + 65536 * (data[pos + 2] as int));
      Bytes3(data, pos);
      pos := pos + 3;
    } else if first == 0xFE {
      if |data| - pos < 8 {
        return None, pos;
      }
      value := Some(FromLittleEndian(data[pos..pos + 8]));
      pos := pos + 8;
    } else {
      value := Some(first);
    }
  }

  lemma Bytes2(data: seq<Byte>, pos: nat)
    requires pos + 2 <= |data|
    ensures FromLittleEndian(data[pos..pos + 2]) == (data[pos] as int) + 256 * (data[pos + 1] as int)
  {
    var s := data[pos..pos + 2];
    assert s[1..] == [data[pos + 1]] && s[1..][1..] == [];
    assert FromLittleEndian(s[1..]) == s[1] + 256 * FromLittleEndian(s[1..][1..]);
  }

  lemma Bytes3(data: seq<Byte>, pos: nat)
    requires pos + 3 <= |data|
    ensures FromLittleEndian(data[pos..pos + 3]) == (data[pos] as int) + 256 * (data[pos + 1] as int) + 65536 * (data[pos + 2] as int)
  {
    var s := data[pos..pos + 3];
    assert s[1..] == data[pos + 1..pos + 3];
    Bytes2(data, pos + 1);
  }

  // -------------------------------------------------------------------------- cells

  /** A result value as the protocol sees it: a DOUBLE by its bits, a string by its bytes. */
  datatype Cell = NullCell | LongLong(i: int) | Double(bits: U64) | Tiny(b: bool) | VarString(bytes: seq<Byte>)

  datatype ColumnType = LongLongType | DoubleType | TinyType | VarStringType

  predicate ValidCell(c: Cell, t: ColumnType) {
    match c
    case NullCell => true
    case LongLong(i) => t == LongLongType && -0x8000_0000_0000_0000 <= i < 0x8000_0000_0000_0000
    case Double(_) => t == DoubleType
    case Tiny(_) => t == TinyType
    case VarString(bytes) => t == VarStringType && |bytes| < 0x1_0000_0000_0000_0000
  }

  /** The bytes of a cell that is not NULL: integers in two's complement. */
  function CellBytes(c: Cell): seq<Byte>
    requires c.LongLong? ==> -0x8000_0000_0000_0000 <= c.i < 0x8000_0000_0000_0000
    requires c.VarString? ==> |c.bytes| < 0x1_0000_0000_0000_0000
  {
    match c
    case NullCell => []
    case LongLong(i) => LittleEndian(if i < 0 then i + 0x1_0000_0000_0000_0000 else i, 8)
    case Double(bits) => LittleEndian(bits, 8)
    case Tiny(b) => [if b then 1 else 0]
    case VarString(bytes) => EncodeLenenc(|bytes|) + bytes
  }

  /** A client's reading of one cell that the bitmap does not call NULL. */
  function ReadCell(t: ColumnType, data: seq<Byte>, pos: nat): Option<(Cell, nat)> {
    match t
    case LongLongType =>
      if pos + 8 > |data| then None
      else
        var u := FromLittleEndian(data[pos..pos + 8]);
        Some((LongLong(if u >= 0x8000_0000_0000_0000 then u - 0x1_0000_0000_0000_0000 else u), pos + 8))
    case DoubleType =>
      if pos + 8 > |data| || FromLittleEndian(data[pos..pos + 8]) >= 0x1_0000_0000_0000_0000 then None
      else Some((Double(FromLittleEndian(data[pos..pos + 8])), pos + 8))
    case TinyType => if pos >= |data| then None else Some((Tiny(data[pos] != 0), pos + 1))
    case VarStringType =>
      var length := ReadLenenc(data, pos);
      if length.None? || length.value.1 + length.value.0 > |data| then None
      else Some((VarString(data[length.value.1..length.value.1 + length.value.0]), length.value.1 + length.value.0))
  }

  lemma Standing(before: seq<Byte>, code: seq<Byte>, after: seq<Byte>)
    ensures var data := before + code + after;
            |before| + |code| <= |data| && data[|before|..|before| + |code|] == code
    ensures code != [] ==> (before + code + after)[|before|] == code[0]
  {
  }

  lemma NumberRoundTrip(before: seq<Byte>, v: U64, after: seq<Byte>)
    ensures var data := before + LittleEndian(v, 8) + after;
            |before| + 8 <= |data| && FromLittleEndian(data[|before|..|before| + 8]) == v
  {
    Standing(before, LittleEndian(v, 8), after);
    Powers();
    LittleEndianReads(v, 8);
  }

  lemma StringRoundTrip(before: seq<Byte>, bytes: seq<Byte>, after: seq<Byte>)
    requires |bytes| < 0x1_0000_0000_0000_0000
    ensures var code := EncodeLenenc(|bytes|);
            ReadCell(VarStringType, before + (code + bytes) + after, |before|) == Some((VarString(bytes), |before| + |code + bytes|))
  {
    var code := EncodeLenenc(|bytes|);
    var data := before + (code + bytes) + after;
    assert data == before + code + (bytes + after) && data == (before + code) + bytes + after;
    LenencRoundTrip(before, |bytes|, bytes + after);
    Standing(before + code, bytes, after);
  }

  lemma CellRoundTrip(before: seq<Byte>, c: Cell, t: ColumnType, after: seq<Byte>)
    requires ValidCell(c, t) && !c.NullCell?
    ensures ReadCell(t, before + CellBytes(c) + after, |before|) == Some((c, |before| + |CellBytes(c)|))
  {
    match c
    case LongLong(i) => NumberRoundTrip(before, if i < 0 then i + 0x1_0000_0000_0000_0000 else i, after);
    case Double(bits) => NumberRoundTrip(before, bits, after);
    case Tiny(b) => Standing(before, CellBytes(c), after);
    case VarString(bytes) => StringRoundTrip(before, bytes, after);
    case NullCell =>
  }

  // --------------------------------------------------------------------- the NULL bitmap

  /** Bitmap bytes are bit vectors; on the wire they are bytes like the others. */
  function Bits(b: Byte): bv8 {
    b as bv8
  }

  function FromBits(b: bv8): Byte {
    b as int
  }

  lemma BitsBack(b: bv8)
    ensures Bits(FromBits(b)) == b
  {
  }

  function Mask(k: nat): bv8
    requires k < 8
  {
    match k
    case 0 => 1
    case 1 => 2
    case 2 => 4
    case 3 => 8
    case 4 => 16
    case 5 => 32
    case 6 => 64
    case _ => 128
  }

  predicate BitOf(b: bv8, k: nat)
    requires k < 8
  {
    b & Mask(k) != 0
  }

  lemma SetBitIs(b: bv8, k: nat, j: nat)
    requires k < 8 && j < 8
    ensures BitOf(b | Mask(k), j) <==> BitOf(b, j) || j == k
  {
    OrBits(b, Mask(k), Mask(j));
    MasksMeet(k, j);
  }

  lemma OrBits(b: bv8, m: bv8, p: bv8)
    ensures (b | m) & p == (b & p) | (m & p)
    ensures (b & p) | (m & p) == 0 <==> b & p == 0 && m & p == 0
  {
  }

  lemma MasksMeet(k: nat, j: nat)
    requires k < 8 && j < 8
    ensures Mask(k) & Mask(j) != 0 <==> k == j
  {
  }

  predicate BitAt(bytes: seq<bv8>, bit: nat)
    requires bit / 8 < |bytes|
  {
    BitOf(bytes[bit / 8], bit % 8)
  }

  /** The bit of column i is bit i + 2. */
  predicate NullBit(values: seq<Cell>, bit: nat) {
    2 <= bit < |values| + 2 && values[bit - 2].NullCell?
  }

  /** The bitmap marks the NULLs among these values and nothing else. */
  ghost predicate Marks(bitmap: seq<bv8>, values: seq<Cell>) {
    forall bit: nat :: bit / 8 < |bitmap| ==> (BitAt(bitmap, bit) <==> NullBit(values, bit))
  }

  function WithBit(bitmap: seq<bv8>, bit: nat): (r: seq<bv8>)
    requires bit / 8 < |bitmap|
    ensures |r| == |bitmap|
  {
    bitmap[bit / 8 := bitmap[bit / 8] | Mask(bit % 8)]
  }

  lemma WithBitIs(bitmap: seq<bv8>, bit: nat, other: nat)
    requires bit / 8 < |bitmap| && other / 8 < |bitmap|
    ensures BitAt(WithBit(bitmap, bit), other) <==> BitAt(bitmap, other) || other == bit
  {
    SetBitIs(bitmap[bit / 8], bit % 8, other % 8);
  }

  lemma NullBitNext(values: seq<Cell>, c: Cell, bit: nat)
    ensures NullBit(values + [c], bit) <==> NullBit(values, bit) || (c.NullCell? && bit == |values| + 2)
  {
  }

  /** One more value: its bit is set when it is NULL. */
  lemma MarkNext(bitmap: seq<bv8>, values: seq<Cell>, c: Cell)
    requires Marks(bitmap, values) && (|values| + 2) / 8 < |bitmap|
    ensures Marks(if c.NullCell? then WithBit(bitmap, |values| + 2) else bitmap, values + [c])
  {
    var marked := if c.NullCell? then WithBit(bitmap, |values| + 2) else bitmap;
    forall bit: nat | bit / 8 < |marked| ensures BitAt(marked, bit) <==> NullBit(values + [c], bit) {
      NullBitNext(values, c, bit);
      if c.NullCell? {
        WithBitIs(bitmap, |values| + 2, bit);
      }
      assert BitAt(bitmap, bit) <==> NullBit(values, bit);
    }
  }

  // --------------------------------------------------------------------------- rows

  predicate ValidCells(values: seq<Cell>, types: seq<ColumnType>) {
    |values| == |types| && forall i :: 0 <= i < |values| ==> ValidCell(values[i], types[i])
  }

  function Payload(values: seq<Cell>, types: seq<ColumnType>): seq<Byte>
    requires ValidCells(values, types)
  {
    if values == [] then [] else CellBytes(values[0]) + Payload(values[1..], types[1..])
  }

  function BitmapLength(columns: nat): nat {
    (columns + 9) / 8
  }

  function OnWire(bitmap: seq<bv8>): (r: seq<Byte>)
    ensures |r| == |bitmap|
  {
    seq(|bitmap|, i requires 0 <= i < |bitmap| => FromBits(bitmap[i]))
  }

  function OffWire(bytes: seq<Byte>): (r: seq<bv8>)
    ensures |r| == |bytes|
  {
    seq(|bytes|, i requires 0 <= i < |bytes| => Bits(bytes[i]))
  }

  lemma BitmapBack(bitmap: seq<bv8>)
    ensures OffWire(OnWire(bitmap)) == bitmap
  {
    forall i | 0 <= i < |bitmap| ensures Bits(FromBits(bitmap[i])) == bitmap[i] {
      BitsBack(bitmap[i]);
    }
  }

  /** A row packet: a zero byte, a bitmap that marks the NULLs from bit 2 on, and the other cells in order. */
  ghost predicate IsBinaryRow(packet: seq<Byte>, values: seq<Cell>, types: seq<ColumnType>)
    requires ValidCells(values, types)
  {
    exists bitmap: seq<bv8> ::
      |bitmap| == BitmapLength(|values|) && Marks(bitmap, values) && packet == ([0] + OnWire(bitmap)) + Payload(values, types)
  }

  /** The payload from cell i on. */
  function PayloadFrom(values: seq<Cell>, types: seq<ColumnType>, i: nat): seq<Byte>
    requires ValidCells(values, types) && i <= |values|
  {
    Payload(values[i..], types[i..])
  }

  lemma PayloadNext(values: seq<Cell>, types: seq<ColumnType>, i: nat)
    requires ValidCells(values, types) && i < |values|
    ensures PayloadFrom(values, types, i) == CellBytes(values[i]) + PayloadFrom(values, types, i + 1)
  {
    assert values[i..][1..] == values[i + 1..] && types[i..][1..] == types[i + 1..];
  }

  lemma PayloadEnds(values: seq<Cell>, types: seq<ColumnType>)
    requires ValidCells(values, types)
    ensures PayloadFrom(values, types, 0) == Payload(values, types) && PayloadFrom(values, types, |values|) == []
  {
    assert values[0..] == values && types[0..] == types;
  }

  /** build_binary_row: bitmap bits are set in place while the cells are appended. */
  method BuildBinaryRow(values: seq<Cell>, ghost types: seq<ColumnType>) returns (packet: seq<Byte>)
    requires ValidCells(values, types)
    ensures IsBinaryRow(packet, values, types)
  {
    var bitmap: seq<bv8> := seq(BitmapLength(|values|), _ => 0);
    var cells: seq<Byte> := [];
    NothingMarked(BitmapLength(|values|));
    PayloadEnds(values, types);
    var i := 0;
    while i < |values|
      invariant i <= |values| && |bitmap| == BitmapLength(|values|) && Marks(bitmap, values[..i])
      invariant cells + PayloadFrom(values, types, i) == Payload(values, types)
    {
      PayloadNext(values, types, i);
      Regrouped(cells, CellBytes(values[i]), PayloadFrom(values, types, i + 1));
      Prefixes(values, i);
      MarkNext(bitmap, values[..i], values[i]);
      if values[i].NullCell? {
        bitmap := WithBit(bitmap, i + 2);
      }
      cells := cells + CellBytes(values[i]);
      i := i + 1;
    }
    assert values[..|values|] == values;
    assert cells + [] == cells;
    packet := ([0] + OnWire(bitmap)) + cells;
  }

  lemma Prefixes(values: seq<Cell>, i: nat)
    requires i < |values|
    ensures values[..i + 1] == values[..i] + [values[i]]
  {
  }

  lemma Regrouped(a: seq<Byte>, b: seq<Byte>, c: seq<Byte>)
    ensures a + (b + c) == (a + b) + c
  {
  }

  lemma NothingMarked(n: nat)
    ensures Marks(seq(n, _ => 0), [])
  {
  }

  function ReadColumn(t: ColumnType, packet: seq<Byte>, isNull: bool, pos: nat): Option<(Cell, nat)> {
    if isNull then Some((NullCell, pos)) else ReadCell(t, packet, pos)
  }

  /** A client's reading of the columns from number i on. */
  function ReadCells(types: seq<ColumnType>, packet: seq<Byte>, bitmap: seq<bv8>, i: nat, pos: nat): Option<(seq<Cell>, nat)>
    requires i <= |types| && |bitmap| == BitmapLength(|types|)
    decreases |types| - i
  {
    if i == |types| then Some(([], pos))
    else
      var cell := ReadColumn(types[i], packet, BitAt(bitmap, i + 2), pos);
      if cell.None? then None
      else
        var rest := ReadCells(types, packet, bitmap, i + 1, cell.value.1);
        if rest.None? then None else Some(([cell.value.0] + rest.value.0, rest.value.1))
  }

  function ReadBinaryRow(types: seq<ColumnType>, packet: seq<Byte>): Option<(seq<Cell>, nat)> {
    var n := BitmapLength(|types|);
    if |packet| < 1 + n || packet[0] != 0 then None
    else ReadCells(types, packet, OffWire(packet[1..1 + n]), 0, 1 + n)
  }

  lemma ColumnRoundTrip(before: seq<Byte>, c: Cell, t: ColumnType, after: seq<Byte>)
    requires ValidCell(c, t)
    ensures ReadColumn(t, before + (CellBytes(c) + after), c.NullCell?, |before|) == Some((c, |before + CellBytes(c)|))
  {
    assert before + (CellBytes(c) + after) == before + CellBytes(c) + after;
    if !c.NullCell? {
      CellRoundTrip(before, c, t, after);
    }
  }

  lemma MarkOf(bitmap: seq<bv8>, values: seq<Cell>, i: nat)
    requires Marks(bitmap, values) && |bitmap| == BitmapLength(|values|) && i < |values|
    ensures BitAt(bitmap, i + 2) == values[i].NullCell?
  {
    assert BitAt(bitmap, i + 2) <==> NullBit(values, i + 2);
  }

  lemma ReadNext(types: seq<ColumnType>, packet: seq<Byte>, bitmap: seq<bv8>, i: nat, pos: nat, c: Cell, next: nat, rest: seq<Cell>, end: nat)
    requires i < |types| && |bitmap| == BitmapLength(|types|)
    requires ReadColumn(types[i], packet, BitAt(bitmap, i + 2), pos) == Some((c, next))
    requires ReadCells(types, packet, bitmap, i + 1, next) == Some((rest, end))
    ensures ReadCells(types, packet, bitmap, i, pos) == Some(([c] + rest, end))
  {
  }

  /** Reading from column i on gives back the values from i on and ends at the end of the packet. */
  lemma {:induction false} CellsRoundTrip(before: seq<Byte>, bitmap: seq<bv8>, values: seq<Cell>, types: seq<ColumnType>, i: nat)
    requires ValidCells(values, types) && |bitmap| == BitmapLength(|values|) && Marks(bitmap, values) && i <= |values|
    ensures var packet := before + PayloadFrom(values, types, i);
            ReadCells(types, packet, bitmap, i, |before|) == Some((values[i..], |packet|))
    decreases |values| - i
  {
    if i == |values| {
      PayloadEnds(values, types);
      assert values[i..] == [];
    } else {
      var code, rest := CellBytes(values[i]), PayloadFrom(values, types, i + 1);
      var packet := before + PayloadFrom(values, types, i);
      PayloadNext(values, types, i);
      MarkOf(bitmap, values, i);
      ColumnRoundTrip(before, values[i], types[i], rest);
      CellsRoundTrip(before + code, bitmap, values, types, i + 1);
      Regrouped(before, code, rest);
      ReadNext(types, packet, bitmap, i, |before|, values[i], |before + code|, values[i + 1..], |packet|);
      assert values[i..] == [values[i]] + values[i + 1..];
    }
  }

  /** A row packet is uniquely decodable: the column types give back every value, and the whole packet is used. */
  lemma BinaryRowRoundTrip(packet: seq<Byte>, values: seq<Cell>, types: seq<ColumnType>)
    requires ValidCells(values, types) && IsBinaryRow(packet, values, types)
    ensures ReadBinaryRow(types, packet) == Some((values, |packet|))
  {
    var bitmap: seq<bv8> :| |bitmap| == BitmapLength(|values|) && Marks(bitmap, values)
                            && packet == ([0] + OnWire(bitmap)) + Payload(values, types);
    BitmapBack(bitmap);
    assert packet[1..1 + |bitmap|] == OnWire(bitmap);
    PayloadEnds(values, types);
    CellsRoundTrip([0] + OnWire(bitmap), bitmap, values, types, 0);
    assert values[0..] == values;
  }
}
