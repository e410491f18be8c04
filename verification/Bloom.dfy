/** Index key parts and the Bloom filter over index keys (KeyPart and BloomFilter in src/sql/executor.rs). */
module Bloom {
  import opened Values

  /** Keys order by variant first and by content second; numbers of different types never meet. */
  datatype KeyPart = NullPart | BooleanPart(b: bool) | IntegerPart(i: int) | FloatPart(f: real) | TextPart(s: string)

  type IndexKey = seq<KeyPart>

  function PartOf(v: Value): KeyPart {
    match v
    case Null => NullPart
    case Boolean(b) => BooleanPart(b)
    case Integer(i) => IntegerPart(i)
    case Float(f) => FloatPart(f)
    case Text(s) => TextPart(s)
  }

  function Variant(k: KeyPart): nat {
    match k
    case NullPart => 0
    case BooleanPart(_) => 1
    case IntegerPart(_) => 2
    case FloatPart(_) => 3
    case TextPart(_) => 4
  }

  function OrderParts(a: KeyPart, b: KeyPart): Ordering {
    if Variant(a) != Variant(b) then CompareInt(Variant(a), Variant(b))
    else
      match a
      case NullPart => Equal
      case BooleanPart(x) => CompareBool(x, b.b)
      case IntegerPart(x) => CompareInt(x, b.i)
      case FloatPart(x) => CompareReal(x, b.f)
      case TextPart(x) => CompareText(x, b.s)
  }

  /** compare_key_part */
  predicate ComparePart(a: KeyPart, b: KeyPart, op: ComparisonOp) {
    OrderingSatisfies(OrderParts(a, b), op)
  }

  // ---------------------------------------------------------------- hashing

  /** A rendering of a key as bytes; nothing depends on which one is used. */
  function PartBytes(k: KeyPart): seq<bv8> {
    match k
    case NullPart => [0]
    case BooleanPart(b) => [1, if b then 1 else 0]
    case IntegerPart(i) => [2, (i % 256) as bv8]
    case FloatPart(f) => [3, (f.Floor % 256) as bv8]
    case TextPart(s) => [4] + seq(|s|, j requires 0 <= j < |s| => ((s[j] as int) % 256) as bv8)
  }

  function KeyBytes(key: IndexKey): seq<bv8> {
    if key == [] then [] else PartBytes(key[0]) + KeyBytes(key[1..])
  }

  /** fnv1a: 64-bit FNV-1a from a given seed. */
  function Fnv1a(bytes: seq<bv8>, seed: bv64): bv64 {
    if bytes == [] then seed
    else (Fnv1a(bytes[..|bytes| - 1], seed) ^ (bytes[|bytes| - 1] as bv64)) * 0x100000001b3
  }

  function Mask(position: nat): bv64 {
    (1 as bv64) << ((position % 64) as bv6)
  }

  lemma ShiftedOne(s: bv6)
    ensures (1 as bv64) << s != 0
  {
  }

  lemma MaskNotZero(position: nat)
    ensures Mask(position) != 0
  {
    ShiftedOne((position % 64) as bv6);
  }

  lemma WordOr(word: bv64, mask: bv64, probe: bv64)
    ensures mask != 0 ==> (word | mask) & mask != 0
    ensures word & probe != 0 ==> (word | mask) & probe != 0
  {
  }

  // ------------------------------------------------------------- the filter

  datatype BloomBits = BloomBits(bits: seq<bv64>, hashes: nat) {
    predicate BitSet(position: nat) {
      position / 64 < |bits| && bits[position / 64] & Mask(position) != 0
    }
  }

  type BloomFilter = b: BloomBits | |b.bits| > 0 witness BloomBits([0], 1)

  /** The probe positions of a key: double hashing modulo the number of bits. */
  function Positions(filter: BloomFilter, key: IndexKey): (r: seq<nat>)
    ensures |r| == filter.hashes
    ensures forall i :: 0 <= i < |r| ==> r[i] / 64 < |filter.bits|
  {
    var first := Fnv1a(KeyBytes(key), 0xcbf29ce484222325);
    var second := Fnv1a(KeyBytes(key), 0x84222325cbf29ce4) | 1;
    seq(filter.hashes, i requires 0 <= i < filter.hashes =>
      ((first + ((i % 0x1_0000_0000_0000_0000) as bv64) * second) as int) % (|filter.bits| * 64))
  }

  predicate MightContain(filter: BloomFilter, key: IndexKey) {
    var positions := Positions(filter, key);
    forall i :: 0 <= i < |positions| ==> filter.BitSet(positions[i])
  }

  /** Every bit set in a is set in b, so every key that a passes b passes. */
  ghost predicate Covers(b: BloomFilter, a: BloomFilter) {
    && b.hashes == a.hashes
    && |b.bits| == |a.bits|
    && forall position: nat :: a.BitSet(position) ==> b.BitSet(position)
  }

  function SetBit(filter: BloomFilter, position: nat): (r: BloomFilter)
    requires position / 64 < |filter.bits|
    ensures |r.bits| == |filter.bits| && r.hashes == filter.hashes
  {
    filter.(bits := filter.bits[position / 64 := filter.bits[position / 64] | Mask(position)])
  }

  lemma SetBitCovers(filter: BloomFilter, position: nat)
    requires position / 64 < |filter.bits|
    ensures SetBit(filter, position).BitSet(position)
    ensures Covers(SetBit(filter, position), filter)
  {
    SetBitKeeps(filter, position, position);
    forall p: nat | filter.BitSet(p) ensures SetBit(filter, position).BitSet(p) {
      SetBitKeeps(filter, position, p);
    }
  }

  lemma SetBitKeeps(filter: BloomFilter, position: nat, p: nat)
    requires position / 64 < |filter.bits|
    requires filter.BitSet(p) || p == position
    ensures SetBit(filter, position).BitSet(p)
  {
    var word := filter.bits[position / 64];
    MaskNotZero(position);
    WordOr(word, Mask(position), Mask(p));
    if p / 64 == position / 64 {
      assert SetBit(filter, position).bits[p / 64] == word | Mask(position);
    } else {
      assert SetBit(filter, position).bits[p / 64] == filter.bits[p / 64];
    }
  }

  /** Setting the bits of the first n positions. */
  function SetBits(filter: BloomFilter, positions: seq<nat>, n: nat): (r: BloomFilter)
    requires n <= |positions| && forall i :: 0 <= i < |positions| ==> positions[i] / 64 < |filter.bits|
    ensures |r.bits| == |filter.bits| && r.hashes == filter.hashes
  {
    if n == 0 then filter else SetBit(SetBits(filter, positions, n - 1), positions[n - 1])
  }

  lemma {:induction false} SetBitsCovers(filter: BloomFilter, positions: seq<nat>, n: nat)
    requires n <= |positions| && forall i :: 0 <= i < |positions| ==> positions[i] / 64 < |filter.bits|
    ensures Covers(SetBits(filter, positions, n), filter)
    ensures forall i :: 0 <= i < n ==> SetBits(filter, positions, n).BitSet(positions[i])
  {
    if n > 0 {
      SetBitsCovers(filter, positions, n - 1);
      SetBitCovers(SetBits(filter, positions, n - 1), positions[n - 1]);
    }
  }

  lemma InsertedPasses(filter: BloomFilter, key: IndexKey)
    ensures var r := SetBits(filter, Positions(filter, key), filter.hashes);
            MightContain(r, key) && forall k :: MightContain(filter, k) ==> MightContain(r, k)
  {
    var r := SetBits(filter, Positions(filter, key), filter.hashes);
    SetBitsCovers(filter, Positions(filter, key), filter.hashes);
    forall k ensures Positions(r, k) == Positions(filter, k) {
    }
  }

  /** BloomFilter::insert: no false negatives, and no key that passed before is lost. */
  method Insert(filter: BloomFilter, key: IndexKey) returns (r: BloomFilter)
    ensures MightContain(r, key)
    ensures forall k :: MightContain(filter, k) ==> MightContain(r, k)
  {
    var positions := Positions(filter, key);
    r := filter;
    for i := 0 to |positions|
      invariant r == SetBits(filter, positions, i)
    {
      r := SetBit(r, positions[i]);
    }
    InsertedPasses(filter, key);
  }

  /** BloomFilter::new with a given size: no bit is set, so with any hash at all no key passes. */
  method Empty(words: nat, hashes: nat) returns (r: BloomFilter)
    requires words > 0 && hashes > 0
    ensures r.hashes == hashes && |r.bits| == words
    ensures forall k :: !MightContain(r, k)
  {
    r := BloomBits(seq(words, _ => 0), hashes);
    forall k ensures !MightContain(r, k) {
      assert !r.BitSet(Positions(r, k)[0]);
    }
  }

  /** A filter for an expected number of keys. The engine sizes it from a false-positive rate; any positive
      size will do for the answers. */
  method SizedFor(expected: nat) returns (r: BloomFilter)
    ensures forall k :: !MightContain(r, k)
  {
    r := Empty(expected / 6 + 1, 7);
  }
}
