/** Text keys of values and rows (value_key, row_key and hash_join_key in src/sql/executor.rs). */
module Keys {
  import opened Values

  function Digit(d: nat): char
    requires d < 10
  {
    (('0' as int) + d) as char
  }

  function NatText(n: nat): string {
    if n < 10 then [Digit(n)] else NatText(n / 10) + [Digit(n % 10)]
  }

  function IntText(i: int): string {
    if i < 0 then "-" + NatText(-i) else NatText(i)
  }

  function Pow2(n: nat): (r: real)
    ensures r > 0.0
  {
    if n == 0 then 1.0 else 2.0 * Pow2(n - 1)
  }

  /** The smallest positive 64-bit float is 2 to the minus 1074. */
  const SCALE_BITS: nat := 1074

  function Scaled(f: real): real {
    f * Pow2(SCALE_BITS)
  }

  /** Every finite 64-bit float is a whole multiple of 2^-1074, and that multiple names it. */
  function FloatText(f: real): string {
    IntText(Scaled(f).Floor)
  }

  predicate IsDouble(f: real) {
    Scaled(f).Floor as real == Scaled(f)
  }

  function ValueKey(v: Value): string {
    match v
    case Null => "n"
    case Boolean(b) => if b then "b:true" else "b:false"
    case Integer(i) => "i:" + IntText(i)
    case Float(f) => "f:" + FloatText(f)
    case Text(s) => "s:" + NatText(|s|) + ":" + s
  }

  const SEPARATOR: char := '\U{1f}'

  function RowKey(row: Row): string {
    if row == [] then ""
    else if |row| == 1 then ValueKey(row[0])
    else ValueKey(row[0]) + [SEPARATOR] + RowKey(row[1..])
  }

  /** hash_join_key: numbers share one key space, everything else keeps its value key. */
  datatype JoinKey = Number(r: real) | Other(key: string)

  function HashJoinKey(v: Value): JoinKey {
    match v
    case Integer(i) => Number(i as real)
    case Float(f) => Number(f)
    case _ => Other(ValueKey(v))
  }
}
