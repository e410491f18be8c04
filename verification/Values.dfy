/** Scalar values, three-valued logic and comparison (src/sql/types.rs). */
module Values {
  import opened Wrappers
  import Like

  datatype DataType = IntegerType | FloatType | TextType | BooleanType | NullType

  /** FLOAT is a real number: rounding, NaN and negative zero are not modelled. INTEGER is unbounded. */
  datatype Value = Integer(i: int) | Float(f: real) | Text(s: string) | Boolean(b: bool) | Null

  type Row = seq<Value>

  datatype Ordering = Less | Equal | Greater

  datatype SqlTruth = True | False | Unknown

  datatype ComparisonOp = Eq | Ne | Lt | Le | Gt | Ge | LikeOp

  // ---------------------------------------------------------------- typing

  function TypeOf(v: Value): DataType {
    match v
    case Integer(_) => IntegerType
    case Float(_) => FloatType
    case Text(_) => TextType
    case Boolean(_) => BooleanType
    case Null => NullType
  }

  predicate IsCompatibleWith(v: Value, t: DataType) {
    v.Null? || TypeOf(v) == t || (v.Integer? && t == FloatType)
  }

  function CoerceTo(v: Value, t: DataType): Option<Value> {
    match v
    case Null => Some(Null)
    case Integer(i) =>
      if t == IntegerType then Some(v) else if t == FloatType then Some(Float(i as real)) else None
    case _ => if TypeOf(v) == t then Some(v) else None
  }

  // ------------------------------------------------------- three-valued logic

  function Truth(v: Value): SqlTruth {
    match v
    case Boolean(b) => if b then True else False
    case Null => Unknown
    case Integer(i) => if i == 0 then False else True
    case Float(f) => if f == 0.0 then False else True
    case Text(s) => if s == "" then False else True
  }

  function TruthOfBool(b: bool): SqlTruth {
    if b then True else False
  }

  function AndTruth(a: SqlTruth, b: SqlTruth): SqlTruth {
    if a == False || b == False then False
    else if a == True && b == True then True
    else Unknown
  }

  function OrTruth(a: SqlTruth, b: SqlTruth): SqlTruth {
    if a == True || b == True then True
    else if a == False && b == False then False
    else Unknown
  }

  function NotTruth(a: SqlTruth): SqlTruth {
    match a
    case True => False
    case False => True
    case Unknown => Unknown
  }

  function TruthValue(t: SqlTruth): Value {
    match t
    case True => Boolean(true)
    case False => Boolean(false)
    case Unknown => Null
  }

  // ---------------------------------------------------------------- ordering

  function CompareInt(a: int, b: int): Ordering {
    if a < b then Less else if a == b then Equal else Greater
  }

  function CompareReal(a: real, b: real): Ordering {
    if a < b then Less else if a == b then Equal else Greater
  }

  function CompareBool(a: bool, b: bool): Ordering {
    if a == b then Equal else if b then Less else Greater
  }

  /** Lexicographic order by code point, as Rust orders strings. */
  function CompareText(a: string, b: string): Ordering {
    if a == "" then (if b == "" then Equal else Less)
    else if b == "" then Greater
    else if a[0] < b[0] then Less
    else if b[0] < a[0] then Greater
    else CompareText(a[1..], b[1..])
  }

  function PartialCompare(a: Value, b: Value): Option<Ordering> {
    match (a, b)
    case (Integer(x), Integer(y)) => Some(CompareInt(x, y))
    case (Float(x), Float(y)) => Some(CompareReal(x, y))
    case (Integer(x), Float(y)) => Some(CompareReal(x as real, y))
    case (Float(x), Integer(y)) => Some(CompareReal(x, y as real))
    case (Text(x), Text(y)) => Some(CompareText(x, y))
    case (Boolean(x), Boolean(y)) => Some(CompareBool(x, y))
    case (Null, Null) => Some(Equal)
    case _ => None
  }

  predicate OrderingSatisfies(o: Ordering, op: ComparisonOp) {
    match op
    case Eq => o == Equal
    case Ne => o != Equal
    case Lt => o == Less
    case Le => o != Greater
    case Gt => o == Greater
    case Ge => o != Less
    case LikeOp => false
  }

  /** Value::compare_sql: NULL makes the comparison UNKNOWN; incomparable types compare as different. */
  function CompareSql(a: Value, b: Value, op: ComparisonOp): SqlTruth {
    if a.Null? || b.Null? then Unknown
    else if op == LikeOp then TruthOfBool(a.Text? && b.Text? && Like.LikeMatch(a.s, b.s))
    else
      match PartialCompare(a, b)
      case Some(o) => TruthOfBool(OrderingSatisfies(o, op))
      case None => TruthOfBool(op == Ne)
  }

  // -------------------------------------------------------------- arithmetic

  datatype Arithmetic = Plus | Minus | Times | Over

  /** Rust's i64 division: truncation toward zero. */
  function TruncDiv(a: int, b: int): int
    requires b != 0
  {
    if a >= 0 then (if b > 0 then a / b else -(a / -b))
    else (if b > 0 then -((-a) / b) else (-a) / (-b))
  }

  predicate IsZero(v: Value) {
    v == Integer(0) || v == Float(0.0)
  }

  function IntegerResult(a: int, b: int, op: Arithmetic): int
    requires op == Over ==> b != 0
  {
    match op
    case Plus => a + b
    case Minus => a - b
    case Times => a * b
    case Over => TruncDiv(a, b)
  }

  function FloatResult(a: real, b: real, op: Arithmetic): real
    requires op == Over ==> b != 0.0
  {
    match op
    case Plus => a + b
    case Minus => a - b
    case Times => a * b
    case Over => a / b
  }

  /** The numeric cases shared by numeric_binary and fold_numeric; None is their fall-through case. */
  function NumericResult(a: Value, b: Value, op: Arithmetic): Option<Value>
    requires op == Over ==> !IsZero(b)
  {
    match (a, b)
    case (Integer(x), Integer(y)) => Some(Integer(IntegerResult(x, y, op)))
    case (Integer(x), Float(y)) => Some(Float(FloatResult(x as real, y, op)))
    case (Float(x), Integer(y)) => Some(Float(FloatResult(x, y as real, op)))
    case (Float(x), Float(y)) => Some(Float(FloatResult(x, y, op)))
    case _ => None
  }
}
