/** What three-valued logic, comparison, coercion and division mean, apart from how they are computed
    (src/sql/types.rs, numeric_binary in src/sql/executor.rs). */
module ValueLaws {
  import opened Wrappers
  import opened Values
  import opened Relations
  import Grouping

  // --------------------------------------------------------------- UNKNOWN as missing knowledge

  /** A truth value that b may turn out to be: UNKNOWN may turn out either way. */
  predicate MayBe(t: SqlTruth, b: bool) {
    t == Unknown || t == TruthOfBool(b)
  }

  /** AND is TRUE or FALSE exactly when every way its operands may turn out agrees on that. */
  lemma AndIsAgreement(a: SqlTruth, b: SqlTruth, v: bool)
    ensures AndTruth(a, b) == TruthOfBool(v) <==> forall x, y :: MayBe(a, x) && MayBe(b, y) ==> (x && y) == v
  {
    var x, y := a == True, b == True;
    assert MayBe(a, x) && MayBe(b, y) && (a == Unknown ==> MayBe(a, !x)) && (b == Unknown ==> MayBe(b, !y));
  }

  lemma OrIsAgreement(a: SqlTruth, b: SqlTruth, v: bool)
    ensures OrTruth(a, b) == TruthOfBool(v) <==> forall x, y :: MayBe(a, x) && MayBe(b, y) ==> (x || y) == v
  {
    var x, y := a == True, b == True;
    assert MayBe(a, x) && MayBe(b, y) && (a == Unknown ==> MayBe(a, !x)) && (b == Unknown ==> MayBe(b, !y));
  }

  lemma NotIsAgreement(a: SqlTruth, v: bool)
    ensures NotTruth(a) == TruthOfBool(v) <==> forall x :: MayBe(a, x) ==> !x == v
  {
    assert MayBe(a, a == True) && (a == Unknown ==> MayBe(a, true));
  }

  // ------------------------------------------------------------------------- comparison

  /** Two numbers, two texts or two booleans. */
  predicate Comparable(a: Value, b: Value) {
    (IsNumber(a) && IsNumber(b)) || (a.Text? && b.Text?) || (a.Boolean? && b.Boolean?)
  }

  predicate Holds(a: Value, op: ComparisonOp, b: Value) {
    CompareSql(a, b, op) == True
  }

  function Amount(v: Value): real
    requires IsNumber(v)
  {
    if v.Integer? then v.i as real else v.f
  }

  /** Numbers are equal by amount, whatever their types; texts and booleans by themselves. */
  predicate SameContent(a: Value, b: Value) {
    if IsNumber(a) && IsNumber(b) then Amount(a) == Amount(b) else a == b
  }

  /** On comparable values the six operators are those of one total order; other non-NULL values are only
      different; and a NULL makes every comparison UNKNOWN. */
  lemma ComparisonIsOrder(a: Value, b: Value)
    ensures a.Null? || b.Null? <==> forall op :: CompareSql(a, b, op) == Unknown
    ensures Holds(a, Ne, b) <==> !a.Null? && !b.Null? && !Holds(a, Eq, b)
    ensures !a.Null? && !b.Null? ==> (Holds(a, Eq, b) <==> SameContent(a, b))
    ensures Holds(a, Le, b) <==> Holds(a, Lt, b) || Holds(a, Eq, b)
    ensures Holds(a, Lt, b) <==> Holds(b, Gt, a)
    ensures Holds(a, Le, b) <==> Holds(b, Ge, a)
    ensures Comparable(a, b) <==> Holds(a, Le, b) || Holds(b, Le, a)
    ensures !(Holds(a, Lt, b) && Holds(b, Le, a))
  {
    if a.Text? && b.Text? {
      Grouping.CompareTextIs(a.s, b.s);
      Grouping.CompareTextIs(b.s, a.s);
    }
    assert a.Null? || b.Null? || CompareSql(a, b, Eq) != Unknown;
  }

  lemma ComparisonIsTransitive(a: Value, b: Value, c: Value)
    requires Holds(a, Le, b) && Holds(b, Le, c)
    ensures Holds(a, Le, c)
    ensures Holds(a, Lt, b) || Holds(b, Lt, c) ==> Holds(a, Lt, c)
  {
    if a.Text? {
      Grouping.CompareTextIs(a.s, b.s);
      Grouping.CompareTextIs(b.s, c.s);
      if CompareText(a.s, b.s) == Less && CompareText(b.s, c.s) == Less {
        Grouping.CompareTextTransitive(a.s, b.s, c.s);
      }
    }
  }

  /** Texts are ordered as their first difference is. */
  lemma {:induction false} TextOrderIsLexicographic(a: string, b: string, n: nat)
    requires n < |a| && n < |b| && a[..n] == b[..n] && a[n] != b[n]
    ensures CompareText(a, b) == if a[n] < b[n] then Less else Greater
    decreases n
  {
    if n > 0 {
      assert a[0] == a[..n][0] && b[0] == b[..n][0];
      assert a[1..][..n - 1] == a[..n][1..] && b[1..][..n - 1] == b[..n][1..];
      TextOrderIsLexicographic(a[1..], b[1..], n - 1);
    }
  }

  // ------------------------------------------------------------------- coercion and division

  /** A value is coerced exactly when it is compatible, to the type asked for, and SQL-equal to itself. */
  lemma CoercionKeepsValue(v: Value, t: DataType)
    requires t != NullType
    ensures CoerceTo(v, t).Some? <==> IsCompatibleWith(v, t)
    ensures CoerceTo(v, t).Some? && !v.Null? ==> TypeOf(CoerceTo(v, t).value) == t && Holds(v, Eq, CoerceTo(v, t).value)
    ensures CoerceTo(Null, t) == Some(Null)
  {
    if v.Text? {
      Grouping.CompareTextIs(v.s, v.s);
    }
  }

  function Magnitude(i: int): nat {
    if i < 0 then -i else i
  }

  function Signed(positive: bool, n: int): int {
    if positive then n else -n
  }

  lemma Product(p: bool, y: int, s: bool, q: int)
    ensures Signed(p, y) * Signed(s, q) == Signed(p == s, y * q)
  {
  }

  lemma QuotientSigns(a: int, b: int)
    requires b != 0
    ensures var q := Magnitude(a) / Magnitude(b);
            TruncDiv(a, b) == Signed((a >= 0) == (b > 0), q) && b == Signed(b > 0, Magnitude(b))
  {
  }

  function WholeParts(x: nat, y: nat): int
    requires y > 0
  {
    y * (x / y)
  }

  lemma Remainder(x: nat, y: nat)
    requires y > 0
    ensures 0 <= WholeParts(x, y) && 0 <= x - WholeParts(x, y) < y
  {
  }

  lemma ProductOfQuotient(a: int, b: int)
    requires b != 0
    ensures var parts := WholeParts(Magnitude(a), Magnitude(b));
            b * TruncDiv(a, b) == Signed(a >= 0, parts)
  {
    QuotientSigns(a, b);
    Product(b > 0, Magnitude(b), (a >= 0) == (b > 0), Magnitude(a) / Magnitude(b));
  }

  predicate Truncated(a: int, b: int, product: int) {
    Magnitude(a - product) < Magnitude(b) && (a == product || (a > product <==> a > 0))
  }

  lemma SignedRemainder(a: int, b: int, parts: int)
    requires 0 <= parts && 0 <= Magnitude(a) - parts < Magnitude(b)
    ensures Truncated(a, b, Signed(a >= 0, parts))
  {
  }

  /** Integer division truncates toward zero: the remainder is smaller than the divisor and has the sign of
      the dividend. */
  lemma DivisionTruncates(a: int, b: int)
    requires b != 0
    ensures Truncated(a, b, b * TruncDiv(a, b))
  {
    ProductOfQuotient(a, b);
    Remainder(Magnitude(a), Magnitude(b));
    SignedRemainder(a, b, WholeParts(Magnitude(a), Magnitude(b)));
  }
}
