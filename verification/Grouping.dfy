/** Grouping and DISTINCT by row keys (row_key, aggregate_query and DISTINCT in src/sql/executor.rs). */
module Grouping {
  import opened Values
  import opened Keys
  import opened Relations

  // --------------------------------------------------------------------- digits

  predicate AllDigits(s: string) {
    forall i :: 0 <= i < |s| ==> '0' <= s[i] <= '9'
  }

  function DigitsValue(s: string): int
  {
    if s == "" then 0 else DigitsValue(s[..|s| - 1]) * 10 + (s[|s| - 1] as int - '0' as int)
  }

  lemma {:induction false} NatTextReads(n: nat)
    ensures NatText(n) != "" && AllDigits(NatText(n)) && DigitsValue(NatText(n)) == n
    decreases n
  {
    if n >= 10 {
      NatTextReads(n / 10);
      var text := NatText(n);
      assert text[..|text| - 1] == NatText(n / 10);
    } else {
      assert NatText(n)[..0] == "";
    }
  }

  lemma IntTextReads(i: int)
    ensures IntText(i) != "" && forall k :: 0 <= k < |IntText(i)| ==> IntText(i)[k] == '-' || '0' <= IntText(i)[k] <= '9'
  {
    NatTextReads(if i < 0 then -i else i);
  }

  lemma FloatTextReads(f: real)
    ensures NoneOf(FloatText(f), SEPARATOR)
  {
    IntTextReads(Scaled(f).Floor);
  }

  lemma SignShows(i: int)
    ensures IntText(i) != "" && (IntText(i)[0] == '-' <==> i < 0)
  {
    NatTextReads(if i < 0 then -i else i);
  }

  lemma IntTextInjective(i: int, j: int)
    requires IntText(i) == IntText(j)
    ensures i == j
  {
    SignShows(i);
    SignShows(j);
    NatTextReads(if i < 0 then -i else i);
    NatTextReads(if j < 0 then -j else j);
    if i < 0 {
      assert IntText(i)[1..] == NatText(-i) && IntText(j)[1..] == NatText(-j);
    }
  }

  lemma FloatTextInjective(f: real, g: real)
    requires IsDouble(f) && IsDouble(g) && FloatText(f) == FloatText(g)
    ensures f == g
  {
    IntTextInjective(Scaled(f).Floor, Scaled(g).Floor);
    ScaledInjective(f, g);
  }

  lemma ScaledInjective(f: real, g: real)
    requires Scaled(f) == Scaled(g)
    ensures f == g
  {
    Cancel(f, g, Pow2(SCALE_BITS));
  }

  lemma Cancel(f: real, g: real, p: real)
    requires p > 0.0 && f * p == g * p
    ensures f == g
  {
    assert f == (f * p) / p;
    assert g == (g * p) / p;
  }

  // ----------------------------------------------------------------- keys of values

  /** Finite 64-bit floats only. */
  predicate Doubles(row: Row) {
    forall i :: 0 <= i < |row| ==> row[i].Float? ==> IsDouble(row[i].f)
  }

  predicate NoneOf(s: string, c: char) {
    forall i :: 0 <= i < |s| ==> s[i] != c
  }

  /** Nothing, or something that begins with c. */
  predicate EndsOrStarts(s: string, c: char) {
    s == "" || s[0] == c
  }

  /** A stretch without c is delimited by the first c. */
  lemma Delimited(u: string, x: string, v: string, y: string, c: char)
    requires u + x == v + y && NoneOf(u, c) && NoneOf(v, c) && EndsOrStarts(x, c) && EndsOrStarts(y, c)
    ensures u == v && x == y
  {
    NotShorter(u, x, v, y, c);
    NotShorter(v, y, u, x, c);
    SameLength(u, x, v, y);
  }

  lemma NotShorter(u: string, x: string, v: string, y: string, c: char)
    requires u + x == v + y && NoneOf(v, c) && EndsOrStarts(x, c)
    ensures |u| >= |v|
  {
    var w := u + x;
    if x != "" {
      assert w[|u|] == x[0];
    }
    assert forall i :: 0 <= i < |v| ==> w[i] == v[i];
  }

  lemma SameLength(u: string, x: string, v: string, y: string)
    requires u + x == v + y && |u| == |v|
    ensures u == v && x == y
  {
    assert u == (u + x)[..|u|] && v == (v + y)[..|v|];
    assert x == (u + x)[|u|..] && y == (v + y)[|v|..];
  }

  lemma NoneOfBoth(s: string, t: string, c: char)
    requires NoneOf(s, c) && NoneOf(t, c)
    ensures NoneOf(s + t, c)
  {
  }

  function Kind(v: Value): char {
    match v
    case Null => 'n'
    case Boolean(_) => 'b'
    case Integer(_) => 'i'
    case Float(_) => 'f'
    case Text(_) => 's'
  }

  lemma KeyShape(v: Value)
    ensures ValueKey(v) != "" && ValueKey(v)[0] == Kind(v)
    ensures !v.Text? ==> NoneOf(ValueKey(v), SEPARATOR)
  {
    match v
    case Integer(i) =>
      IntTextReads(i);
      NoneOfBoth("i:", IntText(i), SEPARATOR);
    case Float(f) =>
      FloatTextReads(f);
      NoneOfBoth("f:", FloatText(f), SEPARATOR);
    case _ =>
  }

  lemma PlainKeyInjective(a: Value, b: Value)
    requires ValueKey(a) == ValueKey(b) && !a.Text? && !b.Text? && Doubles([a, b])
    ensures a == b
  {
    KeyShape(a);
    KeyShape(b);
    assert [a, b][0] == a && [a, b][1] == b;
    match a
    case Integer(i) =>
      assert ValueKey(a)[2..] == IntText(i) && ValueKey(b)[2..] == IntText(b.i);
      IntTextInjective(i, b.i);
    case Float(f) =>
      assert ValueKey(a)[2..] == FloatText(f) && ValueKey(b)[2..] == FloatText(b.f);
      FloatTextInjective(f, b.f);
    case Boolean(p) => assert ValueKey(a)[2] == (if p then 't' else 'f') && ValueKey(b)[2] == (if b.b then 't' else 'f');
    case _ =>
  }

  lemma Regrouped(n: string, s: string, x: string)
    ensures ("s:" + n + ":" + s) + x == "s:" + (n + (":" + (s + x)))
  {
  }

  /** A text is delimited by its length, whatever characters it holds. */
  lemma TextDelimited(s: string, x: string, t: string, y: string)
    requires ValueKey(Text(s)) + x == ValueKey(Text(t)) + y
    ensures s == t && x == y
  {
    var n, m := NatText(|s|), NatText(|t|);
    Regrouped(n, s, x);
    Regrouped(m, t, y);
    SameLength("s:", n + (":" + (s + x)), "s:", m + (":" + (t + y)));
    LengthsAgree(|s|, ":" + (s + x), |t|, ":" + (t + y));
    SameLength(":", s + x, ":", t + y);
    SameLength(s, x, t, y);
  }

  lemma LengthsAgree(a: nat, x: string, b: nat, y: string)
    requires NatText(a) + x == NatText(b) + y && x != "" && y != "" && x[0] == ':' && y[0] == ':'
    ensures a == b && x == y
  {
    NatTextReads(a);
    NatTextReads(b);
    Delimited(NatText(a), x, NatText(b), y, ':');
  }

  /** The key of a value ends where its row's next separator stands. */
  lemma ValueDelimited(a: Value, x: string, b: Value, y: string)
    requires ValueKey(a) + x == ValueKey(b) + y && Doubles([a, b])
    requires EndsOrStarts(x, SEPARATOR) && EndsOrStarts(y, SEPARATOR)
    ensures a == b && x == y
  {
    KeyShape(a);
    KeyShape(b);
    assert (ValueKey(a) + x)[0] == Kind(a) && (ValueKey(b) + y)[0] == Kind(b);
    if a.Text? {
      TextDelimited(a.s, x, b.s, y);
    } else {
      Delimited(ValueKey(a), x, ValueKey(b), y, SEPARATOR);
      PlainKeyInjective(a, b);
    }
  }

  function RestKey(row: Row): string
    requires row != []
  {
    if |row| == 1 then "" else [SEPARATOR] + RowKey(row[1..])
  }

  lemma RowKeySplits(row: Row)
    requires row != []
    ensures RowKey(row) == ValueKey(row[0]) + RestKey(row) && EndsOrStarts(RestKey(row), SEPARATOR)
    ensures RowKey(row) != ""
  {
    KeyShape(row[0]);
    assert |row| > 1 ==> ValueKey(row[0]) + [SEPARATOR] + RowKey(row[1..]) == ValueKey(row[0]) + ([SEPARATOR] + RowKey(row[1..]));
  }

  /** row_key is injective although its separator is not escaped. */
  lemma {:induction false} RowKeyInjective(a: Row, b: Row)
    requires Doubles(a) && Doubles(b) && RowKey(a) == RowKey(b)
    ensures a == b
    decreases a
  {
    if a != [] && b != [] {
      RowKeySplits(a);
      RowKeySplits(b);
      ValueDelimited(a[0], RestKey(a), b[0], RestKey(b));
      if |a| > 1 {
        assert RestKey(a)[1..] == RowKey(a[1..]) && RestKey(b)[1..] == RowKey(b[1..]);
        RowKeyInjective(a[1..], b[1..]);
      }
      assert a == [a[0]] + a[1..] && b == [b[0]] + b[1..];
    } else if a != [] {
      RowKeySplits(a);
    } else if b != [] {
      RowKeySplits(b);
    }
  }

  // ----------------------------------------------------------------------- DISTINCT

  /** Each row that does not occur before. */
  function FirstOccurrences(rows: seq<Row>): seq<Row> {
    if rows == [] then []
    else
      var last := |rows| - 1;
      FirstOccurrences(rows[..last]) + if rows[last] in rows[..last] then [] else [rows[last]]
  }

  /** DISTINCT keeps exactly the first occurrence of each row. */
  lemma {:induction false} DistinctKeepsFirst(rows: seq<Row>)
    requires forall i :: 0 <= i < |rows| ==> Doubles(rows[i])
    ensures DistinctRows(rows) == FirstOccurrences(rows)
    decreases rows
  {
    if rows != [] {
      var last := |rows| - 1;
      DistinctKeepsFirst(rows[..last]);
      if i :| 0 <= i < last && RowKey(rows[i]) == RowKey(rows[last]) {
        RowKeyInjective(rows[i], rows[last]);
        assert rows[..last][i] == rows[last];
      }
    }
  }

  function KeysOf(rows: seq<Row>): set<string> {
    set i | 0 <= i < |rows| :: RowKey(rows[i])
  }

  lemma DistinctNext(rows: seq<Row>, n: nat)
    requires n < |rows|
    ensures DistinctRows(rows[..n + 1]) == DistinctRows(rows[..n]) + if RowKey(rows[n]) in KeysOf(rows[..n]) then [] else [rows[n]]
    ensures KeysOf(rows[..n + 1]) == KeysOf(rows[..n]) + {RowKey(rows[n])}
  {
    var more := rows[..n + 1];
    assert more[..n] == rows[..n] && more[n] == rows[n];
    assert RowKey(rows[n]) in KeysOf(rows[..n]) <==> exists i :: 0 <= i < n && RowKey(more[i]) == RowKey(more[n]) by {
      assert forall i :: 0 <= i < n ==> rows[..n][i] == more[i];
    }
    assert forall i :: 0 <= i < n ==> RowKey(rows[..n][i]) == RowKey(more[i]);
  }

  /** The retain loop with its set of seen keys. */
  method Distinct(rows: seq<Row>) returns (kept: seq<Row>)
    ensures kept == DistinctRows(rows)
  {
    var seen: set<string> := {};
    kept := [];
    var n := 0;
    while n < |rows|
      invariant n <= |rows| && kept == DistinctRows(rows[..n]) && seen == KeysOf(rows[..n])
    {
      DistinctNext(rows, n);
      kept := kept + if RowKey(rows[n]) in seen then [] else [rows[n]];
      seen := seen + {RowKey(rows[n])};
      n := n + 1;
    }
    assert rows[..|rows|] == rows;
  }

  // ----------------------------------------------------------------------- GROUP BY

  lemma {:induction false} CompareTextIs(a: string, b: string)
    ensures CompareText(a, b) == Equal <==> a == b
    ensures CompareText(a, b) == Less <==> CompareText(b, a) == Greater
    decreases a
  {
    if a != "" && b != "" {
      CompareTextIs(a[1..], b[1..]);
      assert a == [a[0]] + a[1..] && b == [b[0]] + b[1..];
    }
  }

  lemma {:induction false} CompareTextTransitive(a: string, b: string, c: string)
    requires CompareText(a, b) == Less && CompareText(b, c) == Less
    ensures CompareText(a, c) == Less
    decreases a
  {
    if a != "" && a[0] == b[0] && b[0] == c[0] {
      CompareTextTransitive(a[1..], b[1..], c[1..]);
    }
  }

  /** Keys in strictly increasing order, as in a BTreeMap. */
  ghost predicate InKeyOrder(groups: seq<Group>) {
    forall i, j :: 0 <= i < j < |groups| ==> CompareText(groups[i].key, groups[j].key) == Less
  }

  function RowsUnder(groups: seq<Group>, key: string): seq<Row> {
    if groups == [] then []
    else if groups[0].key == key then groups[0].rows
    else RowsUnder(groups[1..], key)
  }

  lemma {:induction false} NotFurther(groups: seq<Group>, key: string)
    requires forall i :: 0 <= i < |groups| ==> groups[i].key != key
    ensures RowsUnder(groups, key) == []
    decreases groups
  {
    if groups != [] {
      NotFurther(groups[1..], key);
    }
  }

  lemma FirstIsLeast(groups: seq<Group>, key: string)
    requires InKeyOrder(groups) && groups != [] && CompareText(key, groups[0].key) == Less
    ensures forall j :: 0 <= j < |groups| ==> CompareText(key, groups[j].key) == Less && groups[j].key != key
  {
    forall j | 0 <= j < |groups| ensures CompareText(key, groups[j].key) == Less && groups[j].key != key {
      if j > 0 {
        CompareTextTransitive(key, groups[0].key, groups[j].key);
      }
      CompareTextIs(key, groups[j].key);
    }
  }

  /** Adding a row keeps the groups in the order of their keys. */
  lemma {:induction false} AddedInOrder(groups: seq<Group>, key: string, row: Row)
    requires InKeyOrder(groups)
    ensures InKeyOrder(AddToGroups(groups, key, row))
    ensures forall i :: 0 <= i < |AddToGroups(groups, key, row)| ==>
              AddToGroups(groups, key, row)[i].key == key || exists j :: 0 <= j < |groups| && groups[j].key == AddToGroups(groups, key, row)[i].key
    decreases groups
  {
    if groups != [] {
      CompareTextIs(key, groups[0].key);
      if CompareText(key, groups[0].key) == Less {
        FirstIsLeast(groups, key);
      } else if CompareText(key, groups[0].key) == Greater {
        CompareTextIs(groups[0].key, key);
        AddedInOrder(groups[1..], key, row);
        var rest := AddToGroups(groups[1..], key, row);
        forall i | 0 <= i < |rest| ensures CompareText(groups[0].key, rest[i].key) == Less {
          if rest[i].key != key {
            var j :| 0 <= j < |groups[1..]| && groups[1..][j].key == rest[i].key;
            assert groups[j + 1] == groups[1..][j];
          }
        }
      }
    }
  }

  /** Adding a row extends the group of its key and no other. */
  lemma {:induction false} AddedUnder(groups: seq<Group>, key: string, row: Row, k: string)
    requires InKeyOrder(groups)
    ensures RowsUnder(AddToGroups(groups, key, row), k) == RowsUnder(groups, k) + if k == key then [row] else []
    decreases groups
  {
    if groups != [] {
      CompareTextIs(key, groups[0].key);
      var added := AddToGroups(groups, key, row);
      if CompareText(key, groups[0].key) == Equal {
        assert added[1..] == groups[1..];
      } else if CompareText(key, groups[0].key) == Less {
        FirstIsLeast(groups, key);
        NotFurther(groups, key);
        assert added[1..] == groups;
      } else {
        AddedUnder(groups[1..], key, row, k);
        assert added[1..] == AddToGroups(groups[1..], key, row);
      }
    }
  }

  /** The rows whose key is k, in order and with repetition. */
  function RowsWithKey(keys: seq<string>, rows: seq<Row>, k: string): seq<Row>
    requires |keys| == |rows|
  {
    if rows == [] then []
    else
      var last := |rows| - 1;
      RowsWithKey(keys[..last], rows[..last], k) + if keys[last] == k then [rows[last]] else []
  }

  /** Grouping splits the rows by key: each group holds exactly the rows of its key in source order, every
      key has one group, and no group is empty. */
  lemma {:induction false} GroupsPartition(keys: seq<string>, rows: seq<Row>)
    requires |keys| == |rows|
    ensures InKeyOrder(GroupRows(keys, rows))
    ensures forall k :: RowsUnder(GroupRows(keys, rows), k) == RowsWithKey(keys, rows, k)
    ensures forall g :: 0 <= g < |GroupRows(keys, rows)| ==> GroupRows(keys, rows)[g].key in keys
    decreases rows
  {
    if rows != [] {
      var last := |rows| - 1;
      var before := GroupRows(keys[..last], rows[..last]);
      GroupsPartition(keys[..last], rows[..last]);
      forall k ensures RowsUnder(GroupRows(keys, rows), k) == RowsWithKey(keys, rows, k) {
        AddedUnder(before, keys[last], rows[last], k);
      }
      AddedInOrder(before, keys[last], rows[last]);
      forall g | 0 <= g < |GroupRows(keys, rows)| ensures GroupRows(keys, rows)[g].key in keys {
        if GroupRows(keys, rows)[g].key != keys[last] {
          var j :| 0 <= j < |before| && before[j].key == GroupRows(keys, rows)[g].key;
          assert before[j].key in keys[..last];
        }
      }
    }
  }

  lemma {:induction false} UnderItsKey(groups: seq<Group>, g: nat)
    requires InKeyOrder(groups) && g < |groups|
    ensures RowsUnder(groups, groups[g].key) == groups[g].rows
    decreases groups
  {
    if g > 0 {
      CompareTextIs(groups[0].key, groups[g].key);
      assert groups[1..][g - 1] == groups[g];
      assert InKeyOrder(groups[1..]);
      UnderItsKey(groups[1..], g - 1);
    }
  }

  lemma {:induction false} SomeRowHasKey(keys: seq<string>, rows: seq<Row>, k: string)
    requires |keys| == |rows| && k in keys
    ensures RowsWithKey(keys, rows, k) != []
    decreases rows
  {
    var last := |rows| - 1;
    if keys[last] != k {
      assert keys == keys[..last] + [keys[last]];
      SomeRowHasKey(keys[..last], rows[..last], k);
    }
  }

  function RowKeys(values: seq<Row>): (r: seq<string>)
    ensures |r| == |values|
  {
    seq(|values|, i requires 0 <= i < |values| => RowKey(values[i]))
  }

  /** The rows whose GROUP BY values are v. */
  function RowsWithValues(values: seq<Row>, rows: seq<Row>, v: Row): seq<Row>
    requires |values| == |rows|
  {
    if rows == [] then []
    else
      var last := |rows| - 1;
      RowsWithValues(values[..last], rows[..last], v) + if values[last] == v then [rows[last]] else []
  }

  lemma {:induction false} SameRowsByValue(values: seq<Row>, rows: seq<Row>, v: Row)
    requires |values| == |rows| && Doubles(v) && forall i :: 0 <= i < |values| ==> Doubles(values[i])
    ensures RowsWithKey(RowKeys(values), rows, RowKey(v)) == RowsWithValues(values, rows, v)
    decreases rows
  {
    if rows != [] {
      var last := |rows| - 1;
      SameRowsByValue(values[..last], rows[..last], v);
      assert RowKeys(values)[..last] == RowKeys(values[..last]);
      if RowKey(values[last]) == RowKey(v) {
        RowKeyInjective(values[last], v);
      }
    }
  }

  /** GROUP BY splits the source rows into non-empty groups by the identity of their key values: each group
      holds, in order and with repetition, exactly the rows that have its values. */
  lemma GroupByIdentity(values: seq<Row>, rows: seq<Row>, g: nat)
    requires |values| == |rows| && forall i :: 0 <= i < |values| ==> Doubles(values[i])
    requires g < |GroupRows(RowKeys(values), rows)|
    ensures var group := GroupRows(RowKeys(values), rows)[g];
            group.rows != []
            && exists i :: 0 <= i < |values| && group.key == RowKey(values[i]) && group.rows == RowsWithValues(values, rows, values[i])
  {
    var keys := RowKeys(values);
    var groups := GroupRows(keys, rows);
    GroupsPartition(keys, rows);
    UnderItsKey(groups, g);
    SomeRowHasKey(keys, rows, groups[g].key);
    var i :| 0 <= i < |keys| && keys[i] == groups[g].key;
    SameRowsByValue(values, rows, values[i]);
  }

  /** Groups with smaller keys stay in front. */
  lemma {:induction false} AddedBehind(groups: seq<Group>, key: string, row: Row, at: nat)
    requires at <= |groups| && forall i :: 0 <= i < at ==> CompareText(key, groups[i].key) == Greater
    ensures AddToGroups(groups, key, row) == groups[..at] + AddToGroups(groups[at..], key, row)
    decreases at
  {
    if at > 0 {
      AddedBehind(groups[1..], key, row, at - 1);
      assert groups[1..][at - 1..] == groups[at..];
      assert groups[..at] == [groups[0]] + groups[1..][..at - 1];
    }
  }

  /** entry(key).or_default().push(row) on an ordered map. */
  method AddRow(groups: seq<Group>, key: string, row: Row) returns (added: seq<Group>)
    ensures added == AddToGroups(groups, key, row)
  {
    var at := 0;
    while at < |groups| && CompareText(key, groups[at].key) == Greater
      invariant at <= |groups| && forall i :: 0 <= i < at ==> CompareText(key, groups[i].key) == Greater
    {
      at := at + 1;
    }
    AddedBehind(groups, key, row, at);
    if at < |groups| && CompareText(key, groups[at].key) == Equal {
      assert groups[at..][1..] == groups[at + 1..];
      added := groups[..at] + ([Group(key, groups[at].rows + [row])] + groups[at + 1..]);
    } else {
      added := groups[..at] + ([Group(key, [row])] + groups[at..]);
    }
  }

  /** The loop of aggregate_query that fills its ordered map. */
  method GroupByKeys(keys: seq<string>, rows: seq<Row>) returns (groups: seq<Group>)
    requires |keys| == |rows|
    ensures groups == GroupRows(keys, rows)
  {
    groups := [];
    for n := 0 to |rows|
      invariant groups == GroupRows(keys[..n], rows[..n])
    {
      assert keys[..n + 1][..n] == keys[..n] && rows[..n + 1][..n] == rows[..n];
      groups := AddRow(groups, keys[n], rows[n]);
    }
    assert keys[..|rows|] == keys && rows[..|rows|] == rows;
  }
}
