/** What IN, ORDER BY, MIN and MAX mean, apart from how they are computed (in_values, eval_expr,
    compare_order_rows and eval_aggregate in src/sql/executor.rs). */
module RelationLaws {
  import opened Values
  import opened Keys
  import opened Relations
  import opened Evaluator
  import opened ValueLaws
  import opened Grouping

  // --------------------------------------------------------------------------------- IN

  /** v = a OR v = b OR ... */
  function AnyEqual(v: Value, values: seq<Value>): SqlTruth {
    if values == [] then False
    else OrTruth(CompareSql(v, values[0], Eq), AnyEqual(v, values[1..]))
  }

  lemma {:induction false} AnyEqualCases(v: Value, values: seq<Value>)
    requires !v.Null?
    ensures AnyEqual(v, values) == True <==> exists c :: c in values && CompareSql(v, c, Eq) == True
    ensures AnyEqual(v, values) == False <==> forall c :: c in values ==> CompareSql(v, c, Eq) == False
    decreases values
  {
    if values != [] {
      AnyEqualCases(v, values[1..]);
      assert values == [values[0]] + values[1..];
    }
  }

  lemma {:induction false} NullEqualsNothing(values: seq<Value>)
    ensures AnyEqual(Null, values) == if values == [] then False else Unknown
    decreases values
  {
    if values != [] {
      NullEqualsNothing(values[1..]);
    }
  }

  /** IN is the disjunction of the equalities, and NOT IN its negation, in three-valued logic; the code
      differs only for NULL IN (), which is UNKNOWN. */
  lemma InIsDisjunction(v: Value, values: seq<Value>)
    ensures InValues(v, values, false) == AnyEqual(v, values) <==> !(v.Null? && values == [])
    ensures InValues(v, values, true) == NotTruth(InValues(v, values, false))
  {
    if v.Null? {
      NullEqualsNothing(values);
    } else {
      AnyEqualCases(v, values);
      forall c | c in values ensures CompareSql(v, c, Eq) == Unknown <==> c.Null? {
        ComparisonIsOrder(v, c);
      }
    }
  }

  function FirstCells(rows: seq<Row>): (r: seq<Value>)
    requires forall i :: 0 <= i < |rows| ==> rows[i] != []
    ensures |r| == |rows|
  {
    seq(|rows|, i requires 0 <= i < |rows| => rows[i][0])
  }

  /** Membership by hash key is membership by SQL equality. */
  lemma KeyDecidesEquality(v: Value, c: Value)
    requires !v.Null? && !c.Null? && Doubles([v]) && Doubles([c])
    ensures HashJoinKey(v) == HashJoinKey(c) <==> CompareSql(v, c, Eq) == True
  {
    ComparisonIsOrder(v, c);
    if ValueKey(v) == ValueKey(c) {
      RowKeyInjective([v], [c]);
      assert [v][0] == [c][0];
    }
  }

  /** IN over a subquery, decided by a set of hash keys, is IN over the list of its first cells. */
  lemma SubqueryMembershipIsIn(v: Value, relation: Relation)
    requires forall i :: 0 <= i < |relation.rows| ==> relation.rows[i] != [] && Doubles([relation.rows[i][0]])
    requires Doubles([v])
    ensures InRelation(v, relation) == InValues(v, FirstCells(relation.rows), false)
  {
    var cells := FirstCells(relation.rows);
    if !v.Null? {
      forall i | 0 <= i < |cells| && !cells[i].Null?
        ensures HashJoinKey(relation.rows[i][0]) == HashJoinKey(v) <==> CompareSql(v, cells[i], Eq) == True
      {
        KeyDecidesEquality(v, cells[i]);
      }
      forall i | 0 <= i < |cells| ensures cells[i].Null? ==> CompareSql(v, cells[i], Eq) == Unknown {
        assert cells[i] == relation.rows[i][0];
      }
    }
  }

  // ---------------------------------------------------------------------------- ORDER BY

  lemma ValueOrderFlips(a: Value, b: Value, descending: bool)
    ensures CompareOrderValues(a, b, descending) == Equal <==> CompareOrderValues(b, a, descending) == Equal
    ensures CompareOrderValues(a, b, descending) == Less <==> CompareOrderValues(b, a, descending) == Greater
    ensures CompareOrderValues(a, a, descending) == Equal
  {
    if a.Text? && b.Text? {
      CompareTextIs(a.s, b.s);
      CompareTextIs(b.s, a.s);
    }
    if a.Text? {
      CompareTextIs(a.s, a.s);
    }
  }

  lemma {:induction false} KeyOrderFlips(a: OrderKey, b: OrderKey, descending: seq<bool>)
    ensures CompareOrderKeys(a, b, descending) == Less <==> CompareOrderKeys(b, a, descending) == Greater
    ensures a == b ==> CompareOrderKeys(a, b, descending) == Equal
    decreases a
  {
    if a != [] && b != [] && descending != [] && a[0].Ok? && b[0].Ok? {
      ValueOrderFlips(a[0].value, b[0].value, descending[0]);
      ValueOrderFlips(b[0].value, a[0].value, descending[0]);
      KeyOrderFlips(a[1..], b[1..], descending[1..]);
    }
  }

  /** No row stands directly behind a greater one. */
  ghost predicate Ordered(items: seq<Keyed>, descending: seq<bool>) {
    forall i :: 0 < i < |items| ==> CompareOrderKeys(items[i - 1].key, items[i].key, descending) != Greater
  }

  /** The rows with this sort key, in the order in which they come. */
  function WithKey(items: seq<Keyed>, key: OrderKey): seq<Keyed> {
    if items == [] then []
    else WithKey(items[..|items| - 1], key) + if items[|items| - 1].key == key then [items[|items| - 1]] else []
  }

  lemma OrderedAppend(items: seq<Keyed>, x: Keyed, descending: seq<bool>)
    requires Ordered(items, descending)
    requires items != [] ==> CompareOrderKeys(items[|items| - 1].key, x.key, descending) != Greater
    ensures Ordered(items + [x], descending)
  {
  }

  lemma OrderedWithout(items: seq<Keyed>, descending: seq<bool>)
    requires items != [] && Ordered(items, descending)
    ensures Ordered(items[..|items| - 1], descending)
    ensures |items| > 1 ==> CompareOrderKeys(items[|items| - 2].key, items[|items| - 1].key, descending) != Greater
  {
  }

  /** What ends a sequence after an insertion. */
  ghost predicate EndsWith(r: seq<Keyed>, sorted: seq<Keyed>, item: Keyed) {
    r != [] && (r[|r| - 1] == item || (sorted != [] && r[|r| - 1] == sorted[|sorted| - 1]))
  }

  lemma {:induction false} InsertKeepsOrder(sorted: seq<Keyed>, item: Keyed, descending: seq<bool>)
    requires Ordered(sorted, descending)
    ensures Ordered(InsertSorted(sorted, item, descending), descending)
    ensures EndsWith(InsertSorted(sorted, item, descending), sorted, item)
    ensures multiset(InsertSorted(sorted, item, descending)) == multiset(sorted) + multiset{item}
    decreases sorted
  {
    if sorted != [] {
      var init, last := sorted[..|sorted| - 1], sorted[|sorted| - 1];
      assert sorted == init + [last];
      if CompareOrderKeys(last.key, item.key, descending) == Greater {
        OrderedWithout(sorted, descending);
        InsertKeepsOrder(init, item, descending);
        KeyOrderFlips(item.key, last.key, descending);
        OrderedAppend(InsertSorted(init, item, descending), last, descending);
      } else {
        OrderedAppend(sorted, item, descending);
      }
    }
  }

  lemma {:induction false} InsertComesLast(sorted: seq<Keyed>, item: Keyed, descending: seq<bool>, key: OrderKey)
    ensures WithKey(InsertSorted(sorted, item, descending), key) == WithKey(sorted, key) + if item.key == key then [item] else []
    decreases sorted
  {
    var r := InsertSorted(sorted, item, descending);
    if sorted == [] {
      assert r[..0] == [];
    } else {
      var init, last := sorted[..|sorted| - 1], sorted[|sorted| - 1];
      if CompareOrderKeys(last.key, item.key, descending) == Greater {
        KeyOrderFlips(last.key, item.key, descending);
        InsertComesLast(init, item, descending, key);
        assert r == InsertSorted(init, item, descending) + [last];
        assert r[..|r| - 1] == InsertSorted(init, item, descending);
      } else {
        assert r[..|r| - 1] == sorted;
      }
    }
  }

  /** ORDER BY keeps the rows with their multiplicity, leaves no row directly behind a greater one, and keeps
      rows with the same sort key in their order. */
  lemma {:induction false} SortIsStable(items: seq<Keyed>, descending: seq<bool>)
    ensures Ordered(SortKeyed(items, descending), descending)
    ensures multiset(SortKeyed(items, descending)) == multiset(items)
    ensures forall key :: WithKey(SortKeyed(items, descending), key) == WithKey(items, key)
    decreases items
  {
    if items != [] {
      var init, last := items[..|items| - 1], items[|items| - 1];
      assert items == init + [last];
      SortIsStable(init, descending);
      InsertKeepsOrder(SortKeyed(init, descending), last, descending);
      forall key ensures WithKey(SortKeyed(items, descending), key) == WithKey(items, key) {
        InsertComesLast(SortKeyed(init, descending), last, descending, key);
      }
    }
  }

  /** NULL, or values of one comparable kind. */
  predicate Alike(a: Value, b: Value) {
    a.Null? || b.Null? || Comparable(a, b)
  }

  lemma AscendingTransitive(a: Value, b: Value, c: Value)
    requires Alike(a, b) && Alike(b, c) && Alike(a, c)
    requires CompareOrderValues(a, b, false) != Greater && CompareOrderValues(b, c, false) != Greater
    ensures CompareOrderValues(a, c, false) != Greater
    ensures CompareOrderValues(a, c, false) == Equal <==> CompareOrderValues(a, b, false) == Equal && CompareOrderValues(b, c, false) == Equal
  {
    if Comparable(a, b) && Comparable(b, c) {
      ComparisonIsOrder(a, b);
      ComparisonIsOrder(b, c);
      ComparisonIsOrder(a, c);
      assert Holds(a, Le, b) && Holds(b, Le, c);
      ComparisonIsTransitive(a, b, c);
    }
  }

  lemma ValuesTransitive(a: Value, b: Value, c: Value, descending: bool)
    requires Alike(a, b) && Alike(b, c) && Alike(a, c)
    requires CompareOrderValues(a, b, descending) != Greater && CompareOrderValues(b, c, descending) != Greater
    ensures CompareOrderValues(a, c, descending) != Greater
    ensures CompareOrderValues(a, c, descending) == Equal
       <==> CompareOrderValues(a, b, descending) == Equal && CompareOrderValues(b, c, descending) == Equal
  {
    if descending {
      ValueOrderFlips(a, b, false);
      ValueOrderFlips(b, c, false);
      ValueOrderFlips(a, c, false);
      AscendingTransitive(c, b, a);
    } else {
      AscendingTransitive(a, b, c);
    }
  }

  /** Evaluated keys whose positions hold NULL or values of one kind. */
  ghost predicate KeysAlike(a: OrderKey, b: OrderKey, descending: seq<bool>) {
    |a| == |b| == |descending| && forall k :: 0 <= k < |a| ==> a[k].Ok? && b[k].Ok? && Alike(a[k].value, b[k].value)
  }

  lemma {:induction false} KeysTransitive(a: OrderKey, b: OrderKey, c: OrderKey, descending: seq<bool>)
    requires KeysAlike(a, b, descending) && KeysAlike(b, c, descending) && KeysAlike(a, c, descending)
    requires CompareOrderKeys(a, b, descending) != Greater && CompareOrderKeys(b, c, descending) != Greater
    ensures CompareOrderKeys(a, c, descending) != Greater
    decreases a
  {
    if a != [] {
      ValuesTransitive(a[0].value, b[0].value, c[0].value, descending[0]);
      if CompareOrderValues(a[0].value, c[0].value, descending[0]) == Equal {
        KeysTransitive(a[1..], b[1..], c[1..], descending[1..]);
      }
    }
  }

  lemma {:induction false} OrderedPairwise(sorted: seq<Keyed>, descending: seq<bool>, i: nat, j: nat)
    requires Ordered(sorted, descending) && i < j < |sorted|
    requires forall x, y :: x in sorted && y in sorted ==> KeysAlike(x.key, y.key, descending)
    ensures CompareOrderKeys(sorted[i].key, sorted[j].key, descending) != Greater
    decreases j
  {
    if i < j - 1 {
      OrderedPairwise(sorted, descending, i, j - 1);
      KeysTransitive(sorted[i].key, sorted[j - 1].key, sorted[j].key, descending);
    }
  }

  /** When every key could be evaluated and each position holds one kind of value besides NULL, no row stands
      anywhere behind a greater one, and by the first key NULLs come first ascending and last descending. */
  lemma SortIsOrder(items: seq<Keyed>, descending: seq<bool>, i: nat, j: nat)
    requires forall x, y :: x in items && y in items ==> KeysAlike(x.key, y.key, descending)
    requires i < j < |items|
    ensures var sorted := SortKeyed(items, descending);
            && CompareOrderKeys(sorted[i].key, sorted[j].key, descending) != Greater
            && KeysAlike(sorted[i].key, sorted[j].key, descending)
            && (descending != [] ==>
                  if descending[0] then sorted[i].key[0].value.Null? ==> sorted[j].key[0].value.Null?
                  else sorted[j].key[0].value.Null? ==> sorted[i].key[0].value.Null?)
  {
    var sorted := SortKeyed(items, descending);
    SortIsStable(items, descending);
    assert sorted[i] in items && sorted[j] in items;
    OrderedPairwise(sorted, descending, i, j);
  }

  // -------------------------------------------------------------------------- MIN and MAX

  /** Values of one comparable kind, as the non-NULL cells of a column are. */
  ghost predicate OneKind(values: seq<Value>) {
    forall a, b :: a in values && b in values ==> Comparable(a, b)
  }

  lemma OneKindWithout(init: seq<Value>, last: Value)
    requires OneKind(init + [last])
    ensures OneKind(init)
  {
    forall a, b | a in init && b in init ensures Comparable(a, b) {
      assert a in init + [last] && b in init + [last];
    }
  }

  ghost predicate IsLeast(v: Value, values: seq<Value>) {
    v in values && forall other :: other in values ==> Holds(v, Le, other)
  }

  ghost predicate IsGreatest(v: Value, values: seq<Value>) {
    v in values && forall other :: other in values ==> Holds(v, Ge, other)
  }

  lemma {:induction false} MinIsLeast(values: seq<Value>)
    requires values != [] && OneKind(values)
    ensures IsLeast(MinOf(values), values)
    decreases values
  {
    var init, last := values[..|values| - 1], values[|values| - 1];
    assert values == init + [last];
    if init == [] {
      ComparisonIsOrder(last, last);
    } else {
      OneKindWithout(init, last);
      MinIsLeast(init);
      MinNext(init, last);
    }
  }

  lemma {:induction false} MaxIsGreatest(values: seq<Value>)
    requires values != [] && OneKind(values)
    ensures IsGreatest(MaxOf(values), values)
    decreases values
  {
    var init, last := values[..|values| - 1], values[|values| - 1];
    assert values == init + [last];
    if init == [] {
      ComparisonIsOrder(last, last);
    } else {
      OneKindWithout(init, last);
      MaxIsGreatest(init);
      MaxNext(init, last);
    }
  }

  lemma MinNext(init: seq<Value>, last: Value)
    requires init != [] && OneKind(init + [last])
    requires IsLeast(MinOf(init), init)
    ensures IsLeast(MinOf(init + [last]), init + [last])
  {
    var values, best := init + [last], MinOf(init);
    assert values[..|values| - 1] == init && best in values && last in values;
    ComparisonIsOrder(best, last);
    ComparisonIsOrder(last, best);
    ComparisonIsOrder(last, last);
    if MinOf(values) == last {
      forall v | v in init ensures Holds(last, Le, v) {
        ComparisonIsTransitive(last, best, v);
      }
    }
  }

  lemma MaxNext(init: seq<Value>, last: Value)
    requires init != [] && OneKind(init + [last])
    requires IsGreatest(MaxOf(init), init)
    ensures IsGreatest(MaxOf(init + [last]), init + [last])
  {
    var values, best := init + [last], MaxOf(init);
    assert values[..|values| - 1] == init && best in values && last in values;
    ComparisonIsOrder(best, last);
    ComparisonIsOrder(last, best);
    ComparisonIsOrder(last, last);
    if MaxOf(values) == last {
      forall v | v in init ensures Holds(last, Ge, v) {
        ComparisonIsOrder(v, best);
        ComparisonIsOrder(best, v);
        ComparisonIsOrder(v, last);
        ComparisonIsTransitive(v, best, last);
      }
    }
  }
}
