/** Relations and the parts of query execution that evaluate no expression: column resolution,
    join assembly, grouping, sorting and aggregation (src/sql/executor.rs). */
module Relations {
  import opened Wrappers
  import opened Ascii
  import opened Values
  import opened Syntax
  import opened Keys

  datatype BoundColumn = BoundColumn(table: string, name: string)

  datatype Relation = Relation(columns: seq<BoundColumn>, rows: seq<Row>)

  function Requalify(columns: seq<BoundColumn>, table: string): (r: seq<BoundColumn>)
    ensures |r| == |columns|
  {
    seq(|columns|, i requires 0 <= i < |columns| => BoundColumn(table, columns[i].name))
  }

  function Rename(columns: seq<BoundColumn>, names: seq<string>): (r: seq<BoundColumn>)
    requires |names| == |columns|
    ensures |r| == |columns|
  {
    seq(|columns|, i requires 0 <= i < |columns| => BoundColumn(columns[i].table, names[i]))
  }

  function Flatten<T>(parts: seq<seq<T>>): seq<T> {
    if parts == [] then [] else parts[0] + Flatten(parts[1..])
  }

  lemma Regroup<T>(a: seq<T>, b: seq<T>, c: seq<T>)
    ensures a + (b + c) == (a + b) + c
  {
  }

  lemma {:induction false} FlattenSplit<T>(a: seq<seq<T>>, b: seq<seq<T>>)
    ensures Flatten(a + b) == Flatten(a) + Flatten(b)
    decreases a
  {
    if a == [] {
      assert a + b == b;
    } else {
      FlattenSplit(a[1..], b);
      assert (a + b)[1..] == a[1..] + b;
      Regroup(a[0], Flatten(a[1..]), Flatten(b));
    }
  }

  lemma FlattenAppend<T>(parts: seq<seq<T>>, part: seq<T>)
    ensures Flatten(parts + [part]) == Flatten(parts) + part
  {
    FlattenSplit(parts, [part]);
    assert [part][1..] == [];
  }

  lemma {:induction false} FlattenMember<T>(parts: seq<seq<T>>, x: T) returns (i: nat)
    requires x in Flatten(parts)
    ensures i < |parts| && x in parts[i]
    decreases parts
  {
    if x in parts[0] {
      i := 0;
    } else {
      i := FlattenMember(parts[1..], x);
      i := i + 1;
    }
  }

  // -------------------------------------------------------- column resolution

  predicate ColumnMatches(c: BoundColumn, qualifier: Option<string>, name: string) {
    SameName(c.name, name) && (qualifier.None? || SameName(c.table, qualifier.value))
  }

  ghost predicate OnlyMatch(columns: seq<BoundColumn>, qualifier: Option<string>, name: string, at: nat) {
    && at < |columns|
    && ColumnMatches(columns[at], qualifier, name)
    && forall j :: 0 <= j < |columns| && j != at ==> !ColumnMatches(columns[j], qualifier, name)
  }

  function MatchingPositions(columns: seq<BoundColumn>, qualifier: Option<string>, name: string): (r: seq<nat>)
    ensures forall k :: 0 <= k < |r| ==> r[k] < |columns| && ColumnMatches(columns[r[k]], qualifier, name)
    ensures forall j, k :: 0 <= j < k < |r| ==> r[j] < r[k]
    ensures forall j :: 0 <= j < |columns| && ColumnMatches(columns[j], qualifier, name) ==> j in r
  {
    if columns == [] then []
    else
      var last := |columns| - 1;
      var init := MatchingPositions(columns[..last], qualifier, name);
      if ColumnMatches(columns[last], qualifier, name) then init + [last] else init
  }

  /** resolve_column: an unknown or ambiguous column is an error. */
  function ResolveColumn(columns: seq<BoundColumn>, qualifier: Option<string>, name: string): (r: Result<nat>)
    ensures r.Ok? ==> OnlyMatch(columns, qualifier, name, r.value)
    ensures r.Err? ==> forall at: nat :: !OnlyMatch(columns, qualifier, name, at)
  {
    var matches := MatchingPositions(columns, qualifier, name);
    assert forall at: nat :: OnlyMatch(columns, qualifier, name, at) ==> at in matches;
    assert |matches| > 1 ==> matches[0] < matches[1] && matches[1] in matches;
    if |matches| == 1 then Ok(matches[0]) else Err
  }

  // ------------------------------------------------------------------- joins

  function Nulls(n: nat): (r: Row)
    ensures |r| == n
  {
    seq(n, _ => Null)
  }

  /** The right rows that join this left row, in right order. */
  function JoinedWith(leftRow: Row, rightRows: seq<Row>, verdict: seq<bool>): seq<Row>
    requires |verdict| == |rightRows|
  {
    if rightRows == [] then []
    else
      var last := |rightRows| - 1;
      JoinedWith(leftRow, rightRows[..last], verdict[..last]) + if verdict[last] then [leftRow + rightRows[last]] else []
  }

  function LeftRowOutput(leftRow: Row, rightRows: seq<Row>, verdict: seq<bool>, joinType: JoinType, rightWidth: nat): seq<Row>
    requires |verdict| == |rightRows|
  {
    var joined := JoinedWith(leftRow, rightRows, verdict);
    if joined == [] && joinType == Left then [leftRow + Nulls(rightWidth)] else joined
  }

  /** One verdict for each pair of a left and a right row. */
  ghost predicate Shaped(verdicts: seq<seq<bool>>, left: nat, right: nat) {
    |verdicts| == left && forall i :: 0 <= i < left ==> |verdicts[i]| == right
  }

  /** What each left row contributes, in left order. */
  function LeftParts(leftRows: seq<Row>, rightRows: seq<Row>, verdicts: seq<seq<bool>>, joinType: JoinType, rightWidth: nat): (r: seq<seq<Row>>)
    requires Shaped(verdicts, |leftRows|, |rightRows|)
    ensures |r| == |leftRows|
  {
    seq(|leftRows|, i requires 0 <= i < |leftRows| =>
      LeftRowOutput(leftRows[i], rightRows, verdicts[i], joinType, rightWidth))
  }

  function LeftOutput(leftRows: seq<Row>, rightRows: seq<Row>, verdicts: seq<seq<bool>>, joinType: JoinType, rightWidth: nat): seq<Row>
    requires Shaped(verdicts, |leftRows|, |rightRows|)
  {
    Flatten(LeftParts(leftRows, rightRows, verdicts, joinType, rightWidth))
  }

  predicate RightMatched(verdicts: seq<seq<bool>>, j: nat) {
    exists i :: 0 <= i < |verdicts| && j < |verdicts[i]| && verdicts[i][j]
  }

  /** The first n right rows that no left row joins, padded on the left. */
  function RightOutput(rightRows: seq<Row>, verdicts: seq<seq<bool>>, leftWidth: nat, n: nat): seq<Row>
    requires n <= |rightRows|
  {
    if n == 0 then []
    else
      RightOutput(rightRows, verdicts, leftWidth, n - 1)
      + if RightMatched(verdicts, n - 1) then [] else [Nulls(leftWidth) + rightRows[n - 1]]
  }

  /** The join of two row sequences when verdicts[i][j] says whether left row i joins right row j. */
  function JoinRows(leftRows: seq<Row>, rightRows: seq<Row>, verdicts: seq<seq<bool>>, joinType: JoinType, leftWidth: nat, rightWidth: nat): seq<Row>
    requires Shaped(verdicts, |leftRows|, |rightRows|)
  {
    LeftOutput(leftRows, rightRows, verdicts, joinType, rightWidth)
    + if joinType == Right then RightOutput(rightRows, verdicts, leftWidth, |rightRows|) else []
  }

  function Cell(row: Row, i: nat): Value {
    if i < |row| then row[i] else Null
  }

  /** hash_join_indices: an equality of two columns, one resolved on each side. */
  function HashJoinIndices(on: Expr, left: seq<BoundColumn>, right: seq<BoundColumn>): Option<(nat, nat)> {
    match on
    case Binary(Column(q1, n1), Compare(Eq), Column(q2, n2)) =>
      var l1, r2 := ResolveColumn(left, q1, n1), ResolveColumn(right, q2, n2);
      if l1.Ok? && r2.Ok? then Some((l1.value, r2.value))
      else
        var l2, r1 := ResolveColumn(left, q2, n2), ResolveColumn(right, q1, n1);
        if l2.Ok? && r1.Ok? then Some((l2.value, r1.value)) else None
    case _ => None
  }

  function ColumnEquality(leftRows: seq<Row>, rightRows: seq<Row>, l: nat, r: nat): (v: seq<seq<bool>>)
    ensures Shaped(v, |leftRows|, |rightRows|)
    ensures forall i, j :: 0 <= i < |leftRows| && 0 <= j < |rightRows| ==>
              (v[i][j] <==> CompareSql(Cell(leftRows[i], l), Cell(rightRows[j], r), Eq) == True)
  {
    seq(|leftRows|, i requires 0 <= i < |leftRows| =>
      seq(|rightRows|, j requires 0 <= j < |rightRows| =>
        CompareSql(Cell(leftRows[i], l), Cell(rightRows[j], r), Eq) == True))
  }

  // ---------------------------------------------------------------- grouping

  datatype Group = Group(key: string, rows: seq<Row>)

  /** Adds a row to the group of its key; groups stay in key order, as in a BTreeMap. */
  function AddToGroups(groups: seq<Group>, key: string, row: Row): seq<Group> {
    if groups == [] then [Group(key, [row])]
    else
      match CompareText(key, groups[0].key)
      case Equal => [Group(key, groups[0].rows + [row])] + groups[1..]
      case Less => [Group(key, [row])] + groups
      case Greater => [groups[0]] + AddToGroups(groups[1..], key, row)
  }

  function GroupRows(keys: seq<string>, rows: seq<Row>): seq<Group>
    requires |keys| == |rows|
  {
    if rows == [] then []
    else
      var last := |rows| - 1;
      AddToGroups(GroupRows(keys[..last], rows[..last]), keys[last], rows[last])
  }

  /** DISTINCT: a row is kept when no earlier row has its key. */
  function DistinctRows(rows: seq<Row>): seq<Row> {
    if rows == [] then []
    else
      var last := |rows| - 1;
      DistinctRows(rows[..last])
      + if exists i :: 0 <= i < last && RowKey(rows[i]) == RowKey(rows[last]) then [] else [rows[last]]
  }

  // ----------------------------------------------------------------- sorting

  /** The values of the ORDER BY expressions on a row; a failed evaluation is kept as Err. */
  type OrderKey = seq<Result<Value>>

  function CompareOrderValues(a: Value, b: Value, descending: bool): Ordering {
    var o := if a.Null? && b.Null? then Equal
             else if a.Null? then Less
             else if b.Null? then Greater
             else match PartialCompare(a, b) case Some(x) => x case None => Equal;
    if descending then (match o case Less => Greater case Greater => Less case Equal => Equal) else o
  }

  /** compare_order_rows with its error mapped to Equal, as every caller does. */
  function CompareOrderKeys(a: OrderKey, b: OrderKey, descending: seq<bool>): Ordering {
    if a == [] || b == [] || descending == [] || a[0].Err? || b[0].Err? then Equal
    else
      var o := CompareOrderValues(a[0].value, b[0].value, descending[0]);
      if o != Equal then o else CompareOrderKeys(a[1..], b[1..], descending[1..])
  }

  datatype Keyed = Keyed(key: OrderKey, row: Row)

  function InsertSorted(sorted: seq<Keyed>, item: Keyed, descending: seq<bool>): (r: seq<Keyed>)
    ensures |r| == |sorted| + 1
    ensures forall x :: x in r ==> x == item || x in sorted
  {
    if sorted == [] then [item]
    else if CompareOrderKeys(sorted[|sorted| - 1].key, item.key, descending) == Greater then
      InsertSorted(sorted[..|sorted| - 1], item, descending) + [sorted[|sorted| - 1]]
    else sorted + [item]
  }

  /** A stable sort. */
  function SortKeyed(items: seq<Keyed>, descending: seq<bool>): (r: seq<Keyed>)
    ensures |r| == |items|
    ensures forall x :: x in r ==> x in items
  {
    if items == [] then []
    else InsertSorted(SortKeyed(items[..|items| - 1], descending), items[|items| - 1], descending)
  }

  function RowsOf(items: seq<Keyed>): (r: seq<Row>)
    ensures |r| == |items|
  {
    seq(|items|, i requires 0 <= i < |items| => items[i].row)
  }

  function SortRows(keys: seq<OrderKey>, rows: seq<Row>, descending: seq<bool>): (r: seq<Row>)
    requires |keys| == |rows|
    ensures |r| == |rows|
    ensures forall i :: 0 <= i < |r| ==> r[i] in rows
  {
    var items := seq(|rows|, i requires 0 <= i < |rows| => Keyed(keys[i], rows[i]));
    var sorted := SortKeyed(items, descending);
    assert forall i :: 0 <= i < |sorted| ==> sorted[i] in items;
    RowsOf(sorted)
  }

  function Descending(orders: seq<OrderBy>): seq<bool> {
    seq(|orders|, i requires 0 <= i < |orders| => orders[i].descending)
  }

  // -------------------------------------------------------------- projection

  function WildcardPositions(columns: seq<BoundColumn>, table: Option<string>): (r: seq<nat>)
    ensures forall k :: 0 <= k < |r| ==> r[k] < |columns|
  {
    if columns == [] then []
    else
      var last := |columns| - 1;
      WildcardPositions(columns[..last], table)
      + if table.None? || SameName(columns[last].table, table.value) then [last] else []
  }

  function ItemColumns(item: SelectItem, columns: seq<BoundColumn>): Result<seq<BoundColumn>> {
    match item
    case Wildcard(table) =>
      var positions := WildcardPositions(columns, table);
      if positions == [] then Err
      else Ok(seq(|positions|, k requires 0 <= k < |positions| => columns[positions[k]]))
    case Item(expr, alias) =>
      var table := if expr.Column? && expr.qualifier.Some? && alias.None? then expr.qualifier.value else "";
      Ok([BoundColumn(table, if alias.Some? then alias.value else ExpressionName(expr))])
  }

  function ProjectionColumns(projection: seq<SelectItem>, columns: seq<BoundColumn>): Result<seq<BoundColumn>> {
    if projection == [] then Ok([])
    else
      var first :- ItemColumns(projection[0], columns);
      var rest :- ProjectionColumns(projection[1..], columns);
      Ok(first + rest)
  }

  // -------------------------------------------------------------- aggregates

  function NonNull(values: seq<Value>): (r: seq<Value>)
    ensures forall v :: v in r ==> v in values && !v.Null?
  {
    if values == [] then []
    else (if values[0].Null? then [] else [values[0]]) + NonNull(values[1..])
  }

  function DistinctValues(values: seq<Value>): seq<Value> {
    if values == [] then []
    else
      var last := |values| - 1;
      DistinctValues(values[..last])
      + if exists i :: 0 <= i < last && ValueKey(values[i]) == ValueKey(values[last]) then [] else [values[last]]
  }

  predicate IsNumber(v: Value) {
    v.Integer? || v.Float?
  }

  function SumOf(values: seq<Value>): real {
    if values == [] then 0.0
    else
      var last := values[|values| - 1];
      SumOf(values[..|values| - 1]) + if last.Integer? then last.i as real else if last.Float? then last.f else 0.0
  }

  /** Iterator::min_by keeps the first of equals. */
  function MinOf(values: seq<Value>): Value
    requires values != []
  {
    if |values| == 1 then values[0]
    else
      var best, last := MinOf(values[..|values| - 1]), values[|values| - 1];
      if PartialCompare(best, last) == Some(Greater) then last else best
  }

  /** Iterator::max_by keeps the last of equals. */
  function MaxOf(values: seq<Value>): Value
    requires values != []
  {
    if |values| == 1 then values[0]
    else
      var best, last := MaxOf(values[..|values| - 1]), values[|values| - 1];
      if PartialCompare(best, last) == Some(Greater) then best else last
  }

  /** eval_aggregate after its operand has been evaluated on every row of the group. */
  function FinishAggregate(fn: AggregateFunction, distinct: bool, all: seq<Value>): Result<Value> {
    var values := NonNull(if distinct then DistinctValues(all) else all);
    match fn
    case Count => Ok(Integer(|values|))
    case Min => Ok(if values == [] then Null else MinOf(values))
    case Max => Ok(if values == [] then Null else MaxOf(values))
    case Sum =>
      if values == [] then Ok(Null)
      else if exists v :: v in values && !IsNumber(v) then Err
      else if forall v :: v in values ==> v.Integer? then Ok(Integer(SumOf(values).Floor))
      else Ok(Float(SumOf(values)))
    case Avg =>
      if values == [] then Ok(Null)
      else if exists v :: v in values && !IsNumber(v) then Err
      else Ok(Float(SumOf(values) / (|values| as real)))
  }

  /** in_values */
  function InValues(v: Value, values: seq<Value>, negated: bool): SqlTruth {
    if v.Null? then Unknown
    else
      var found := exists c :: c in values && CompareSql(v, c, Eq) == True;
      var unknown := exists c :: c in values && c.Null?;
      var truth := if found then True else if unknown then Unknown else False;
      if negated then NotTruth(truth) else truth
  }
}
