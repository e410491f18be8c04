/** Write statements on the stored tables: candidate scans, in-place row changes and index maintenance
    refine what the statements mean on plain rows (src/sql/executor.rs). */
module Execute {
  import opened Wrappers
  import opened Ascii
  import opened Values
  import opened Syntax
  import opened Tables
  import opened TableEngine
  import opened Evaluator
  import opened IndexScan
  import opened IndexedEval
  import opened Statements
  import opened Ddl
  import opened SchemaInvariants

  /** Everything the engine relies on: indexes agree with rows and with the schema, rows are typed. */
  ghost predicate ValidStore(db: Db) {
    forall name :: name in db ==>
      Consistent(db[name]) && DefinitionsOf(db[name].indexes) == Effective(db[name].schema.indexes) && TableOk(db[name])
  }

  lemma ValidStoreIsValidDb(db: Db)
    requires ValidStore(db)
    ensures ValidDb(db)
    ensures DbOk(MeaningOf(db))
  {
    forall name | name in db ensures ValidTable(db[name]) {
      var t := db[name];
      EffectiveIsDefined(t.schema.indexes);
      forall i, k | 0 <= i < |t.indexes| && 0 <= k < |t.indexes[i].definition.columns|
        ensures ColumnIndex(t.schema.columns, t.indexes[i].definition.columns[k]).Some?
      {
        assert t.indexes[i].definition in DefinitionsOf(t.indexes);
        assert ColumnsExist(t.schema.columns, t.indexes[i].definition.columns);
      }
    }
  }

  // ------------------------------------------------------- the rows a write visits

  /** What becomes of one row: nothing when it is no candidate. */
  function ProbedRow(db: Db, name: string, t: Table, candidates: Option<set<nat>>, assignments: seq<Assignment>, selection: Option<Expr>, p: nat): Result<Option<Row>>
    requires p < |t.rows|
  {
    if IsCandidate(t, candidates, p) then UpdateRow(db, name, t.schema, assignments, selection, t.rows[p]) else Ok(None)
  }

  /** UPDATE over the first n rows when only candidates are examined. */
  function ProbedUpdate(db: Db, name: string, t: Table, candidates: Option<set<nat>>, assignments: seq<Assignment>, selection: Option<Expr>, n: nat): (r: Result<Effect>)
    requires n <= |t.rows|
    ensures r.Ok? ==> |r.value.rows| == n
  {
    if n == 0 then Ok(Effect([], 0))
    else
      UpdateNext(ProbedUpdate(db, name, t, candidates, assignments, selection, n - 1),
                 ProbedRow(db, name, t, candidates, assignments, selection, n - 1), t.rows[n - 1])
  }

  /** Whether DELETE removes a row; one that the probe skipped stays. */
  function ProbedVerdict(db: Db, name: string, t: Table, candidates: Option<set<nat>>, selection: Option<Expr>, p: nat): Result<bool>
    requires p < |t.rows|
  {
    if IsCandidate(t, candidates, p) then SelectionHolds(db, name, t.schema, selection, t.rows[p]) else Ok(false)
  }

  /** DELETE over the first n rows when only candidates are examined; the kept rows keep their ids. */
  function ProbedDelete(db: Db, name: string, t: Table, candidates: Option<set<nat>>, selection: Option<Expr>, n: nat): Result<Effect>
    requires n <= |t.rows|
  {
    if n == 0 then Ok(Effect([], 0))
    else
      DeleteNext(ProbedDelete(db, name, t, candidates, selection, n - 1),
                 ProbedVerdict(db, name, t, candidates, selection, n - 1), t.rows[n - 1])
  }

  /** What a data statement makes of its table when it runs on stored tables. */
  function StoredRows(db: Db, s: Statement): Result<Effect>
    requires s.Insert? || s.Update? || s.Delete?
  {
    var name := Lower(s.table);
    if name !in db || s.Insert? then ChangedRows(db, s)
    else
      var t := db[name];
      var candidates := CandidateRowIds(t, s.selection);
      if s.Update? then ProbedUpdate(db, name, t, candidates, s.assignments, s.selection, |t.rows|)
      else ProbedDelete(db, name, t, candidates, s.selection, |t.rows|)
  }

  // ------------------------------------------------------- index safety of a statement

  ghost predicate IndexSafeAssignments(db: Db, assignments: seq<Assignment>, sure: bool)
    requires ValidDb(db)
  {
    forall i :: 0 <= i < |assignments| ==> IndexSafeExpr(db, assignments[i].expr, map[], sure)
  }

  ghost predicate IndexSafeStatement(db: Db, s: Statement, sure: bool)
    requires ValidDb(db)
  {
    match s
    case Insert(table, _, source, onDuplicate) =>
      && IndexSafeAssignments(db, onDuplicate, sure)
      && (source.FromQuery? ==> IndexSafe(db, source.query, map[], sure))
    case Update(table, assignments, selection) =>
      && IndexSafeAssignments(db, assignments, sure) && IndexSafeOption(db, selection, map[], sure)
      && (Lower(table) in db ==> SafeSelection(db[Lower(table)], Lower(table), selection))
    case Delete(table, selection) =>
      && IndexSafeOption(db, selection, map[], sure)
      && (Lower(table) in db ==> SafeSelection(db[Lower(table)], Lower(table), selection))
    case Select(query) => IndexSafe(db, query, map[], sure)
    case _ => true
  }

  // ----------------------------------------------------- refinement: UPDATE and DELETE

  lemma SelectionRefines(db: Db, name: string, schema: TableSchema, selection: Option<Expr>, row: Row, sure: bool)
    requires ValidDb(db) && IndexSafeOption(db, selection, map[], sure)
    requires SelectionHolds(MeaningOf(db), name, schema, selection, row).Ok? && (sure || SelectionHolds(db, name, schema, selection, row).Ok?)
    ensures SelectionHolds(db, name, schema, selection, row) == SelectionHolds(MeaningOf(db), name, schema, selection, row)
  {
    if selection.Some? {
      ExprRefines(db, selection.value, TableColumns(Plain(schema, []), name), row, None, map[], sure);
    }
  }

  lemma {:induction false} AssignRefines(db: Db, name: string, schema: TableSchema, original: Row, assignments: seq<Assignment>, current: Row, sure: bool)
    requires ValidDb(db) && IndexSafeAssignments(db, assignments, sure)
    requires AssignRow(MeaningOf(db), name, schema, original, assignments, current).Ok? && (sure || AssignRow(db, name, schema, original, assignments, current).Ok?)
    ensures AssignRow(db, name, schema, original, assignments, current) == AssignRow(MeaningOf(db), name, schema, original, assignments, current)
    decreases |assignments|
  {
    if assignments != [] {
      var columns := TableColumns(Plain(schema, []), name);
      ExprRefines(db, assignments[0].expr, columns, original, None, map[], sure);
      var at := ColumnIndex(schema.columns, assignments[0].column).value;
      var v := EvalExpr(MeaningOf(db), assignments[0].expr, columns, original, None, map[]).value;
      AssignRefines(db, name, schema, original, assignments[1..], current[at := CoerceTo(v, schema.columns[at].dataType).value], sure);
    }
  }

  /** A row that the probe skips is not selected. */
  lemma SkippedIsNotSelected(db: Db, name: string, t: Table, selection: Option<Expr>, p: nat)
    requires ValidTable(t) && p < |t.rows| && SafeSelection(t, name, selection)
    requires !IsCandidate(t, CandidateRowIds(t, selection), p)
    requires SelectionHolds(db, name, t.schema, selection, t.rows[p]).Ok?
    ensures SelectionHolds(db, name, t.schema, selection, t.rows[p]) == Ok(false)
  {
    var columns := TableColumns(t, name);
    assert TableColumns(Plain(t.schema, []), name) == columns;
    if SelectionHolds(db, name, t.schema, selection, t.rows[p]) == Ok(true) {
      CandidatesAreComplete(db, t, name, selection.value, columns, t.rows[p], map[], p);
    }
  }

  /** Updates whose rows agree one by one. */
  lemma {:induction false} UpdatesAgree(db: Db, m: Db, name: string, t: Table, candidates: Option<set<nat>>, assignments: seq<Assignment>, selection: Option<Expr>, n: nat)
    requires n <= |t.rows|
    requires forall p :: 0 <= p < n ==>
               ProbedRow(db, name, t, candidates, assignments, selection, p) == UpdateRow(m, name, t.schema, assignments, selection, t.rows[p])
    ensures ProbedUpdate(db, name, t, candidates, assignments, selection, n) == UpdateRows(m, name, t.schema, t.rows, assignments, selection, n)
    decreases n
  {
    if n > 0 {
      UpdatesAgree(db, m, name, t, candidates, assignments, selection, n - 1);
    }
  }

  lemma {:induction false} UpdatedRowsSucceed(db: Db, name: string, t: Table, assignments: seq<Assignment>, selection: Option<Expr>, n: nat)
    requires n <= |t.rows| && UpdateRows(db, name, t.schema, t.rows, assignments, selection, n).Ok?
    ensures forall p :: 0 <= p < n ==> UpdateRow(db, name, t.schema, assignments, selection, t.rows[p]).Ok?
    decreases n
  {
    if n > 0 {
      UpdatedRowsSucceed(db, name, t, assignments, selection, n - 1);
    }
  }

  lemma {:induction false} ProbedRowsSucceed(db: Db, name: string, t: Table, candidates: Option<set<nat>>, assignments: seq<Assignment>, selection: Option<Expr>, n: nat)
    requires n <= |t.rows| && ProbedUpdate(db, name, t, candidates, assignments, selection, n).Ok?
    ensures forall p :: 0 <= p < n ==> ProbedRow(db, name, t, candidates, assignments, selection, p).Ok?
    decreases n
  {
    if n > 0 {
      ProbedRowsSucceed(db, name, t, candidates, assignments, selection, n - 1);
    }
  }

  lemma UpdateRefines(db: Db, name: string, assignments: seq<Assignment>, selection: Option<Expr>, n: nat, sure: bool)
    requires ValidDb(db) && name in db && n <= |db[name].rows|
    requires IndexSafeAssignments(db, assignments, sure) && IndexSafeOption(db, selection, map[], sure) && SafeSelection(db[name], name, selection)
    requires UpdateRows(MeaningOf(db), name, db[name].schema, db[name].rows, assignments, selection, n).Ok?
    requires sure || ProbedUpdate(db, name, db[name], CandidateRowIds(db[name], selection), assignments, selection, n).Ok?
    ensures ProbedUpdate(db, name, db[name], CandidateRowIds(db[name], selection), assignments, selection, n)
         == UpdateRows(MeaningOf(db), name, db[name].schema, db[name].rows, assignments, selection, n)
  {
    var t, m := db[name], MeaningOf(db);
    var candidates := CandidateRowIds(t, selection);
    UpdatedRowsSucceed(m, name, t, assignments, selection, n);
    if !sure {
      ProbedRowsSucceed(db, name, t, candidates, assignments, selection, n);
    }
    forall p | 0 <= p < n
      ensures ProbedRow(db, name, t, candidates, assignments, selection, p) == UpdateRow(m, name, t.schema, assignments, selection, t.rows[p])
    {
      UpdateRowRefines(db, name, assignments, selection, p, sure);
    }
    UpdatesAgree(db, m, name, t, candidates, assignments, selection, n);
  }

  lemma UpdateRowRefines(db: Db, name: string, assignments: seq<Assignment>, selection: Option<Expr>, p: nat, sure: bool)
    requires ValidDb(db) && name in db && p < |db[name].rows|
    requires IndexSafeAssignments(db, assignments, sure) && IndexSafeOption(db, selection, map[], sure) && SafeSelection(db[name], name, selection)
    requires UpdateRow(MeaningOf(db), name, db[name].schema, assignments, selection, db[name].rows[p]).Ok?
    requires sure || ProbedRow(db, name, db[name], CandidateRowIds(db[name], selection), assignments, selection, p).Ok?
    ensures ProbedRow(db, name, db[name], CandidateRowIds(db[name], selection), assignments, selection, p)
         == UpdateRow(MeaningOf(db), name, db[name].schema, assignments, selection, db[name].rows[p])
  {
    var t := db[name];
    if !IsCandidate(t, CandidateRowIds(t, selection), p) {
      SkippedIsNotSelected(MeaningOf(db), name, t, selection, p);
    } else {
      SelectionRefines(db, name, t.schema, selection, t.rows[p], sure);
      if SelectionHolds(MeaningOf(db), name, t.schema, selection, t.rows[p]).value {
        AssignRefines(db, name, t.schema, t.rows[p], assignments, t.rows[p], sure);
      }
    }
  }

  /** Deletions whose verdicts agree row by row. */
  lemma {:induction false} DeletesAgree(db: Db, m: Db, name: string, t: Table, candidates: Option<set<nat>>, selection: Option<Expr>, n: nat)
    requires n <= |t.rows|
    requires forall p :: 0 <= p < n ==>
               ProbedVerdict(db, name, t, candidates, selection, p) == SelectionHolds(m, name, t.schema, selection, t.rows[p])
    ensures ProbedDelete(db, name, t, candidates, selection, n) == DeleteRows(m, name, t.schema, t.rows, selection, n)
    decreases n
  {
    if n > 0 {
      DeletesAgree(db, m, name, t, candidates, selection, n - 1);
    }
  }

  lemma {:induction false} SelectedRowsSucceed(db: Db, name: string, t: Table, selection: Option<Expr>, n: nat)
    requires n <= |t.rows| && DeleteRows(db, name, t.schema, t.rows, selection, n).Ok?
    ensures forall p :: 0 <= p < n ==> SelectionHolds(db, name, t.schema, selection, t.rows[p]).Ok?
    decreases n
  {
    if n > 0 {
      SelectedRowsSucceed(db, name, t, selection, n - 1);
    }
  }

  lemma {:induction false} ProbedVerdictsSucceed(db: Db, name: string, t: Table, candidates: Option<set<nat>>, selection: Option<Expr>, n: nat)
    requires n <= |t.rows| && ProbedDelete(db, name, t, candidates, selection, n).Ok?
    ensures forall p :: 0 <= p < n ==> ProbedVerdict(db, name, t, candidates, selection, p).Ok?
    decreases n
  {
    if n > 0 {
      ProbedVerdictsSucceed(db, name, t, candidates, selection, n - 1);
    }
  }

  lemma DeleteRefines(db: Db, name: string, selection: Option<Expr>, n: nat, sure: bool)
    requires ValidDb(db) && name in db && n <= |db[name].rows|
    requires IndexSafeOption(db, selection, map[], sure) && SafeSelection(db[name], name, selection)
    requires DeleteRows(MeaningOf(db), name, db[name].schema, db[name].rows, selection, n).Ok?
    requires sure || ProbedDelete(db, name, db[name], CandidateRowIds(db[name], selection), selection, n).Ok?
    ensures ProbedDelete(db, name, db[name], CandidateRowIds(db[name], selection), selection, n)
         == DeleteRows(MeaningOf(db), name, db[name].schema, db[name].rows, selection, n)
  {
    var t, m := db[name], MeaningOf(db);
    var candidates := CandidateRowIds(t, selection);
    SelectedRowsSucceed(m, name, t, selection, n);
    if !sure {
      ProbedVerdictsSucceed(db, name, t, candidates, selection, n);
    }
    forall p | 0 <= p < n
      ensures ProbedVerdict(db, name, t, candidates, selection, p) == SelectionHolds(m, name, t.schema, selection, t.rows[p])
    {
      DeleteRowRefines(db, name, selection, p, sure);
    }
    DeletesAgree(db, m, name, t, candidates, selection, n);
  }

  lemma DeleteRowRefines(db: Db, name: string, selection: Option<Expr>, p: nat, sure: bool)
    requires ValidDb(db) && name in db && p < |db[name].rows|
    requires IndexSafeOption(db, selection, map[], sure) && SafeSelection(db[name], name, selection)
    requires SelectionHolds(MeaningOf(db), name, db[name].schema, selection, db[name].rows[p]).Ok?
    requires sure || ProbedVerdict(db, name, db[name], CandidateRowIds(db[name], selection), selection, p).Ok?
    ensures ProbedVerdict(db, name, db[name], CandidateRowIds(db[name], selection), selection, p)
         == SelectionHolds(MeaningOf(db), name, db[name].schema, selection, db[name].rows[p])
  {
    if !IsCandidate(db[name], CandidateRowIds(db[name], selection), p) {
      SkippedIsNotSelected(MeaningOf(db), name, db[name], selection, p);
    } else {
      SelectionRefines(db, name, db[name].schema, selection, db[name].rows[p], sure);
    }
  }

  // -------------------------------------------------------------- refinement: INSERT

  lemma {:induction false} BoundStaysSafe(db: Db, e: Expr, columns: seq<ColumnDef>, incoming: Row, sure: bool)
    requires ValidDb(db) && IndexSafeExpr(db, e, map[], sure)
    ensures IndexSafeExpr(db, BindIncoming(e, columns, incoming), map[], sure)
    decreases e
  {
    match e
    case Binary(left, _, right) => BoundStaysSafe(db, left, columns, incoming, sure); BoundStaysSafe(db, right, columns, incoming, sure);
    case Unary(_, x) => BoundStaysSafe(db, x, columns, incoming, sure);
    case IsNull(x, _) => BoundStaysSafe(db, x, columns, incoming, sure);
    case LikeExpr(x, p, _) => BoundStaysSafe(db, x, columns, incoming, sure); BoundStaysSafe(db, p, columns, incoming, sure);
    case InList(x, list, _) =>
      BoundStaysSafe(db, x, columns, incoming, sure);
      forall i | 0 <= i < |list| ensures IndexSafeExpr(db, BindIncoming(list[i], columns, incoming), map[], sure) {
        BoundStaysSafe(db, list[i], columns, incoming, sure);
      }
    case _ =>
  }

  lemma {:induction false} DuplicateRefines(db: Db, name: string, schema: TableSchema, incoming: Row, assignments: seq<Assignment>, current: Row, sure: bool)
    requires ValidDb(db) && IndexSafeAssignments(db, assignments, sure)
    requires AssignDuplicate(MeaningOf(db), name, schema, incoming, assignments, current).Ok? && (sure || AssignDuplicate(db, name, schema, incoming, assignments, current).Ok?)
    ensures AssignDuplicate(db, name, schema, incoming, assignments, current)
         == AssignDuplicate(MeaningOf(db), name, schema, incoming, assignments, current)
    decreases |assignments|
  {
    if assignments != [] {
      var columns := TableColumns(Plain(schema, []), name);
      var bound := BindIncoming(assignments[0].expr, schema.columns, incoming);
      BoundStaysSafe(db, assignments[0].expr, schema.columns, incoming, sure);
      ExprRefines(db, bound, columns, current, None, map[], sure);
      var at := ColumnIndex(schema.columns, assignments[0].column).value;
      var v := EvalExpr(MeaningOf(db), bound, columns, current, None, map[]).value;
      DuplicateRefines(db, name, schema, incoming, assignments[1..], current[at := CoerceOrKeep(v, schema.columns[at].dataType)], sure);
    }
  }

  lemma InsertRowRefines(db: Db, name: string, schema: TableSchema, rows: seq<Row>, row: Row, onDuplicate: seq<Assignment>, sure: bool)
    requires ValidDb(db) && IndexSafeAssignments(db, onDuplicate, sure)
    requires InsertRow(MeaningOf(db), name, schema, rows, row, onDuplicate).Ok? && (sure || InsertRow(db, name, schema, rows, row, onDuplicate).Ok?)
    ensures InsertRow(db, name, schema, rows, row, onDuplicate) == InsertRow(MeaningOf(db), name, schema, rows, row, onDuplicate)
  {
    var conflicts := ConflictPositions(schema, rows, row);
    if |conflicts| == 1 {
      DuplicateRefines(db, name, schema, row, onDuplicate, rows[TheElement(conflicts)], sure);
    }
  }

  lemma InsertNextRefines(db: Db, name: string, schema: TableSchema, before: Result<Effect>, row: Row, onDuplicate: seq<Assignment>, sure: bool)
    requires ValidDb(db) && IndexSafeAssignments(db, onDuplicate, sure)
    requires InsertNext(MeaningOf(db), name, schema, before, row, onDuplicate).Ok? && (sure || InsertNext(db, name, schema, before, row, onDuplicate).Ok?)
    ensures InsertNext(db, name, schema, before, row, onDuplicate) == InsertNext(MeaningOf(db), name, schema, before, row, onDuplicate)
  {
    InsertNextParts(MeaningOf(db), name, schema, before, row, onDuplicate);
    InsertNextParts(db, name, schema, before, row, onDuplicate);
    InsertRowRefines(db, name, schema, before.value.rows, row, onDuplicate, sure);
    InsertNextAgrees(db, MeaningOf(db), name, schema, before, row, onDuplicate);
  }

  lemma InsertNextParts(db: Db, name: string, schema: TableSchema, before: Result<Effect>, row: Row, onDuplicate: seq<Assignment>)
    ensures InsertNext(db, name, schema, before, row, onDuplicate).Ok? ==>
              before.Ok? && InsertRow(db, name, schema, before.value.rows, row, onDuplicate).Ok?
  {
  }

  lemma InsertNextAgrees(db: Db, m: Db, name: string, schema: TableSchema, before: Result<Effect>, row: Row, onDuplicate: seq<Assignment>)
    requires before.Ok? ==> InsertRow(db, name, schema, before.value.rows, row, onDuplicate) == InsertRow(m, name, schema, before.value.rows, row, onDuplicate)
    ensures InsertNext(db, name, schema, before, row, onDuplicate) == InsertNext(m, name, schema, before, row, onDuplicate)
  {
  }

  lemma {:induction false} InsertRowsRefine(db: Db, name: string, schema: TableSchema, rows: seq<Row>, incoming: seq<Row>, onDuplicate: seq<Assignment>, sure: bool)
    requires ValidDb(db) && IndexSafeAssignments(db, onDuplicate, sure)
    requires InsertRows(MeaningOf(db), name, schema, rows, incoming, onDuplicate).Ok? && (sure || InsertRows(db, name, schema, rows, incoming, onDuplicate).Ok?)
    ensures InsertRows(db, name, schema, rows, incoming, onDuplicate) == InsertRows(MeaningOf(db), name, schema, rows, incoming, onDuplicate)
    decreases |incoming|
  {
    if incoming != [] {
      var last := |incoming| - 1;
      InsertRowsRefine(db, name, schema, rows, incoming[..last], onDuplicate, sure);
      InsertNextRefines(db, name, schema, InsertRows(MeaningOf(db), name, schema, rows, incoming[..last], onDuplicate), incoming[last], onDuplicate, sure);
    }
  }

  lemma InsertRefines(db: Db, s: Statement, sure: bool)
    requires ValidDb(db) && s.Insert? && IndexSafeStatement(db, s, sure)
    requires ChangedRows(MeaningOf(db), s).Ok? && (sure || ChangedRows(db, s).Ok?)
    ensures ChangedRows(db, s) == ChangedRows(MeaningOf(db), s)
  {
    var name := Lower(s.table);
    if s.source.FromQuery? {
      QueryRefines(db, s.source.query, map[], sure);
    }
    var proposed := ProposedRows(MeaningOf(db), s.source).value;
    assert ProposedRows(db, s.source) == Ok(proposed);
    var prepared := Collect(PrepareRows(db[name].schema.columns, s.target, proposed)).value;
    InsertRowsRefine(db, name, db[name].schema, db[name].rows, prepared, s.onDuplicate, sure);
  }

  /** A data statement that succeeds on full scans and on the stored tables changes the rows in the same way. */
  lemma StoredRefines(db: Db, s: Statement, sure: bool)
    requires ValidDb(db) && (s.Insert? || s.Update? || s.Delete?) && IndexSafeStatement(db, s, sure)
    requires ChangedRows(MeaningOf(db), s).Ok? && (sure || StoredRows(db, s).Ok?)
    ensures StoredRows(db, s) == ChangedRows(MeaningOf(db), s)
  {
    match s
    case Insert(_, _, _, _) => InsertRefines(db, s, sure);
    case Update(table, assignments, selection) =>
      UpdateRefines(db, Lower(table), assignments, selection, |db[Lower(table)].rows|, sure);
    case Delete(table, selection) =>
      DeleteRefines(db, Lower(table), selection, |db[Lower(table)].rows|, sure);
    case _ =>
  }

  // ------------------------------------------------------ a stored change stays typed

  lemma UpdateNextTyped(schema: TableSchema, before: Result<Effect>, step: Result<Option<Row>>, row: Row)
    requires Typed(schema, [row]) && (before.Ok? ==> Typed(schema, before.value.rows))
    requires step.Ok? && step.value.Some? ==> Typed(schema, [step.value.value])
    ensures var r := UpdateNext(before, step, row);
            r.Ok? ==> Typed(schema, r.value.rows)
  {
    if before.Ok? && step.Ok? {
      TypedAppend(schema, before.value.rows, if step.value.Some? then step.value.value else row);
    }
  }

  lemma {:induction false} ProbedUpdateTyped(db: Db, name: string, t: Table, candidates: Option<set<nat>>, assignments: seq<Assignment>, selection: Option<Expr>, n: nat)
    requires n <= |t.rows| && Typed(t.schema, t.rows)
    ensures var r := ProbedUpdate(db, name, t, candidates, assignments, selection, n);
            r.Ok? ==> Typed(t.schema, r.value.rows)
    decreases n
  {
    if n > 0 {
      ProbedUpdateTyped(db, name, t, candidates, assignments, selection, n - 1);
      TypedRow(t.schema, t.rows, n - 1);
      ProbedRowTyped(db, name, t, candidates, assignments, selection, n - 1);
      UpdateNextTyped(t.schema, ProbedUpdate(db, name, t, candidates, assignments, selection, n - 1),
                      ProbedRow(db, name, t, candidates, assignments, selection, n - 1), t.rows[n - 1]);
    }
  }

  lemma ProbedRowTyped(db: Db, name: string, t: Table, candidates: Option<set<nat>>, assignments: seq<Assignment>, selection: Option<Expr>, p: nat)
    requires p < |t.rows| && Typed(t.schema, [t.rows[p]])
    ensures var step := ProbedRow(db, name, t, candidates, assignments, selection, p);
            step.Ok? && step.value.Some? ==> Typed(t.schema, [step.value.value])
  {
    var step := ProbedRow(db, name, t, candidates, assignments, selection, p);
    if step.Ok? && step.value.Some? {
      AssignedTyped(db, name, t.schema, t.rows[p], assignments, t.rows[p]);
    }
  }

  lemma {:induction false} ProbedDeleteTyped(db: Db, name: string, t: Table, candidates: Option<set<nat>>, selection: Option<Expr>, n: nat)
    requires n <= |t.rows| && Typed(t.schema, t.rows)
    requires ProbedDelete(db, name, t, candidates, selection, n).Ok?
    ensures Typed(t.schema, ProbedDelete(db, name, t, candidates, selection, n).value.rows)
    decreases n
  {
    if n > 0 {
      ProbedDeleteTyped(db, name, t, candidates, selection, n - 1);
      var before := ProbedDelete(db, name, t, candidates, selection, n - 1).value;
      TypedRow(t.schema, t.rows, n - 1);
      TypedAppend(t.schema, before.rows, t.rows[n - 1]);
    }
  }

  lemma StoredRowsTyped(db: Db, s: Statement)
    requires DbOk(db) && (s.Insert? || s.Update? || s.Delete?) && StoredRows(db, s).Ok?
    ensures Typed(db[Lower(s.table)].schema, StoredRows(db, s).value.rows)
  {
    var name := Lower(s.table);
    match s
    case Insert(_, _, _, _) => DataStatementKeepsTypes(db, s);
    case Update(_, assignments, selection) =>
      ProbedUpdateTyped(db, name, db[name], CandidateRowIds(db[name], selection), assignments, selection, |db[name].rows|);
    case Delete(_, selection) =>
      ProbedDeleteTyped(db, name, db[name], CandidateRowIds(db[name], selection), selection, |db[name].rows|);
    case _ =>
  }

  // -------------------------------------------------------------- one write statement

  function WithRows(db: Db, name: string, effect: Result<Effect>): Result<Db> {
    if effect.Err? || name !in db then Err else Ok(MeaningOf(db)[name := Plain(db[name].schema, effect.value.rows)])
  }

  /** The meaning of the catalog after a write on stored tables, before validation. */
  function StoredChange(db: Db, s: Statement): Result<Db>
    requires IsWrite(s)
  {
    if IsSchemaStatement(s) then SchemaChange(MeaningOf(db), s) else WithRows(db, Lower(s.table), StoredRows(db, s))
  }

  ghost function StoredWrite(db: Db, s: Statement): Result<Db>
    requires IsWrite(s)
  {
    var changed := StoredChange(db, s);
    if changed.Ok? && ConstraintsHold(changed.value) then changed else Err
  }

  lemma StoredChangeRefines(db: Db, s: Statement, sure: bool)
    requires ValidDb(db) && IsWrite(s) && IndexSafeStatement(db, s, sure)
    requires Changed(MeaningOf(db), s).Ok? && (sure || StoredChange(db, s).Ok?)
    ensures StoredChange(db, s) == Changed(MeaningOf(db), s)
  {
    if !IsSchemaStatement(s) {
      StoredRefines(db, s, sure);
    }
  }

  /** A write that succeeds on full scans and on the stored tables has the same effect. With sure hypotheses,
      success on full scans is enough. */
  lemma StoredWriteRefines(db: Db, s: Statement, sure: bool)
    requires ValidDb(db) && IsWrite(s) && IndexSafeStatement(db, s, sure)
    requires ExecWrite(MeaningOf(db), s).Ok? && (sure || StoredWrite(db, s).Ok?)
    ensures StoredWrite(db, s) == ExecWrite(MeaningOf(db), s)
  {
    StoredChangeRefines(db, s, sure);
  }

  lemma StoredChangeKeepsOk(db: Db, s: Statement)
    requires ValidStore(db) && IsWrite(s) && StatementOk(s) && StoredChange(db, s).Ok?
    ensures DbOk(StoredChange(db, s).value)
  {
    ValidStoreIsValidDb(db);
    if IsSchemaStatement(s) {
      WritesKeepOk(MeaningOf(db), s);
    } else {
      StoredRowsTyped(db, s);
    }
  }
}
