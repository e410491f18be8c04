/** From the text of column definitions to CREATE TABLE and ALTER TABLE: a CHECK written at a column is kept
    twice, so each placeholder in it is numbered twice (convert_column_def in src/sql/parser.rs). */
module CheckText {
  import opened Wrappers
  import opened Ascii
  import opened Values
  import opened Syntax
  import opened Relations
  import opened Parameters
  import opened CheckExpressions
  import opened Prepared

  // ------------------------------------------------------------------ column definitions

  datatype ColumnOption =
    | NullOption
    | NotNullOption
    | DefaultOption(value: Value)
    | UniqueOption(isPrimary: bool)
    | CheckOption(name: Option<string>, expr: Expr)
    | ForeignKeyOption(name: Option<string>, foreignTable: string, referred: seq<string>)

  datatype ColumnText = ColumnText(name: string, dataType: DataType, options: seq<ColumnOption>)

  /** A column and the constraints that its definition brings along. */
  datatype Definition = Definition(column: ColumnDef, constraints: seq<TableConstraint>)

  function PlainColumn(text: ColumnText): ColumnDef {
    ColumnDef(Lower(text.name), text.dataType, true, false, false, None, [])
  }

  function WithOption(d: Definition, option: ColumnOption): Definition {
    match option
    case NullOption => d.(column := d.column.(nullable := true))
    case NotNullOption => d.(column := d.column.(nullable := false))
    case DefaultOption(value) => d.(column := d.column.(default := Some(value)))
    case UniqueOption(isPrimary) =>
      d.(column := if isPrimary then d.column.(primaryKey := true, unique := true, nullable := false) else d.column.(unique := true))
    case CheckOption(name, expr) =>
      Definition(d.column.(checks := d.column.checks + [expr]), d.constraints + [Check(LowerOption(name), expr)])
    case ForeignKeyOption(name, foreignTable, referred) => d.(constraints := d.constraints + [Reference(d.column, option)])
  }

  function Reference(column: ColumnDef, option: ColumnOption): TableConstraint
    requires option.ForeignKeyOption?
  {
    ForeignKey(LowerOption(option.name), [column.name], Lower(option.foreignTable), LowerNames(option.referred))
  }

  function LowerOption(name: Option<string>): Option<string> {
    if name.Some? then Some(Lower(name.value)) else None
  }

  function LowerNames(names: seq<string>): (r: seq<string>)
    ensures |r| == |names|
  {
    seq(|names|, i requires 0 <= i < |names| => Lower(names[i]))
  }

  function WithOptions(d: Definition, options: seq<ColumnOption>): Definition {
    if options == [] then d else WithOption(WithOptions(d, options[..|options| - 1]), options[|options| - 1])
  }

  /** The key that a column flag stands for. */
  function KeyConstraint(column: ColumnDef): seq<TableConstraint> {
    if column.primaryKey then [PrimaryKey(None, [column.name])]
    else if column.unique then [Unique(None, [column.name])]
    else []
  }

  function Converted(text: ColumnText): Definition {
    var d := WithOptions(Definition(PlainColumn(text), []), text.options);
    Definition(d.column, d.constraints + KeyConstraint(d.column))
  }

  /** convert_column_def */
  method ConvertColumnDef(text: ColumnText) returns (column: ColumnDef, constraints: seq<TableConstraint>)
    ensures Definition(column, constraints) == Converted(text)
    ensures column.checks == ChecksIn(text.options) && InConstraints(constraints) == ChecksIn(text.options)
  {
    column, constraints := PlainColumn(text), [];
    for i := 0 to |text.options|
      invariant Definition(column, constraints) == WithOptions(Definition(PlainColumn(text), []), text.options[..i])
    {
      assert text.options[..i + 1][..i] == text.options[..i];
      match text.options[i] {
        case NullOption => column := column.(nullable := true);
        case NotNullOption => column := column.(nullable := false);
        case DefaultOption(value) => column := column.(default := Some(value));
        case UniqueOption(isPrimary) =>
          if isPrimary {
            column := column.(primaryKey := true, unique := true, nullable := false);
          } else {
            column := column.(unique := true);
          }
        case CheckOption(name, expr) =>
          column := column.(checks := column.checks + [expr]);
          constraints := constraints + [Check(LowerOption(name), expr)];
        case ForeignKeyOption(name, foreignTable, referred) =>
          constraints := constraints + [Reference(column, text.options[i])];
      }
    }
    assert text.options[..|text.options|] == text.options;
    if column.primaryKey {
      constraints := constraints + [PrimaryKey(None, [column.name])];
    } else if column.unique {
      constraints := constraints + [Unique(None, [column.name])];
    } else {
      assert constraints + [] == constraints;
    }
    ChecksAreDoubled(text);
  }

  /** The CHECKs that the text of a column holds. */
  function ChecksIn(options: seq<ColumnOption>): seq<Expr> {
    if options == [] then []
    else
      var before, last := ChecksIn(options[..|options| - 1]), options[|options| - 1];
      if last.CheckOption? then before + [last.expr] else before
  }

  lemma InConstraintsNext(constraints: seq<TableConstraint>, c: TableConstraint)
    ensures InConstraints(constraints + [c]) == InConstraints(constraints) + InConstraint(c)
  {
    assert (constraints + [c])[..|constraints|] == constraints;
  }

  lemma {:induction false} OptionsAreDoubled(d: Definition, options: seq<ColumnOption>)
    requires d.column.checks == [] && d.constraints == []
    ensures WithOptions(d, options).column.checks == ChecksIn(options)
    ensures InConstraints(WithOptions(d, options).constraints) == ChecksIn(options)
    decreases options
  {
    if options != [] {
      var init, last := options[..|options| - 1], options[|options| - 1];
      OptionsAreDoubled(d, init);
      var before := WithOptions(d, init);
      match last
      case CheckOption(name, expr) => InConstraintsNext(before.constraints, Check(LowerOption(name), expr));
      case ForeignKeyOption(_, _, _) => InConstraintsNext(before.constraints, Reference(before.column, last));
      case _ =>
    }
  }

  /** Every CHECK of a column definition is kept with the column and once more as a constraint of the table. */
  lemma ChecksAreDoubled(text: ColumnText)
    ensures Converted(text).column.checks == ChecksIn(text.options)
    ensures InConstraints(Converted(text).constraints) == ChecksIn(text.options)
  {
    var d := WithOptions(Definition(PlainColumn(text), []), text.options);
    OptionsAreDoubled(Definition(PlainColumn(text), []), text.options);
    if KeyConstraint(d.column) == [] {
      assert d.constraints + [] == d.constraints;
    } else {
      InConstraintsNext(d.constraints, KeyConstraint(d.column)[0]);
    }
  }

  // -------------------------------------------------------------------------- statements

  datatype OperationText =
    | AddColumnText(column: ColumnText, ifNotExists: bool)
    | ChangeColumnText(oldName: string, column: ColumnText)
    | OtherOperation(operation: AlterOperation)

  datatype StatementText =
    | CreateTableText(table: string, columns: seq<ColumnText>, constraints: seq<TableConstraint>, ifNotExists: bool)
    | AlterTableText(table: string, operations: seq<OperationText>)
    | ExplainText(inner: StatementText)
    | OtherStatement(statement: Statement)

  function ParsedColumns(columns: seq<ColumnText>): (r: seq<ColumnDef>)
    ensures |r| == |columns|
  {
    seq(|columns|, i requires 0 <= i < |columns| => Converted(columns[i]).column)
  }

  function ColumnConstraints(columns: seq<ColumnText>): seq<TableConstraint> {
    if columns == [] then [] else ColumnConstraints(columns[..|columns| - 1]) + Converted(columns[|columns| - 1]).constraints
  }

  function ParsedOperation(text: OperationText): AlterOperation {
    match text
    case AddColumnText(column, ifNotExists) => AddColumn(Converted(column).column, Converted(column).constraints, ifNotExists)
    case ChangeColumnText(oldName, column) => ModifyColumn(Lower(oldName), Converted(column).column, Converted(column).constraints)
    case OtherOperation(operation) => operation
  }

  function ParsedOperations(operations: seq<OperationText>): (r: seq<AlterOperation>)
    ensures |r| == |operations|
  {
    seq(|operations|, i requires 0 <= i < |operations| => ParsedOperation(operations[i]))
  }

  /** convert_statement, before placeholders are numbered. */
  function Parsed(text: StatementText): Statement {
    match text
    case CreateTableText(table, columns, constraints, ifNotExists) =>
      CreateTable(table, ParsedColumns(columns), ColumnConstraints(columns) + constraints, ifNotExists)
    case AlterTableText(table, operations) => AlterTable(table, ParsedOperations(operations))
    case ExplainText(inner) => Explain(Parsed(inner))
    case OtherStatement(statement) => statement
  }

  // ----------------------------------------------------------------- placeholders in the text

  function ChecksOfColumn(column: ColumnText): seq<Expr> {
    ChecksIn(column.options)
  }

  function ColumnLevel(operation: OperationText): seq<Expr> {
    if operation.OtherOperation? then [] else ChecksIn(operation.column.options)
  }

  function Written(operation: OperationText): seq<Expr> {
    if operation.OtherOperation? then InOperation(operation.operation) else ChecksIn(operation.column.options)
  }

  /** The placeholders that a reader of the text counts. */
  function InText(text: StatementText): seq<nat> {
    match text
    case CreateTableText(_, columns, constraints, _) => InAll(OfAll(ChecksOfColumn, columns)) + InAll(InConstraints(constraints))
    case AlterTableText(_, operations) => InAll(OfAll(Written, operations))
    case ExplainText(inner) => InText(inner)
    case OtherStatement(statement) => InStatement(statement)
  }

  /** Those of them that stand in a CHECK at a column. */
  function InColumnChecks(text: StatementText): seq<nat> {
    match text
    case CreateTableText(_, columns, _, _) => InAll(OfAll(ChecksOfColumn, columns))
    case AlterTableText(_, operations) => InAll(OfAll(ColumnLevel, operations))
    case ExplainText(inner) => InColumnChecks(inner)
    case OtherStatement(_) => []
  }

  lemma {:induction false} InAllAppends(a: seq<Expr>, b: seq<Expr>)
    ensures InAll(a + b) == InAll(a) + InAll(b)
    decreases b
  {
    if b == [] {
      assert a + b == a;
    } else {
      var init, last := b[..|b| - 1], b[|b| - 1];
      InAllAppends(a, init);
      InAllNext(a + init, last);
      InAllNext(init, last);
      assert a + b == (a + init) + [last] && b == init + [last];
    }
  }

  lemma InAllNext(es: seq<Expr>, e: Expr)
    ensures InAll(es + [e]) == InAll(es) + InExpr(e)
  {
    assert InEach(es + [e]) == InEach(es) + [InExpr(e)];
    FlattenAppend(InEach(es), InExpr(e));
  }

  lemma {:induction false} ColumnsAreDoubled(columns: seq<ColumnText>)
    ensures InColumns(ParsedColumns(columns)) == OfAll(ChecksOfColumn, columns)
    ensures InConstraints(ColumnConstraints(columns)) == OfAll(ChecksOfColumn, columns)
    decreases columns
  {
    if columns != [] {
      var init, last := columns[..|columns| - 1], columns[|columns| - 1];
      ColumnsAreDoubled(init);
      ChecksAreDoubled(last);
      assert ParsedColumns(columns)[..|init|] == ParsedColumns(init);
      OfAllAppends(InConstraint, ColumnConstraints(init), Converted(last).constraints);
    }
  }

  lemma OperationIsDoubled(operation: OperationText)
    ensures |InAll(InOperation(ParsedOperation(operation)))| == |InAll(Written(operation))| + |InAll(ColumnLevel(operation))|
  {
    if !operation.OtherOperation? {
      ChecksAreDoubled(operation.column);
      InAllAppends(ChecksIn(operation.column.options), ChecksIn(operation.column.options));
    }
  }

  lemma {:induction false} OperationsAreDoubled(operations: seq<OperationText>)
    ensures |InAll(InOperations(ParsedOperations(operations)))| == |InAll(OfAll(Written, operations))| + |InAll(OfAll(ColumnLevel, operations))|
    decreases operations
  {
    if operations != [] {
      var init, last := operations[..|operations| - 1], operations[|operations| - 1];
      OperationsAreDoubled(init);
      OperationIsDoubled(last);
      assert ParsedOperations(operations)[..|init|] == ParsedOperations(init);
      InAllAppends(InOperations(ParsedOperations(init)), InOperation(ParsedOperation(last)));
      InAllAppends(OfAll(Written, init), Written(last));
      InAllAppends(OfAll(ColumnLevel, init), ColumnLevel(last));
    }
  }

  lemma CreateIsDoubled(columns: seq<ColumnText>, constraints: seq<TableConstraint>)
    ensures InAll(InColumns(ParsedColumns(columns))) == InAll(OfAll(ChecksOfColumn, columns))
    ensures InAll(InConstraints(ColumnConstraints(columns) + constraints)) == InAll(OfAll(ChecksOfColumn, columns)) + InAll(InConstraints(constraints))
  {
    ColumnsAreDoubled(columns);
    OfAllAppends(InConstraint, ColumnConstraints(columns), constraints);
    InAllAppends(OfAll(ChecksOfColumn, columns), InConstraints(constraints));
  }

  /** The statement holds each placeholder of the text once, and those of the column CHECKs once more. */
  lemma {:induction false} ParsedPlaceholders(text: StatementText)
    ensures |InStatement(Parsed(text))| == |InText(text)| + |InColumnChecks(text)|
    decreases text
  {
    match text
    case CreateTableText(_, columns, constraints, _) => CreateIsDoubled(columns, constraints);
    case AlterTableText(_, operations) => OperationsAreDoubled(operations);
    case ExplainText(inner) => ParsedPlaceholders(inner);
    case OtherStatement(_) =>
  }

  /** parse numbers the statement; how many values it then takes. It takes one for each placeholder of the
      text exactly when no CHECK at a column holds one. */
  lemma TextDecidesCount(text: StatementText, vs: seq<Value>)
    ensures var s := AssignParameters(Parsed(text));
            && (BindParameters(s, vs).Ok? <==> |vs| == |InText(text)| + |InColumnChecks(text)|)
            && (ParameterCount(s) == |InText(text)| <==> InColumnChecks(text) == [])
  {
    ParsedPlaceholders(text);
    NumbersAreExact(Parsed(text));
    BindingIsComplete(Parsed(text), vs);
  }

  // ------------------------------------------------------- which value reaches the constraint

  /** In CREATE TABLE the first values go to the copies kept with the columns, which nothing evaluates, and the
      constraints of the table take the ones that follow. */
  lemma ConstraintsTakeLaterValues(text: StatementText)
    requires text.CreateTableText?
    ensures var s, n := AssignParameters(Parsed(text)), |InColumnChecks(text)|;
            && InAll(InColumns(s.columns)) == Range(0, n)
            && InAll(InConstraints(s.constraints)) == Range(n, |InText(text)|)
  {
    var s := Parsed(text);
    CreateIsDoubled(text.columns, text.constraints);
    NumberColumns(s.columns, 0);
    NumberConstraints(s.constraints, AssignColumns(s.columns, 0).1);
  }

  /** CREATE TABLE t (a INT CHECK (a > ?)) */
  function OneCheck(): StatementText {
    CreateTableText("t", [ColumnText("a", IntegerType, [CheckOption(None, Binary(Column(None, "a"), Compare(Gt), Parameter(0)))])], [], false)
  }

  lemma OneCheckPlaceholders(text: StatementText)
    requires text == OneCheck()
    ensures |InText(text)| == 1 && |InColumnChecks(text)| == 1
  {
    var check := Binary(Column(None, "a"), Compare(Gt), Parameter(0));
    var options := text.columns[0].options;
    assert options[..0] == [] && ChecksIn(options) == [check];
    assert text.columns[..0] == [] && OfAll(ChecksOfColumn, text.columns) == [check];
    assert InExpr(check) == [0];
    InAllNext([], check);
    assert [] + [check] == [check];
  }

  /** One placeholder in the text; one value is refused and two are needed. */
  lemma OneCheckTakesTwo(v: Value, w: Value)
    ensures |InText(OneCheck())| == 1
    ensures var s := AssignParameters(Parsed(OneCheck()));
            && ParameterCount(s) == 2 && BindParameters(s, [v]).Err? && BindParameters(s, [v, w]).Ok?
  {
    var text := OneCheck();
    OneCheckPlaceholders(text);
    TextDecidesCount(text, [v]);
    TextDecidesCount(text, [v, w]);
    ParsedPlaceholders(text);
    NumbersAreExact(Parsed(text));
  }
}
