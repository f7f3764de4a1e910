/**
 * The reference semantics of the column statements, stated with closed
 * vocabularies in place of the checker's case-insensitive string comparisons:
 * the if-gate, the then-clause (a fixed verdict or an item check), the outcome
 * of one (column, statement) pair, and the run over a whole table.
 */
module PolicySpec {
  import opened Wrappers
  import opened PolicyModel

  // ---------------------------------------------------------------------------
  // Vocabularies
  // ---------------------------------------------------------------------------

  /** The subjects an if-clause may test. */
  datatype IfItem = IfColumnName | IfAlias | IfDbType

  /** The subjects a then-clause may check. */
  datatype ThenItem = ThenColumnName | ThenAlias | ThenDbType | ThenSize | ThenComment

  /** The fixed verdicts a then-clause without an item may give. */
  datatype Verdict = Bad | NotNull

  /** Recognises an if-item token, whatever its case. */
  function ParseIfItem(token: string): (r: Option<IfItem>)
    ensures r == Some(IfColumnName) <==> EqualsIgnoreCase(token, "columnName")
    ensures r == Some(IfAlias) <==> EqualsIgnoreCase(token, "alias")
    ensures r == Some(IfDbType) <==> EqualsIgnoreCase(token, "dbType")
  {
    if EqualsIgnoreCase(token, "columnName") then Some(IfColumnName)
    else if EqualsIgnoreCase(token, "alias") then Some(IfAlias)
    else if EqualsIgnoreCase(token, "dbType") then Some(IfDbType)
    else None
  }

  /** Recognises a then-item token, whatever its case. */
  function ParseThenItem(token: string): (r: Option<ThenItem>)
    ensures r == Some(ThenColumnName) <==> EqualsIgnoreCase(token, "columnName")
    ensures r == Some(ThenAlias) <==> EqualsIgnoreCase(token, "alias")
    ensures r == Some(ThenDbType) <==> EqualsIgnoreCase(token, "dbType")
    ensures r == Some(ThenSize) <==> EqualsIgnoreCase(token, "size")
    ensures r == Some(ThenComment) <==> EqualsIgnoreCase(token, "comment")
  {
    if EqualsIgnoreCase(token, "columnName") then Some(ThenColumnName)
    else if EqualsIgnoreCase(token, "alias") then Some(ThenAlias)
    else if EqualsIgnoreCase(token, "dbType") then Some(ThenDbType)
    else if EqualsIgnoreCase(token, "size") then Some(ThenSize)
    else if EqualsIgnoreCase(token, "comment") then Some(ThenComment)
    else None
  }

  /** Recognises a verdict keyword, whatever its case. */
  function ParseVerdict(token: string): (r: Option<Verdict>)
    ensures r == Some(Bad) <==> EqualsIgnoreCase(token, "bad")
    ensures r == Some(NotNull) <==> EqualsIgnoreCase(token, "notNull")
  {
    if EqualsIgnoreCase(token, "bad") then Some(Bad)
    else if EqualsIgnoreCase(token, "notNull") then Some(NotNull)
    else None
  }

  // ---------------------------------------------------------------------------
  // One (column, statement) pair
  // ---------------------------------------------------------------------------

  /** The policy label of every violation a statement produces. */
  function ToPolicy(clause: IfClause): (policy: string)
  {
    "table.statement: " + clause.statement
  }

  /**
   * Whether the if-clause fires: the hit on the subject equals the absence of
   * `not`. The alias is passed as it is, present or not; the db-type must be
   * present.
   */
  predicate IfFires(sec: Secretary, column: Column, item: IfItem, clause: IfClause)
  {
    match item
    case IfColumnName => sec.isHitColumn(Some(sec.toColumnName(column)), clause.ifValue) == !clause.notIfValue
    case IfAlias => sec.isHitColumn(column.alias, clause.ifValue) == !clause.notIfValue
    case IfDbType => column.dbType.Some? && sec.isHitExp(column.dbType, clause.ifValue) == !clause.notIfValue
  }

  /**
   * The value a then-item checks, or `None` when the check is skipped because
   * the attribute it is gated on is absent. The comment is gated on the alias,
   * so a present alias with no comment yields `Some(None)` (a null comment).
   */
  function ThenSubject(sec: Secretary, column: Column, item: ThenItem): (r: Option<Option<string>>)
    ensures item.ThenColumnName? ==> r == Some(Some(sec.toColumnName(column)))
    ensures item.ThenAlias? ==> (r.Some? <==> column.alias.Some?)
    ensures item.ThenDbType? ==> (r.Some? <==> column.dbType.Some?)
    ensures item.ThenSize? ==> (r.Some? <==> column.columnSize.Some?)
    ensures item.ThenComment? ==> (r.Some? <==> column.alias.Some?)
    ensures r.Some? && !item.ThenComment? ==> r.value.Some?
    ensures item.ThenAlias? && r.Some? ==> r.value == column.alias
    ensures item.ThenDbType? && r.Some? ==> r.value == column.dbType
    ensures item.ThenSize? && r.Some? ==> r.value == column.columnSize
    ensures item.ThenComment? && r.Some? ==> r.value == column.comment
  {
    match item
    case ThenColumnName => Some(Some(sec.toColumnName(column)))
    case ThenAlias => if column.alias.Some? then Some(column.alias) else None
    case ThenDbType => if column.dbType.Some? then Some(column.dbType) else None
    case ThenSize => if column.columnSize.Some? then Some(column.columnSize) else None
    case ThenComment => if column.alias.Some? then Some(column.comment) else None
  }

  /** The word a message uses for a then-item. */
  function ItemLabel(item: ThenItem): string
  {
    match item
    case ThenColumnName => "name"
    case ThenAlias => "alias"
    case ThenDbType => "db-type"
    case ThenSize => "size"
    case ThenComment => "comment"
  }

  /**
   * The opening words of an item check's message, naming the item by its label.
   * Spelled out per item so that it matches the checker's message literals
   * without reasoning about string concatenation; the ensures ties it to the label.
   */
  function ItemHead(item: ThenItem): (head: string)
    ensures head == "The column " + ItemLabel(item) + " should "
  {
    match item
    case ThenColumnName => "The column name should "
    case ThenAlias => "The column alias should "
    case ThenDbType => "The column db-type should "
    case ThenSize => "The column size should "
    case ThenComment => "The column comment should "
  }

  /** The message template shared by all item checks. */
  function ItemMessage(item: ThenItem, negated: bool, thenValue: string, actual: Option<string>, disp: string): string
  {
    ItemHead(item) + NotOr(negated) + "be " + thenValue + " but " + JavaString(actual) + ": " + disp
  }

  /** An item then-clause: a violation when the hit equals the `not`. */
  function ThenItemOutcome(sec: Secretary, column: Column, statement: string, clause: IfClause): Result<Option<Violation>, PolicyError>
    requires clause.thenItem.Some?
  {
    match ParseThenItem(clause.thenItem.value)
    case None => Failure(IllegalIfThenStatement(statement, "Unknown then-item: " + clause.thenItem.value))
    case Some(item) =>
      match ThenSubject(sec, column, item)
      case None => Success(None)
      case Some(actual) =>
        if sec.isHitExp(actual, clause.thenValue) == clause.notThenValue then
          Success(Some(Violation(ToPolicy(clause),
            ItemMessage(item, clause.notThenValue, clause.thenValue, actual, sec.toColumnDisp(column)))))
        else Success(None)
  }

  /**
   * A verdict then-clause, as a table over (keyword, negation). Only an unnegated
   * `notNull` looks at the column; any negated keyword other than `bad` reports
   * the column as no good, and `not bad` is an unknown then-clause.
   */
  function VerdictOutcome(sec: Secretary, column: Column, statement: string, clause: IfClause): Result<Option<Violation>, PolicyError>
  {
    var noGood := Success(Some(Violation(ToPolicy(clause), "The column is no good: " + sec.toColumnDisp(column))));
    var unknown := Failure(IllegalIfThenStatement(statement, "Unknown then-clause: " + clause.thenClause));
    match (ParseVerdict(clause.thenClause), clause.notThenClause)
    case (Some(Bad), false) => noGood
    case (Some(Bad), true) => unknown
    case (Some(NotNull), false) =>
      if column.notNull then Success(None)
      else Success(Some(Violation(ToPolicy(clause), "The column should be not-null: " + sec.toColumnDisp(column))))
    case (Some(NotNull), true) => noGood
    case (None, false) => unknown
    case (None, true) => noGood
  }

  /** The then-clause, once the if-clause has fired. */
  function ThenOutcome(sec: Secretary, column: Column, statement: string, clause: IfClause): Result<Option<Violation>, PolicyError>
  {
    if clause.thenItem.Some? then ThenItemOutcome(sec, column, statement, clause)
    else VerdictOutcome(sec, column, statement, clause)
  }

  /**
   * The outcome of one parsed statement on one column: at most one violation,
   * labelled with the statement, or the error that aborts the run.
   */
  function PairOutcome(sec: Secretary, column: Column, statement: string, clause: IfClause): (r: Result<Option<Violation>, PolicyError>)
    ensures ParseIfItem(clause.ifItem).None? ==>
      r == Failure(IllegalIfThenStatement(statement, "Unknown if-item: " + clause.ifItem))
    ensures ParseIfItem(clause.ifItem).Some? && !IfFires(sec, column, ParseIfItem(clause.ifItem).value, clause) ==>
      r == Success(None)
    ensures r.Success? && r.value.Some? ==> r.value.value.policy == "table.statement: " + clause.statement
  {
    match ParseIfItem(clause.ifItem)
    case None => Failure(IllegalIfThenStatement(statement, "Unknown if-item: " + clause.ifItem))
    case Some(item) =>
      if IfFires(sec, column, item, clause) then ThenOutcome(sec, column, statement, clause)
      else Success(None)
  }

  /** One statement on one column, including the extraction of its if-clause. */
  function StepOutcome(sec: Secretary, column: Column, statement: string): Result<Option<Violation>, PolicyError>
  {
    match sec.extractIfClause(statement)
    case None => Failure(MalformedStatement(statement))
    case Some(clause) => PairOutcome(sec, column, statement, clause)
  }

  // ---------------------------------------------------------------------------
  // Runs
  // ---------------------------------------------------------------------------

  /** What a run leaves behind: the violations appended, and how it ended. */
  datatype Run = Run(emitted: seq<Violation>, outcome: Outcome<PolicyError>)

  /** The run that appends nothing and ends normally. */
  const Clean := Run([], Pass)

  /** One step as a run. */
  function Emit(step: Result<Option<Violation>, PolicyError>): (r: Run)
    ensures |r.emitted| <= 1
    ensures r.outcome.Fail? <==> step.Failure?
  {
    match step
    case Failure(e) => Run([], Fail(e))
    case Success(None) => Clean
    case Success(Some(v)) => Run([v], Pass)
  }

  /** `a` followed by `b`: an error in `a` aborts, so `b` never runs. */
  function Then(a: Run, b: Run): Run
  {
    if a.outcome.Fail? then a else Run(a.emitted + b.emitted, b.outcome)
  }

  /** Runs one after the other, stopping at the first that fails. */
  function Sequence(runs: seq<Run>): Run
    decreases |runs|
  {
    if runs == [] then Clean else Then(runs[0], Sequence(runs[1..]))
  }

  /** The steps of one column: each statement of the list, in list order. */
  function ColumnSteps(sec: Secretary, column: Column, statements: seq<string>): seq<Run>
  {
    seq(|statements|, j requires 0 <= j < |statements| => Emit(StepOutcome(sec, column, statements[j])))
  }

  /** A statement list evaluated, in order, on one column. */
  function ColumnRun(sec: Secretary, column: Column, statements: seq<string>): Run
  {
    Sequence(ColumnSteps(sec, column, statements))
  }

  /** The statement list, when configured, evaluated on one column. */
  function ColumnStatementRun(sec: Secretary, column: Column, statementList: Option<seq<string>>): Run
  {
    match statementList
    case None => Clean
    case Some(statements) => ColumnRun(sec, column, statements)
  }

  /** The steps of a table: each column, in table order. */
  function TableSteps(sec: Secretary, columns: seq<Column>, statementList: Option<seq<string>>): seq<Run>
  {
    seq(|columns|, i requires 0 <= i < |columns| => ColumnStatementRun(sec, columns[i], statementList))
  }

  /** The whole check: columns in table order, each with the statement list in list order. */
  function TableRun(sec: Secretary, columns: seq<Column>, statementList: Option<seq<string>>): Run
  {
    Sequence(TableSteps(sec, columns, statementList))
  }
}
