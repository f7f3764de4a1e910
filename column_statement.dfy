/**
 * The column-statement checker as the program runs it: nested loops over the
 * table's columns and the configured statements, evaluation methods that
 * append to a shared result sink, and errors that abort the run. Each method
 * is proved to leave the sink and return the outcome given by the reference
 * semantics in PolicySpec.
 */
module ColumnStatement {
  import opened Wrappers
  import opened PolicyModel
  import opened PolicySpec
  import PolicyProperties

  /** The result sink the checker appends violations to. */
  class PolicyResult {
    var violations: seq<Violation>

    constructor ()
      ensures violations == []
    {
      violations := [];
    }

    method AddViolation(policy: string, message: string)
      modifies this
      ensures violations == old(violations) + [Violation(policy, message)]
    {
      violations := violations + [Violation(policy, message)];
    }
  }

  /** Whether the sink went from `before` to `after` as `run` says. */
  ghost predicate Recorded(before: seq<Violation>, after: seq<Violation>, outcome: Outcome<PolicyError>, run: Run)
  {
    after == before + run.emitted && outcome == run.outcome
  }

  class SchemaPolicyColumnStatement {
    const secretary: Secretary

    constructor (secretary: Secretary)
      ensures this.secretary == secretary
    {
      this.secretary := secretary;
    }

    /** Evaluates the statement list on every column of the table, in order. */
    method CheckColumnStatement(table: Table, statementList: Option<seq<string>>, result: PolicyResult)
      returns (outcome: Outcome<PolicyError>)
      modifies result
      ensures Recorded(old(result.violations), result.violations, outcome,
        TableRun(secretary, table.columnList, statementList))
    {
      var columnList := table.columnList;
      ghost var steps := TableSteps(secretary, columnList, statementList);
      outcome := Pass;
      for i := 0 to |columnList|
        invariant result.violations == old(result.violations) + Sequence(steps[..i]).emitted
        invariant Sequence(steps[..i]).outcome == Pass && outcome == Pass
      {
        ghost var before := result.violations;
        outcome := ProcessColumnStatement(columnList[i], statementList, result);
        PolicyProperties.RecordStep(steps, i, old(result.violations), before, result.violations, outcome);
        if outcome.Fail? {
          return;
        }
      }
      assert steps[..|columnList|] == steps;
    }

    /** Evaluates the statement list, when configured, on one column, in list order. */
    method ProcessColumnStatement(column: Column, statementList: Option<seq<string>>, result: PolicyResult)
      returns (outcome: Outcome<PolicyError>)
      modifies result
      ensures Recorded(old(result.violations), result.violations, outcome,
        ColumnStatementRun(secretary, column, statementList))
    {
      outcome := Pass;
      if statementList.Some? {
        var statements := statementList.value;
        ghost var steps := ColumnSteps(secretary, column, statements);
        for j := 0 to |statements|
          invariant result.violations == old(result.violations) + Sequence(steps[..j]).emitted
          invariant Sequence(steps[..j]).outcome == Pass && outcome == Pass
        {
          var statement := statements[j];
          ghost var before := result.violations;
          var extracted := secretary.extractIfClause(statement);
          if extracted.None? {
            outcome := Fail(MalformedStatement(statement));
          } else {
            outcome := EvaluateColumnIfClause(column, statement, result, extracted.value);
          }
          PolicyProperties.RecordStep(steps, j, old(result.violations), before, result.violations, outcome);
          if outcome.Fail? {
            return;
          }
        }
        assert steps[..|statements|] == steps;
      }
    }

    /** The if-clause: dispatches on the if-item and runs the then-clause when the gate opens. */
    method EvaluateColumnIfClause(column: Column, statement: string, result: PolicyResult, ifClause: IfClause)
      returns (outcome: Outcome<PolicyError>)
      modifies result
      ensures Recorded(old(result.violations), result.violations, outcome,
        Emit(PairOutcome(secretary, column, statement, ifClause)))
    {
      var ifItem := ifClause.ifItem;
      var ifValue := ifClause.ifValue;
      var notIfValue := ifClause.notIfValue;
      outcome := Pass;
      if EqualsIgnoreCase(ifItem, "columnName") {
        if secretary.isHitColumn(Some(secretary.toColumnName(column)), ifValue) == !notIfValue {
          outcome := EvaluateColumnThenClause(column, statement, result, ifClause);
        }
      } else if EqualsIgnoreCase(ifItem, "alias") {
        if secretary.isHitColumn(column.alias, ifValue) == !notIfValue {
          outcome := EvaluateColumnThenClause(column, statement, result, ifClause);
        }
      } else if EqualsIgnoreCase(ifItem, "dbType") {
        if column.dbType.Some? {
          if secretary.isHitExp(column.dbType, ifValue) == !notIfValue {
            outcome := EvaluateColumnThenClause(column, statement, result, ifClause);
          }
        }
      } else {
        outcome := Fail(IllegalIfThenStatement(statement, "Unknown if-item: " + ifItem));
      }
    }

    /** The then-clause: an item check, or a fixed verdict decided by the polarity rule. */
    method EvaluateColumnThenClause(column: Column, statement: string, result: PolicyResult, ifClause: IfClause)
      returns (outcome: Outcome<PolicyError>)
      modifies result
      ensures Recorded(old(result.violations), result.violations, outcome,
        Emit(ThenOutcome(secretary, column, statement, ifClause)))
    {
      var policy := ToPolicy(ifClause);
      var thenClause := ifClause.thenClause;
      outcome := Pass;
      if ifClause.thenItem.Some? {
        outcome := EvaluateColumnThenItemValue(column, statement, result, ifClause);
      } else {
        var notThenClause := ifClause.notThenClause;
        var notOr := if notThenClause then "not " else "";
        PolicyProperties.VerdictPolarity(secretary, column, statement, ifClause);
        if EqualsIgnoreCase(thenClause, "bad") == !notThenClause {
          result.AddViolation(policy, "The column is no good: " + secretary.toColumnDisp(column));
        } else if EqualsIgnoreCase(thenClause, "notNull") {
          if !column.notNull == !notThenClause {
            result.AddViolation(policy, "The column should " + notOr + "be not-null: " + secretary.toColumnDisp(column));
          }
        } else {
          outcome := Fail(IllegalIfThenStatement(statement, "Unknown then-clause: " + thenClause));
        }
      }
    }

    /** An item then-clause: checks the item's value against the hint, when the attribute is present. */
    method EvaluateColumnThenItemValue(column: Column, statement: string, result: PolicyResult, ifClause: IfClause)
      returns (outcome: Outcome<PolicyError>)
      requires ifClause.thenItem.Some?
      modifies result
      ensures Recorded(old(result.violations), result.violations, outcome,
        Emit(ThenItemOutcome(secretary, column, statement, ifClause)))
    {
      var policy := ToPolicy(ifClause);
      var thenItem := ifClause.thenItem.value;
      var thenValue := ifClause.thenValue;
      var notThenValue := ifClause.notThenValue;
      var notOr := if notThenValue then "not " else "";
      outcome := Pass;
      if EqualsIgnoreCase(thenItem, "columnName") {
        var columnName := secretary.toColumnName(column);
        if !secretary.isHitExp(Some(columnName), thenValue) == !notThenValue {
          result.AddViolation(policy,
            "The column name should " + notOr + "be " + thenValue + " but " + columnName + ": " + secretary.toColumnDisp(column));
        }
      } else if EqualsIgnoreCase(thenItem, "alias") {
        if column.alias.Some? {
          var alias := column.alias.value;
          if !secretary.isHitExp(Some(alias), thenValue) == !notThenValue {
            result.AddViolation(policy,
              "The column alias should " + notOr + "be " + thenValue + " but " + alias + ": " + secretary.toColumnDisp(column));
          }
        }
      } else if EqualsIgnoreCase(thenItem, "dbType") {
        if column.dbType.Some? {
          var dbType := column.dbType.value;
          if !secretary.isHitExp(Some(dbType), thenValue) == !notThenValue {
            result.AddViolation(policy,
              "The column db-type should " + notOr + "be " + thenValue + " but " + dbType + ": " + secretary.toColumnDisp(column));
          }
        }
      } else if EqualsIgnoreCase(thenItem, "size") {
        if column.columnSize.Some? {
          var size := column.columnSize.value;
          if !secretary.isHitExp(Some(size), thenValue) == !notThenValue {
            result.AddViolation(policy,
              "The column size should " + notOr + "be " + thenValue + " but " + size + ": " + secretary.toColumnDisp(column));
          }
        }
      } else if EqualsIgnoreCase(thenItem, "comment") {
        if column.alias.Some? {
          var comment := column.comment;
          if !secretary.isHitExp(comment, thenValue) == !notThenValue {
            result.AddViolation(policy,
              "The column comment should " + notOr + "be " + thenValue + " but " + JavaString(comment) + ": " + secretary.toColumnDisp(column));
          }
        }
      } else {
        outcome := Fail(IllegalIfThenStatement(statement, "Unknown then-item: " + thenItem));
      }
    }
  }
}
